/** Lower-case copies, for comparisons without regard to case, and trimming of white space. */
module Strings {
  function LowerChar(ch: char): char {
    if 'A' <= ch <= 'Z' then ch - 'A' + 'a' else ch
  }

  function Lower(s: string): (r: string)
    ensures |r| == |s|
  {
    if s == "" then "" else [LowerChar(s[0])] + Lower(s[1..])
  }

  predicate IsBlank(ch: char) {
    ch == ' ' || ch == '\n' || ch == '\r' || ch == '\t'
  }

  function TrimLeft(s: string): string {
    if s != "" && IsBlank(s[0]) then TrimLeft(s[1..]) else s
  }

  function TrimRight(s: string): string {
    if s != "" && IsBlank(s[|s| - 1]) then TrimRight(s[..|s| - 1]) else s
  }

  function Trim(s: string): string {
    TrimRight(TrimLeft(s))
  }

  /** All that stands in front of `i` and from `j` on is white space, and what is between begins and ends with none. */
  predicate Between(s: string, i: nat, j: nat) {
    && i <= j <= |s|
    && (forall k :: 0 <= k < i ==> s[k] in {' ', '\t', '\r', '\n'})
    && (forall k :: j <= k < |s| ==> s[k] in {' ', '\t', '\r', '\n'})
    && (i < j ==> s[i] !in {' ', '\t', '\r', '\n'} && s[j - 1] !in {' ', '\t', '\r', '\n'})
  }

  /** Trimming takes away the white space at both ends and nothing else. */
  lemma TrimIs(s: string)
    ensures exists i: nat, j: nat :: Between(s, i, j) && Trim(s) == s[i..j]
  {
    hide TrimLeft, TrimRight;
    LeftIs(s);
    var t := TrimLeft(s);
    RightIs(t);
    var i := |s| - |t|;
    var j := i + |Trim(s)|;
    assert t == s[i..] && Trim(s) == t[..|Trim(s)|] == s[i..j];
    forall k | j <= k < |s|
      ensures IsBlank(s[k])
    {
      assert s[k] == t[k - i];
    }
    assert Between(s, i, j);
  }

  lemma {:induction false} LeftIs(s: string)
    ensures |TrimLeft(s)| <= |s| && TrimLeft(s) == s[|s| - |TrimLeft(s)|..]
    ensures forall k :: 0 <= k < |s| - |TrimLeft(s)| ==> IsBlank(s[k])
    ensures TrimLeft(s) != "" ==> !IsBlank(TrimLeft(s)[0])
  {
    hide IsBlank;
    if s != "" && IsBlank(s[0]) {
      var t := TrimLeft(s[1..]);
      LeftIs(s[1..]);
      assert s[1..][|s| - 1 - |t|..] == s[|s| - |t|..];
      assert forall k :: 1 <= k < |s| ==> s[k] == s[1..][k - 1];
    } else {
      assert s[0..] == s;
    }
  }

  lemma {:induction false} RightIs(s: string)
    ensures |TrimRight(s)| <= |s| && TrimRight(s) == s[..|TrimRight(s)|]
    ensures forall k :: |TrimRight(s)| <= k < |s| ==> IsBlank(s[k])
    ensures TrimRight(s) != "" ==> !IsBlank(TrimRight(s)[|TrimRight(s)| - 1])
  {
    hide IsBlank;
    if s != "" && IsBlank(s[|s| - 1]) {
      RightIs(s[..|s| - 1]);
    } else {
      assert s[..|s|] == s;
    }
  }
}
