/** What reading an INI file does with any text whatever: when it fails and at which line, and which of
    several assignments counts. */
module Utf8IniReading {
  import opened Utf8IniStore

  /** The section that a line stands in, by the headers before it. */
  function SectionAt(lines: seq<string>, section: string, i: nat): string
    requires i <= |lines|
  {
    if i == 0 then section
    else
      var line := lines[i - 1];
      if GetLineType(line) == Section then HeaderName(line) else SectionAt(lines, section, i - 1)
  }

  /** What stands between the brackets. */
  function HeaderName(line: string): string
    requires GetLineType(line) == Section
  {
    TypeOfLine(line);
    Trim(line[1..|line| - 1])
  }

  /** A line is fine if it is empty or a comment, a header with a name, or a key with a name in some section. */
  predicate Fine(lines: seq<string>, section: string, i: nat)
    requires i < |lines|
  {
    var line := lines[i];
    match GetLineType(line)
    case Empty => true
    case Comment => true
    case Section => HeaderName(line) != ""
    case KeyValue =>
      TypeOfLine(line);
      Trim(SectionAt(lines, section, i)) != "" && Trim(ParseKeyValueLine(line).0) != ""
    case Invalid => false
  }

  lemma {:induction false} SectionShift(lines: seq<string>, section: string, i: nat)
    requires lines != [] && i < |lines|
    ensures SectionAt(lines, section, i + 1) == SectionAt(lines[1..], SectionAt(lines, section, 1), i)
  {
    hide GetLineType, HeaderName;
    if i > 0 {
      SectionShift(lines, section, i - 1);
    }
  }

  lemma FineShift(lines: seq<string>, section: string, i: nat)
    requires 0 < i < |lines|
    ensures Fine(lines, section, i) <==> Fine(lines[1..], SectionAt(lines, section, 1), i - 1)
  {
    hide GetLineType, HeaderName, ParseKeyValueLine, SectionAt;
    SectionShift(lines, section, i - 1);
  }

  lemma OneLine(lines: seq<string>, section: string, store: Store, errorLine: nat)
    requires lines != []
    ensures
      if !Fine(lines, section, 0) then ParseLines(lines, section, store, errorLine) == Parsed(false, store, errorLine + 1)
      else
        var store' := if GetLineType(lines[0]) == KeyValue then Assign(store, section, lines[0]) else store;
        ParseLines(lines, section, store, errorLine)
        == ParseLines(lines[1..], SectionAt(lines, section, 1), store', errorLine + 1)
  {
    hide GetLineType, ParseKeyValueLine, Trim;
    TypeOfLine(lines[0]);
    assert Trim("") == "" by { TrimOfNothing(); }
  }

  lemma TrimOfNothing()
    ensures Trim("") == ""
  {
  }

  function Assign(store: Store, section: string, line: string): Store
    requires GetLineType(line) == KeyValue
  {
    TypeOfLine(line);
    SetValueIn(store, section, ParseKeyValueLine(line).0, ParseKeyValueLine(line).1)
  }

  predicate AllFine(lines: seq<string>, section: string, n: nat)
    requires n <= |lines|
  {
    forall i :: 0 <= i < n ==> Fine(lines, section, i)
  }

  lemma AllFineShift(lines: seq<string>, section: string, n: nat)
    requires 0 < n <= |lines|
    ensures AllFine(lines, section, n) <==>
      Fine(lines, section, 0) && AllFine(lines[1..], SectionAt(lines, section, 1), n - 1)
  {
    hide Fine, SectionAt;
    forall i | 0 < i < n
      ensures Fine(lines, section, i) <==> Fine(lines[1..], SectionAt(lines, section, 1), i - 1)
    {
      FineShift(lines, section, i);
    }
    if AllFine(lines[1..], SectionAt(lines, section, 1), n - 1) && Fine(lines, section, 0) {
      forall i | 0 <= i < n
        ensures Fine(lines, section, i)
      {
        if i > 0 {
          assert Fine(lines[1..], SectionAt(lines, section, 1), i - 1);
        }
      }
    }
    if AllFine(lines, section, n) {
      forall i | 0 <= i < n - 1
        ensures Fine(lines[1..], SectionAt(lines, section, 1), i)
      {
        assert Fine(lines, section, i + 1);
      }
    }
  }

  /** Reading succeeds exactly if every line is fine, and else stops at the first one that is not. */
  lemma {:induction false} StopsAtFirstBadLine(lines: seq<string>, section: string, store: Store, errorLine: nat, n: nat)
    requires n <= |lines| && AllFine(lines, section, n) && (n < |lines| ==> !Fine(lines, section, n))
    ensures var r := ParseLines(lines, section, store, errorLine);
      && (r.ok <==> n == |lines|)
      && r.errorLine == errorLine + if n == |lines| then n else n + 1
    decreases |lines|
  {
    hide ParseLines, Fine, AllFine, SectionAt, GetLineType, Assign;
    if lines == [] {
      NoLines(section, store, errorLine);
    } else {
      OneLine(lines, section, store, errorLine);
      if n > 0 {
        AllFineShift(lines, section, n);
        if n < |lines| {
          FineShift(lines, section, n);
        }
        var store' := if GetLineType(lines[0]) == KeyValue then Assign(store, section, lines[0]) else store;
        StopsAtFirstBadLine(lines[1..], SectionAt(lines, section, 1), store', errorLine + 1, n - 1);
      }
    }
  }

  lemma NoLines(section: string, store: Store, errorLine: nat)
    ensures ParseLines([], section, store, errorLine) == Parsed(true, store, errorLine)
  {
  }

  /** Exactly which files are read: those in which every line is fine. The line reported for the others is
      the first that is not. */
  lemma ReadsIff(data: string)
    ensures var lines := LinesOf(data, "");
      && (Parse(data).ok <==> AllFine(lines, "", |lines|))
      && (!Parse(data).ok ==>
           && 0 < Parse(data).errorLine <= |lines|
           && AllFine(lines, "", Parse(data).errorLine - 1) && !Fine(lines, "", Parse(data).errorLine - 1))
  {
    hide LinesOf, ParseLines, Fine;
    var lines := LinesOf(data, "");
    var n := FirstBad(lines, "", 0);
    StopsAtFirstBadLine(lines, "", map[], 0, n);
  }

  lemma {:induction false} FirstBad(lines: seq<string>, section: string, from: nat) returns (n: nat)
    requires from <= |lines| && AllFine(lines, section, from)
    ensures from <= n <= |lines| && AllFine(lines, section, n) && (n < |lines| ==> !Fine(lines, section, n))
    decreases |lines| - from
  {
    hide Fine;
    if from < |lines| && Fine(lines, section, from) {
      n := FirstBad(lines, section, from + 1);
    } else {
      n := from;
    }
  }

  // ----- several assignments -----

  /** The line assigns to this key of this section. */
  predicate Assigns(lines: seq<string>, section: string, i: nat, s: string, k: string)
    requires i < |lines|
  {
    GetLineType(lines[i]) == KeyValue && Trim(SectionAt(lines, section, i)) == s && Trim(KeyOf(lines[i])) == k
  }

  function KeyOf(line: string): string
    requires GetLineType(line) == KeyValue
  {
    TypeOfLine(line);
    ParseKeyValueLine(line).0
  }

  function ValueOf(line: string): string
    requires GetLineType(line) == KeyValue
  {
    TypeOfLine(line);
    ParseKeyValueLine(line).1
  }

  lemma AssignsShift(lines: seq<string>, section: string, i: nat, s: string, k: string)
    requires 0 < i < |lines|
    ensures Assigns(lines, section, i, s, k) <==> Assigns(lines[1..], SectionAt(lines, section, 1), i - 1, s, k)
  {
    hide GetLineType, SectionAt, KeyOf, Trim;
    SectionShift(lines, section, i - 1);
  }

  predicate Untouched(lines: seq<string>, section: string, from: nat, s: string, k: string) {
    forall i :: from <= i < |lines| ==> !Assigns(lines, section, i, s, k)
  }

  lemma UntouchedShift(lines: seq<string>, section: string, from: nat, s: string, k: string)
    requires lines != [] && Untouched(lines, section, from, s, k)
    ensures Untouched(lines[1..], SectionAt(lines, section, 1), if from == 0 then 0 else from - 1, s, k)
  {
    hide Assigns, SectionAt;
    forall i | (if from == 0 then 0 else from - 1) <= i < |lines| - 1
      ensures !Assigns(lines[1..], SectionAt(lines, section, 1), i, s, k)
    {
      AssignsShift(lines, section, i + 1, s, k);
    }
  }

  predicate Holds(store: Store, s: string, k: string, v: string) {
    s in store && k in store[s] && store[s][k] == v
  }

  lemma AssignHolds(store: Store, section: string, line: string, s: string, k: string, v: string)
    requires GetLineType(line) == KeyValue && Trim(section) != "" && Trim(KeyOf(line)) != ""
    ensures Holds(Assign(store, section, line), s, k, v) <==>
      if Trim(section) == s && Trim(KeyOf(line)) == k then v == ValueOf(line) else Holds(store, s, k, v)
  {
    hide Trim, GetLineType, ParseKeyValueLine;
  }

  /** What no line assigns to stays as it was. */
  lemma {:induction false} StaysUntouched(lines: seq<string>, section: string, store: Store, errorLine: nat,
                                          s: string, k: string, v: string)
    requires AllFine(lines, section, |lines|) && Untouched(lines, section, 0, s, k)
    ensures Holds(ParseLines(lines, section, store, errorLine).store, s, k, v) <==> Holds(store, s, k, v)
    decreases |lines|
  {
    hide ParseLines, AllFine, SectionAt, GetLineType, Assign, Untouched, Holds, KeyOf, Trim;
    if lines == [] {
      NoLines(section, store, errorLine);
    } else {
      AllFineShift(lines, section, |lines|);
      OneLine(lines, section, store, errorLine);
      UntouchedShift(lines, section, 0, s, k);
      var store' := if GetLineType(lines[0]) == KeyValue then Assign(store, section, lines[0]) else store;
      StaysUntouched(lines[1..], SectionAt(lines, section, 1), store', errorLine + 1, s, k, v);
      if GetLineType(lines[0]) == KeyValue {
        FirstSection(lines, section);
        assert !Assigns(lines, section, 0, s, k) by { NotFirst(lines, section, s, k); }
        AssignHolds(store, section, lines[0], s, k, v);
      }
    }
  }

  lemma NotFirst(lines: seq<string>, section: string, s: string, k: string)
    requires lines != [] && Untouched(lines, section, 0, s, k)
    ensures !Assigns(lines, section, 0, s, k)
  {
    hide Assigns;
  }

  lemma FirstSection(lines: seq<string>, section: string)
    requires lines != []
    ensures SectionAt(lines, section, 0) == section
    ensures GetLineType(lines[0]) == KeyValue && Fine(lines, section, 0) ==>
      Trim(section) != "" && Trim(KeyOf(lines[0])) != ""
  {
    hide Trim, GetLineType, ParseKeyValueLine;
  }

  /** The last of several assignments to one key counts. */
  lemma {:induction false} LastAssignmentCounts(lines: seq<string>, section: string, store: Store, errorLine: nat,
                                                i: nat, s: string, k: string)
    requires AllFine(lines, section, |lines|) && i < |lines|
    requires Assigns(lines, section, i, s, k) && Untouched(lines, section, i + 1, s, k)
    ensures Holds(ParseLines(lines, section, store, errorLine).store, s, k, ValueOf(lines[i]))
    decreases |lines|
  {
    hide ParseLines, AllFine, SectionAt, GetLineType, Assign, Untouched, Holds, KeyOf, ValueOf, Trim;
    AllFineShift(lines, section, |lines|);
    OneLine(lines, section, store, errorLine);
    UntouchedShift(lines, section, i + 1, s, k);
    FirstSection(lines, section);
    var store' := if GetLineType(lines[0]) == KeyValue then Assign(store, section, lines[0]) else store;
    if i == 0 {
      AssignHolds(store, section, lines[0], s, k, ValueOf(lines[0]));
      StaysUntouched(lines[1..], SectionAt(lines, section, 1), store', errorLine + 1, s, k, ValueOf(lines[0]));
    } else {
      AssignsShift(lines, section, i, s, k);
      LastAssignmentCounts(lines[1..], SectionAt(lines, section, 1), store', errorLine + 1, i - 1, s, k);
    }
  }

  /** So the value under a key of a section is the one of the last line that assigns to it, and without such a
      line there is none. */
  lemma ValueIsLastAssigned(data: string, section: string, key: string, i: nat)
    requires Parse(data).ok && Trim(section) != "" && Trim(key) != ""
    ensures var lines := LinesOf(data, "");
      && (i < |lines| && Assigns(lines, "", i, Trim(section), Trim(key))
            && Untouched(lines, "", i + 1, Trim(section), Trim(key)) ==>
          GetValueIn(Parse(data).store, section, key) == ValueOf(lines[i]))
      && (Untouched(lines, "", 0, Trim(section), Trim(key)) ==> GetValueIn(Parse(data).store, section, key) == "")
  {
    hide LinesOf, ParseLines, AllFine, Assigns, Untouched, Trim, ValueOf;
    var lines, s, k := LinesOf(data, ""), Trim(section), Trim(key);
    ReadsIff(data);
    if i < |lines| && Assigns(lines, "", i, s, k) && Untouched(lines, "", i + 1, s, k) {
      LastAssignmentCounts(lines, "", map[], 0, i, s, k);
    }
    if Untouched(lines, "", 0, s, k) {
      var v := GetValueIn(Parse(data).store, section, key);
      StaysUntouched(lines, "", map[], 0, s, k, v);
    }
  }

  // ----- what a line says -----

  /** A key and a value stand before and behind the first equal sign, without the spaces around them; quotes
      around the value are taken off and what is escaped between them resolved. */
  lemma KeyAndValue(before: string, behind: string)
    requires '=' !in before
    ensures '=' in before + ("=" + behind)
    ensures var (key, value) := ParseKeyValueLine(before + ("=" + behind));
      && key == Trim(before)
      && var v := Trim(behind);
         value == if v != "" && v[0] == '"' && v[|v| - 1] == '"' then UnescapeValue(v) else v
  {
    hide Trim, Unescape;
    var line := before + ("=" + behind);
    assert line[|before|] == '=';
    FirstEqual(before, behind);
    assert line[..|before|] == before && line[|before| + 1..] == behind;
  }

  lemma {:induction false} FirstEqual(before: string, behind: string)
    requires '=' !in before
    ensures IndexOf(before + ("=" + behind), '=') == |before|
  {
    if before != "" {
      assert (before + ("=" + behind))[1..] == before[1..] + ("=" + behind);
      FirstEqual(before[1..], behind);
    }
  }

  /** A backslash stands for the line break or tab it is written with, and for any other character behind it;
      a lone one at the end stays, and bare quotes are dropped. */
  lemma Unescaped(ch: char, rest: string)
    ensures Unescape("\\" + ([ch] + rest), false) ==
      [if ch == 'r' then '\r' else if ch == 'n' then '\n' else if ch == 't' then '\t' else ch] + Unescape(rest, false)
    ensures Unescape("\\", false) == "\\"
    ensures Unescape("\"" + rest, false) == Unescape(rest, false)
    ensures ch != '"' && ch != '\\' ==> Unescape([ch] + rest, false) == [ch] + Unescape(rest, false)
  {
    assert ("\\" + ([ch] + rest))[1..] == [ch] + rest && ([ch] + rest)[1..] == rest;
    assert "\\"[1..] == "" && ("\"" + rest)[1..] == rest;
    assert Unescape([ch] + rest, true) == [UnescapeChar(ch)] + Unescape(rest, false);
  }
}
