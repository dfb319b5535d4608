/** The INI store: printing and parsing a two-level map of strings, and exactly when
    parsing a printed store gives the store back. */
module Utf8IniStore {
  type Store = map<string, map<string, string>>

  // ----- text helpers -----

  function TrimLeft(s: string): (r: string)
    ensures r == "" || r[0] != ' '
    ensures |r| <= |s|
  {
    if s != "" && s[0] == ' ' then TrimLeft(s[1..]) else s
  }

  function TrimRight(s: string): (r: string)
    ensures r == "" || r[|r| - 1] != ' '
    ensures |r| <= |s| && r == s[..|r|]
  {
    if s != "" && s[|s| - 1] == ' ' then TrimRight(s[..|s| - 1]) else s
  }

  /** Removes spaces, and only spaces, at both ends. */
  function Trim(s: string): string {
    TrimRight(TrimLeft(s))
  }

  predicate Trimmed(s: string) {
    s == "" || (s[0] != ' ' && s[|s| - 1] != ' ')
  }

  /** Index of the first `ch`, or the length. */
  function IndexOf(s: string, ch: char): (i: nat)
    ensures i <= |s|
    ensures i < |s| ==> s[i] == ch
    ensures ch !in s[..i]
    ensures ch in s ==> i < |s|
  {
    if s == "" || s[0] == ch then 0
    else
      var i := 1 + IndexOf(s[1..], ch);
      assert s[..i] == [s[0]] + s[1..][..i - 1];
      i
  }

  function RemoveCr(s: string): (r: string)
    ensures '\r' !in r
  {
    if s == "" then "" else (if s[0] == '\r' then "" else [s[0]]) + RemoveCr(s[1..])
  }

  // ----- values -----

  predicate NeedsEscaping(value: string) {
    value != "" && (value[0] == ' ' || value[|value| - 1] == ' ' || '\n' in value || '"' in value)
  }

  function EscapeChar(ch: char): string {
    if ch == '"' then "\\\""
    else if ch == '\\' then "\\\\"
    else if ch == '\r' then "\\r"
    else if ch == '\n' then "\\n"
    else if ch == '\t' then "\\t"
    else [ch]
  }

  function EscapeChars(value: string): string {
    if value == "" then "" else EscapeChar(value[0]) + EscapeChars(value[1..])
  }

  function EscapeValue(value: string): string {
    if NeedsEscaping(value) then "\"" + EscapeChars(value) + "\"" else value
  }

  function UnescapeChar(ch: char): char {
    if ch == 'r' then '\r' else if ch == 'n' then '\n' else if ch == 't' then '\t' else ch
  }

  /** Drops bare quotes and resolves backslashes; a backslash at the very end stays. */
  function Unescape(s: string, escaped: bool): string {
    if s == "" then (if escaped then "\\" else "")
    else if escaped then [UnescapeChar(s[0])] + Unescape(s[1..], false)
    else if s[0] == '"' then Unescape(s[1..], false)
    else if s[0] == '\\' then Unescape(s[1..], true)
    else [s[0]] + Unescape(s[1..], false)
  }

  function UnescapeValue(s: string): string {
    Unescape(s, false)
  }

  // ----- lines -----

  datatype LineType = Invalid | Empty | Section | KeyValue | Comment

  function GetLineType(line: string): LineType {
    if line == "" then Empty
    else if line[0] == '[' && line[|line| - 1] == ']' then Section
    else if line[0] == ';' then Comment
    else if '=' in line then KeyValue
    else Invalid
  }

  function ParseKeyValueLine(line: string): (string, string)
    requires '=' in line
  {
    var pos := IndexOf(line, '=');
    var key, value := Trim(line[..pos]), Trim(line[pos + 1..]);
    (key, if value != "" && value[0] == '"' && value[|value| - 1] == '"' then UnescapeValue(value) else value)
  }

  /** The trimmed lines of a file; carriage returns are dropped. */
  function LinesOf(data: string, current: string): seq<string>
    decreases |data|
  {
    if data == "" then (if current != "" then [Trim(current)] else [])
    else if data[0] == '\r' then LinesOf(data[1..], current)
    else if data[0] == '\n' then [Trim(current)] + LinesOf(data[1..], "")
    else LinesOf(data[1..], current + [data[0]])
  }

  // ----- the store -----

  function Put(store: Store, section: string, key: string, value: string): Store {
    store[section := (if section in store then store[section] else map[])[key := value]]
  }

  function SetValueIn(store: Store, section: string, key: string, value: string): Store {
    if Trim(section) == "" || Trim(key) == "" then store else Put(store, Trim(section), Trim(key), value)
  }

  function GetValueIn(store: Store, section: string, key: string): string {
    var s, k := Trim(section), Trim(key);
    if s != "" && k != "" && s in store && k in store[s] then store[s][k] else ""
  }

  /** What reading left behind: the store so far, and the number of the last line looked at. */
  datatype Parsed = Parsed(ok: bool, store: Store, errorLine: nat)

  function ParseLines(lines: seq<string>, section: string, store: Store, errorLine: nat): Parsed
    decreases |lines|
  {
    if lines == [] then Parsed(true, store, errorLine)
    else
      var line := lines[0];
      match GetLineType(line)
      case Invalid => Parsed(false, store, errorLine + 1)
      case Comment | Empty => ParseLines(lines[1..], section, store, errorLine + 1)
      case KeyValue =>
        var (key, value) := ParseKeyValueLine(line);
        if section == "" || Trim(section) == "" || Trim(key) == "" then Parsed(false, store, errorLine + 1)
        else ParseLines(lines[1..], section, SetValueIn(store, section, key, value), errorLine + 1)
      case Section =>
        var name := Trim(line[1..|line| - 1]);
        if name == "" then Parsed(false, store, errorLine + 1)
        else ParseLines(lines[1..], name, store, errorLine + 1)
  }

  function Parse(data: string): Parsed {
    ParseLines(LinesOf(data, ""), "", map[], 0)
  }

  // ----- printing -----

  datatype Pair = Pair(key: string, value: string)

  datatype Group = Group(name: string, pairs: seq<Pair>)

  function PairsOf(pairs: seq<Pair>): map<string, string> {
    if pairs == [] then map[] else PairsOf(pairs[..|pairs| - 1])[pairs[|pairs| - 1].key := pairs[|pairs| - 1].value]
  }

  function StoreOf(groups: seq<Group>): Store {
    if groups == [] then map[]
    else StoreOf(groups[..|groups| - 1])[groups[|groups| - 1].name := PairsOf(groups[|groups| - 1].pairs)]
  }

  /** The store listed in some order, each section and key once and no section without keys. */
  predicate Lists(groups: seq<Group>, store: Store) {
    && (forall i, j :: 0 <= i < j < |groups| ==> groups[i].name != groups[j].name)
    && (forall g :: 0 <= g < |groups| ==> groups[g].pairs != [] && DistinctKeys(groups[g].pairs))
    && StoreOf(groups) == store
  }

  predicate DistinctKeys(pairs: seq<Pair>) {
    forall i, j :: 0 <= i < j < |pairs| ==> pairs[i].key != pairs[j].key
  }

  function PairLine(p: Pair): string {
    p.key + "=" + EscapeValue(p.value)
  }

  function PairLines(pairs: seq<Pair>): seq<string> {
    if pairs == [] then []
    else PairLines(pairs[..|pairs| - 1]) + (if pairs[|pairs| - 1].key != "" then [PairLine(pairs[|pairs| - 1])] else [])
  }

  function GroupLines(g: Group): seq<string> {
    ["[" + g.name + "]"] + PairLines(g.pairs)
  }

  /** All lines of the file, an empty one between sections. */
  function FileLines(groups: seq<Group>): seq<string> {
    if groups == [] then []
    else
      FileLines(groups[..|groups| - 1]) + (if |groups| > 1 then [""] else []) + GroupLines(groups[|groups| - 1])
  }

  function AppendLine(output: string, line: string): string {
    (if output != "" then output + "\r\n" else output) + line
  }

  function AppendLines(output: string, lines: seq<string>): string {
    if lines == [] then output else AppendLine(AppendLines(output, lines[..|lines| - 1]), lines[|lines| - 1])
  }

  function Text(groups: seq<Group>): string {
    AppendLines("", FileLines(groups))
  }

  // ----- the store object -----

  class Utf8Ini {
    var mSections: Store

    /** Sections come into being with their first key. */
    predicate Valid()
      reads this
    {
      forall s :: s in mSections ==> mSections[s] != map[]
    }

    constructor ()
      ensures Valid() && mSections == map[]
    {
      mSections := map[];
    }

    method SetValue(section: string, key: string, value: string) returns (ok: bool)
      requires Valid()
      modifies this
      ensures Valid() && ok == (Trim(section) != "" && Trim(key) != "")
      ensures mSections == SetValueIn(old(mSections), section, key, value)
    {
      var trimmedSection := Trim(section);
      var trimmedKey := Trim(key);
      if trimmedSection == "" || trimmedKey == "" {
        return false;
      }
      if trimmedSection in mSections {
        var keyValueMap := mSections[trimmedSection];
        mSections := mSections[trimmedSection := keyValueMap[trimmedKey := value]];
      } else {
        mSections := mSections[trimmedSection := map[trimmedKey := value]];
      }
      assert trimmedKey in mSections[trimmedSection];
      ok := true;
    }

    method GetValue(section: string, key: string) returns (value: string)
      ensures value == GetValueIn(mSections, section, key)
    {
      var trimmedSection := Trim(section);
      var trimmedKey := Trim(key);
      if trimmedSection == "" || trimmedKey == "" || trimmedSection !in mSections {
        return "";
      }
      var keyValueMap := mSections[trimmedSection];
      if trimmedKey !in keyValueMap {
        return "";
      }
      value := keyValueMap[trimmedKey];
    }

    method ClearSection(section: string) returns (ok: bool)
      requires Valid()
      modifies this
      ensures Valid() && ok == (Trim(section) != "" && Trim(section) in old(mSections))
      ensures mSections == if ok then old(mSections) - {Trim(section)} else old(mSections)
    {
      var trimmedSection := Trim(section);
      if trimmedSection == "" || trimmedSection !in mSections {
        return false;
      }
      mSections := mSections - {trimmedSection};
      ok := true;
    }

    /** Splits into trimmed lines, then parses them one by one into the emptied store. */
    method Deserialize(data: string) returns (ok: bool, errorLine: nat)
      modifies this
      ensures Valid() && Parsed(ok, mSections, errorLine) == Parse(data)
    {
      mSections := map[];
      var lines := SplitLines(data);
      ok, errorLine := ReadLines(lines);
    }

    method SplitLines(data: string) returns (lines: seq<string>)
      ensures lines == LinesOf(data, "")
    {
      hide Trim;
      lines := [];
      var curLine := "";
      assert data[0..] == data;
      for i := 0 to |data|
        invariant lines + LinesOf(data[i..], curLine) == LinesOf(data, "")
      {
        assert data[i..][1..] == data[i + 1..];
        if data[i] == '\r' {
        } else if data[i] == '\n' {
          LongerList(lines, Trim(curLine), LinesOf(data[i + 1..], ""));
          lines := lines + [Trim(curLine)];
          curLine := "";
        } else {
          curLine := curLine + [data[i]];
        }
      }
      assert data[|data|..] == "" && lines + [] == lines;
      if curLine != "" {
        lines := lines + [Trim(curLine)];
      }
    }

    method ReadLines(lines: seq<string>) returns (ok: bool, errorLine: nat)
      requires mSections == map[]
      modifies this
      ensures Valid() && Parsed(ok, mSections, errorLine) == ParseLines(lines, "", map[], 0)
    {
      hide GetLineType, ParseKeyValueLine, Trim;
      errorLine := 0;
      var section := "";
      assert lines[0..] == lines;
      for i := 0 to |lines|
        invariant Valid() && errorLine == i
        invariant ParseLines(lines[i..], section, mSections, i) == ParseLines(lines, "", map[], 0)
      {
        assert lines[i..][1..] == lines[i + 1..];
        var line := lines[i];
        errorLine := errorLine + 1;
        match GetLineType(line) {
          case Invalid => return false, errorLine;
          case Comment | Empty =>
          case KeyValue =>
            assert '=' in line by { TypeOfLine(line); }
            var (key, value) := ParseKeyValueLine(line);
            if section == "" {
              return false, errorLine;
            }
            var stored := SetValue(section, key, value);
            if !stored {
              return false, errorLine;
            }
          case Section =>
            TypeOfLine(line);
            section := Trim(line[1..|line| - 1]);
            if section == "" {
              return false, errorLine;
            }
        }
      }
      ok := true;
    }

    /** Prints every section and key once, in the order the maps are iterated. */
    method Serialize() returns (output: string)
      requires Valid()
      ensures exists groups :: Lists(groups, mSections) && output == Text(groups)
    {
      hide AppendLine, AppendLines, EscapeValue, FileLines, PairsOf;
      ghost var groups := [];
      output := "";
      var names := mSections.Keys;
      assert mSections - names == map[];
      NothingPrinted();
      while names != {}
        invariant names <= mSections.Keys
        invariant Lists(groups, mSections - names)
        invariant output == Text(groups)
        decreases names
      {
        ghost var before := mSections - names;
        var name :| name in names;
        names := names - {name};
        ghost var pairs;
        var body := output;
        if body != "" {
          body := AppendLine(body, "");
        }
        body := AppendLine(body, "[" + name + "]");
        body, pairs := SerializeSection(body, mSections[name]);
        assert mSections - names == before[name := mSections[name]];
        ListOneMore(groups, before, Group(name, pairs));
        PrintOneMore(groups, Group(name, pairs));
        output := body;
        groups := groups + [Group(name, pairs)];
      }
      assert mSections - names == mSections;
    }

    method SerializeSection(output0: string, pairs: map<string, string>) returns (output: string, ghost listed: seq<Pair>)
      ensures DistinctKeys(listed) && PairsOf(listed) == pairs
      ensures output == AppendLines(output0, PairLines(listed))
    {
      hide AppendLine, EscapeValue, AppendLines, PairLines;
      output, listed := output0, [];
      NoPairs(output0);
      var keys := pairs.Keys;
      assert pairs - keys == map[];
      while keys != {}
        invariant keys <= pairs.Keys
        invariant DistinctKeys(listed) && PairsOf(listed) == pairs - keys
        invariant output == AppendLines(output0, PairLines(listed))
        decreases keys
      {
        var key :| key in keys;
        ghost var before := pairs - keys;
        keys := keys - {key};
        ghost var p := Pair(key, pairs[key]);
        PairsOneMore(listed, p);
        PrintPair(output0, listed, p);
        assert pairs - keys == before[key := pairs[key]];
        if key != "" {
          output := AppendLine(output, key + "=" + EscapeValue(pairs[key]));
        }
        listed := listed + [p];
      }
      assert pairs - keys == pairs;
    }
  }

  /** Reading back what was set: the value under the same names, up to spaces around them, and everything
      else as before. */
  lemma GetAfterSet(store: Store, section: string, key: string, value: string, otherSection: string, otherKey: string)
    ensures GetValueIn(SetValueIn(store, section, key, value), otherSection, otherKey) ==
      if Trim(section) != "" && Trim(key) != "" && Trim(otherSection) == Trim(section) && Trim(otherKey) == Trim(key)
      then value else GetValueIn(store, otherSection, otherKey)
  {
    hide Trim;
  }

  /** Nothing is stored under an empty name. */
  lemma EmptyNamesAreRefused(store: Store, section: string, key: string, value: string)
    requires Trim(section) == "" || Trim(key) == ""
    ensures SetValueIn(store, section, key, value) == store
  {
  }

  /** After clearing a section nothing is left of it, and the others are as before. */
  lemma GetAfterClear(store: Store, section: string, otherSection: string, key: string)
    ensures GetValueIn(store - {Trim(section)}, otherSection, key) ==
      if Trim(otherSection) == Trim(section) then "" else GetValueIn(store, otherSection, key)
  {
    hide Trim;
  }

  /** All that stands in front of `i` and from `j` on is spaces, and what is between begins and ends with something else. */
  predicate Between(s: string, i: nat, j: nat) {
    && i <= j <= |s|
    && (forall k :: 0 <= k < i ==> s[k] in {' '})
    && (forall k :: j <= k < |s| ==> s[k] in {' '})
    && (i < j ==> s[i] !in {' '} && s[j - 1] !in {' '})
  }

  /** Trimming takes away the spaces at both ends and nothing else. */
  lemma TrimIs(s: string)
    ensures exists i: nat, j: nat :: Between(s, i, j) && Trim(s) == s[i..j]
  {
    hide TrimLeft, TrimRight;
    LeftIs(s);
    var t := TrimLeft(s);
    RightIs(t);
    var i := |s| - |t|;
    var j := i + |Trim(s)|;
    assert t == s[i..] && Trim(s) == t[..|Trim(s)|] == s[i..j];
    forall k | j <= k < |s|
      ensures s[k] == ' '
    {
      assert s[k] == t[k - i];
    }
    assert Between(s, i, j);
  }

  lemma {:induction false} LeftIs(s: string)
    ensures TrimLeft(s) == s[|s| - |TrimLeft(s)|..]
    ensures forall k :: 0 <= k < |s| - |TrimLeft(s)| ==> s[k] == ' '
  {
    if s != "" && s[0] == ' ' {
      var t := TrimLeft(s[1..]);
      LeftIs(s[1..]);
      assert s[1..][|s| - 1 - |t|..] == s[|s| - |t|..];
      assert forall k :: 1 <= k < |s| ==> s[k] == s[1..][k - 1];
    } else {
      assert s[0..] == s;
    }
  }

  lemma {:induction false} RightIs(s: string)
    ensures forall k :: |TrimRight(s)| <= k < |s| ==> s[k] == ' '
  {
    if s != "" && s[|s| - 1] == ' ' {
      RightIs(s[..|s| - 1]);
    }
  }

  lemma NoPairs(output: string)
    ensures AppendLines(output, PairLines([])) == output
  {
  }

  lemma NothingPrinted()
    ensures Lists([], map[]) && Text([]) == ""
  {
  }

  predicate HasKey(pairs: seq<Pair>, key: string) {
    exists i :: 0 <= i < |pairs| && pairs[i].key == key
  }

  lemma HasKeyInit(pairs: seq<Pair>, key: string)
    requires pairs != []
    ensures var n := |pairs| - 1;
      HasKey(pairs, key) <==> pairs[n].key == key || HasKey(pairs[..n], key)
  {
    var n := |pairs| - 1;
    if HasKey(pairs[..n], key) {
      var i :| 0 <= i < |pairs[..n]| && pairs[..n][i].key == key;
      assert pairs[i].key == key;
    } else {
      assert forall i :: 0 <= i < n ==> pairs[i] == pairs[..n][i];
    }
  }

  lemma {:induction false} KeysOfPairs(pairs: seq<Pair>, key: string)
    ensures key in PairsOf(pairs) <==> HasKey(pairs, key)
  {
    if pairs != [] {
      HasKeyInit(pairs, key);
      KeysOfPairs(pairs[..|pairs| - 1], key);
    }
  }

  lemma PairsOneMore(pairs: seq<Pair>, p: Pair)
    requires DistinctKeys(pairs) && p.key !in PairsOf(pairs)
    ensures DistinctKeys(pairs + [p]) && PairsOf(pairs + [p]) == PairsOf(pairs)[p.key := p.value]
  {
    assert (pairs + [p])[..|pairs|] == pairs;
    forall i | 0 <= i < |pairs|
      ensures pairs[i].key != p.key
    {
      KeysOfPairs(pairs, pairs[i].key);
    }
  }

  lemma PrintPair(output: string, pairs: seq<Pair>, p: Pair)
    ensures var before := AppendLines(output, PairLines(pairs));
      AppendLines(output, PairLines(pairs + [p])) == if p.key != "" then AppendLine(before, PairLine(p)) else before
  {
    hide AppendLine, EscapeValue;
    assert (pairs + [p])[..|pairs|] == pairs;
    var lines := PairLines(pairs);
    if p.key != "" {
      AppendLinesMore(output, lines, [PairLine(p)]);
      AppendOne(AppendLines(output, lines), PairLine(p));
    } else {
      assert lines + [] == lines;
    }
  }

  predicate HasName(groups: seq<Group>, name: string) {
    exists g :: 0 <= g < |groups| && groups[g].name == name
  }

  lemma {:induction false} NamesOfGroups(groups: seq<Group>, name: string)
    ensures name in StoreOf(groups) <==> HasName(groups, name)
  {
    hide PairsOf;
    if groups != [] {
      var n := |groups| - 1;
      NamesOfGroups(groups[..n], name);
      if HasName(groups[..n], name) {
        var g :| 0 <= g < |groups[..n]| && groups[..n][g].name == name;
        assert groups[g].name == name;
      } else {
        assert forall g :: 0 <= g < n ==> groups[g] == groups[..n][g];
      }
    }
  }

  lemma ListOneMore(groups: seq<Group>, store: Store, g: Group)
    requires Lists(groups, store) && g.name !in store
    requires PairsOf(g.pairs) != map[] && DistinctKeys(g.pairs)
    ensures Lists(groups + [g], store[g.name := PairsOf(g.pairs)])
  {
    forall i | 0 <= i < |groups|
      ensures groups[i].name != g.name
    {
      NamesOfGroups(groups, groups[i].name);
    }
    assert (groups + [g])[..|groups|] == groups;
    assert g.pairs != [];
  }

  lemma {:induction false} AppendLinesMore(output: string, first: seq<string>, more: seq<string>)
    ensures AppendLines(output, first + more) == AppendLines(AppendLines(output, first), more)
    decreases |more|
  {
    hide AppendLine;
    if more == [] {
      assert first + more == first;
    } else {
      var n := |more| - 1;
      assert (first + more)[..|first| + n] == first + more[..n];
      AppendLinesMore(output, first, more[..n]);
    }
  }

  lemma PrintOneMore(groups: seq<Group>, g: Group)
    ensures var text := Text(groups);
      var body := if text != "" then AppendLine(text, "") else text;
      Text(groups + [g]) == AppendLines(AppendLine(body, "[" + g.name + "]"), PairLines(g.pairs))
  {
    hide AppendLine, FileLines, PairLines;
    var header := "[" + g.name + "]";
    FileOneMore(groups, g);
    TextNotEmpty(groups);
    var separator := if groups == [] then [] else [""];
    var lines := FileLines(groups);
    AppendLinesMore("", lines + separator, GroupLines(g));
    AppendLinesMore("", lines, separator);
    var before := AppendLines("", lines + separator);
    AppendLinesMore(before, [header], PairLines(g.pairs));
    AppendOne(before, header);
    AppendOne(Text(groups), "");
    assert AppendLines(Text(groups), []) == Text(groups);
  }

  lemma AppendOne(output: string, line: string)
    ensures AppendLines(output, [line]) == AppendLine(output, line)
  {
    hide AppendLine;
    assert [line][..0] == [];
  }

  lemma FileOneMore(groups: seq<Group>, g: Group)
    ensures FileLines(groups + [g]) == FileLines(groups) + (if groups == [] then [] else [""]) + GroupLines(g)
  {
    assert (groups + [g])[..|groups|] == groups;
  }

  lemma {:induction false} TextNotEmpty(groups: seq<Group>)
    ensures Text(groups) == "" <==> groups == []
  {
    hide FileLines, PairLines, AppendLines;
    if groups == [] {
      NothingPrinted();
    } else {
      var n := |groups| - 1;
      var front, g := groups[..n], groups[n];
      assert groups == front + [g];
      FileOneMore(front, g);
      var before := FileLines(front) + (if front == [] then [] else [""]);
      AppendLinesMore("", before, GroupLines(g));
      AppendLinesMore(AppendLines("", before), ["[" + g.name + "]"], PairLines(g.pairs));
      AppendOne(AppendLines("", before), "[" + g.name + "]");
      AppendKeeps(AppendLine(AppendLines("", before), "[" + g.name + "]"), PairLines(g.pairs));
    }
  }

  lemma {:induction false} AppendKeeps(output: string, lines: seq<string>)
    requires output != ""
    ensures AppendLines(output, lines) != ""
    decreases |lines|
  {
    if lines != [] {
      AppendKeeps(output, lines[..|lines| - 1]);
    }
  }

  lemma LongerList(lines: seq<string>, line: string, rest: seq<string>)
    ensures lines + [line] + rest == lines + ([line] + rest)
  {
  }

  lemma TypeOfLine(line: string)
    ensures GetLineType(line).KeyValue? ==> '=' in line
    ensures GetLineType(line).Section? ==> |line| >= 2
  {
  }
}
