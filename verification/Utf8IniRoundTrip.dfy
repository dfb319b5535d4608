/** Exactly which stores survive being printed and parsed. */
module Utf8IniRoundTrip {
  import opened Utf8IniStore

  // ----- values -----

  lemma UnescapeOne(ch: char, rest: string)
    ensures Unescape(EscapeChar(ch) + rest, false) == [ch] + Unescape(rest, false)
  {
    if ch == '"' || ch == '\\' || ch == '\r' || ch == '\n' || ch == '\t' {
      var second := EscapeChar(ch)[1];
      assert (EscapeChar(ch) + rest)[1..] == [second] + rest;
      assert ([second] + rest)[1..] == rest;
    } else {
      assert ([ch] + rest)[1..] == rest;
    }
  }

  lemma {:induction false} UnescapeChars(value: string)
    ensures Unescape(EscapeChars(value) + "\"", false) == value
  {
    if value == "" {
      assert "" + "\"" == "\"" && "\""[1..] == "";
    } else {
      assert EscapeChars(value) + "\"" == EscapeChar(value[0]) + (EscapeChars(value[1..]) + "\"");
      UnescapeOne(value[0], EscapeChars(value[1..]) + "\"");
      UnescapeChars(value[1..]);
    }
  }

  lemma {:induction false} EscapedHasNoLineBreak(value: string)
    ensures '\r' !in EscapeChars(value) && '\n' !in EscapeChars(value)
  {
    if value != "" {
      EscapedHasNoLineBreak(value[1..]);
    }
  }

  /** A value that needs escaping is printed between quotes without line breaks and read back exactly. */
  lemma EscapingRoundTrip(value: string)
    requires NeedsEscaping(value)
    ensures UnescapeValue(EscapeValue(value)) == value
    ensures '\r' !in EscapeValue(value) && '\n' !in EscapeValue(value)
    ensures |EscapeValue(value)| >= 2 && EscapeValue(value)[0] == '"' && EscapeValue(value)[|EscapeValue(value)| - 1] == '"'
  {
    hide EscapeChars;
    var body := EscapeChars(value) + "\"";
    assert EscapeValue(value) == "\"" + body;
    assert ("\"" + body)[1..] == body;
    UnescapeChars(value);
    EscapedHasNoLineBreak(value);
  }

  /** The value that comes back from a file. */
  function ReadBack(value: string): string {
    if NeedsEscaping(value) then value else Trim(RemoveCr(value))
  }

  lemma {:induction false} RemoveCrParts(a: string, b: string)
    ensures RemoveCr(a + b) == RemoveCr(a) + RemoveCr(b)
  {
    if a == "" {
      assert a + b == b;
    } else {
      assert (a + b)[1..] == a[1..] + b;
      RemoveCrParts(a[1..], b);
    }
  }

  lemma {:induction false} RemoveCrKeeps(s: string)
    ensures '\r' !in s ==> RemoveCr(s) == s
    ensures forall ch :: ch in RemoveCr(s) ==> ch in s
  {
    if s != "" {
      RemoveCrKeeps(s[1..]);
    }
  }

  lemma TrimKeeps(s: string)
    requires Trimmed(s)
    ensures Trim(s) == s && TrimRight(s) == s && TrimLeft(s) == s
  {
  }

  /** A value survives exactly when it is escaped or has no carriage return. */
  lemma ReadBackIsExact(value: string)
    ensures ReadBack(value) == value <==> NeedsEscaping(value) || '\r' !in value
  {
    hide TrimLeft, TrimRight;
    RemoveCrKeeps(value);
    if !NeedsEscaping(value) {
      if '\r' in value {
        TrimSubset(RemoveCr(value));
      } else {
        TrimKeeps(value);
      }
    }
  }

  lemma TrimSubset(s: string)
    ensures forall ch :: ch in Trim(s) ==> ch in s
  {
    TrimLeftSubset(s);
  }

  lemma {:induction false} TrimLeftSubset(s: string)
    ensures forall ch :: ch in TrimLeft(s) ==> ch in s
  {
    if s != "" && s[0] == ' ' {
      TrimLeftSubset(s[1..]);
    }
  }

  // ----- lines -----

  function ShownLine(line: string): string {
    Trim(RemoveCr(line))
  }

  function ShownLines(lines: seq<string>): (r: seq<string>)
    ensures |r| == |lines|
  {
    seq(|lines|, i requires 0 <= i < |lines| => ShownLine(lines[i]))
  }

  lemma LinesOfStep(ch: char, rest: string, current: string)
    ensures LinesOf([ch] + rest, current) ==
      if ch == '\r' then LinesOf(rest, current)
      else if ch == '\n' then [Trim(current)] + LinesOf(rest, "")
      else LinesOf(rest, current + [ch])
  {
    hide Trim;
    assert ([ch] + rest)[1..] == rest;
  }

  lemma LinesOfNothing(current: string)
    ensures LinesOf("", current) == if current != "" then [Trim(current)] else []
    ensures LinesOf("\r\n", current) == [Trim(current)]
  {
    hide Trim;
    LinesOfStep('\r', "\n", current);
    LinesOfStep('\n', "", current);
    assert "\r\n" == ['\r'] + "\n" && "\n" == ['\n'] + "";
  }

  lemma {:induction false} LinesOfLine(line: string, current: string)
    requires '\n' !in line
    ensures LinesOf(line + "\r\n", current) == [Trim(current + RemoveCr(line))]
    ensures LinesOf(line, current) == if current + RemoveCr(line) != "" then [Trim(current + RemoveCr(line))] else []
    decreases |line|
  {
    hide Trim, LinesOf;
    if line == "" {
      LinesOfNothing(current);
      assert line + "\r\n" == "\r\n" && current + "" == current;
    } else {
      var ch, rest := line[0], line[1..];
      var next := if ch == '\r' then current else current + [ch];
      assert line == [ch] + rest && line + "\r\n" == [ch] + (rest + "\r\n");
      LinesOfStep(ch, rest, current);
      LinesOfStep(ch, rest + "\r\n", current);
      LinesOfLine(rest, next);
      assert next + RemoveCr(rest) == current + RemoveCr(line);
    }
  }

  lemma {:induction false} LinesOfParts(first: string, rest: string, current: string)
    ensures LinesOf(first + "\n" + rest, current) == LinesOf(first + "\n", current) + LinesOf(rest, "")
    decreases |first|
  {
    hide Trim, LinesOf;
    if first == "" {
      LinesOfStep('\n', rest, current);
      LinesOfStep('\n', "", current);
      LinesOfNothing("");
      assert first + "\n" + rest == ['\n'] + rest && first + "\n" == ['\n'] + "";
    } else {
      var ch, more := first[0], first[1..];
      assert first + "\n" + rest == [ch] + (more + "\n" + rest) && first + "\n" == [ch] + (more + "\n");
      LinesOfStep(ch, more + "\n" + rest, current);
      LinesOfStep(ch, more + "\n", current);
      LinesOfParts(more, rest, if ch == '\r' then current else if ch == '\n' then "" else current + [ch]);
      if ch == '\n' {
        var x, y := LinesOf(more + "\n", ""), LinesOf(rest, "");
        assert [Trim(current)] + x + y == [Trim(current)] + (x + y);
      }
    }
  }

  predicate OneLiners(lines: seq<string>) {
    forall i :: 0 <= i < |lines| ==> '\n' !in lines[i]
  }

  lemma LinesOfMore(text: string, last: string)
    requires '\n' !in last
    ensures LinesOf(text + "\r\n" + last + "\r\n", "") == LinesOf(text + "\r\n", "") + [ShownLine(last)]
    ensures RemoveCr(last) != "" ==>
      LinesOf(text + "\r\n" + last, "") == LinesOf(text + "\r\n", "") + [ShownLine(last)]
  {
    hide Trim, LinesOf, RemoveCr;
    LinesOfLine(last, "");
    assert "" + RemoveCr(last) == RemoveCr(last);
    LinesOfParts(text + "\r", last + "\r\n", "");
    LinesOfParts(text + "\r", last, "");
    assert text + "\r" + "\n" == text + "\r\n";
    assert text + "\r\n" + last + "\r\n" == text + "\r\n" + (last + "\r\n");
  }

  lemma LinesOfOne(line: string)
    requires '\n' !in line
    ensures LinesOf(line + "\r\n", "") == [ShownLine(line)]
    ensures RemoveCr(line) != "" ==> LinesOf(line, "") == [ShownLine(line)]
  {
    hide Trim, LinesOf, RemoveCr;
    LinesOfLine(line, "");
    assert "" + RemoveCr(line) == RemoveCr(line);
  }

  /** Splitting printed lines gives the lines back, trimmed and without carriage returns. */
  lemma {:induction false} LinesOfPrinted(lines: seq<string>)
    requires lines != [] && lines[0] != "" && OneLiners(lines)
    ensures AppendLines("", lines) != ""
    ensures LinesOf(AppendLines("", lines) + "\r\n", "") == ShownLines(lines)
    ensures RemoveCr(lines[|lines| - 1]) != "" ==> LinesOf(AppendLines("", lines), "") == ShownLines(lines)
    decreases |lines|
  {
    hide ShownLine, LinesOf, RemoveCr;
    var n := |lines| - 1;
    var last := lines[n];
    if n == 0 {
      LinesOfOne(last);
      assert lines[..0] == [];
      assert AppendLines("", lines) == last;
      assert ShownLines(lines) == [ShownLine(last)];
    } else {
      LinesOfPrinted(lines[..n]);
      LinesOfMore(AppendLines("", lines[..n]), last);
      assert ShownLines(lines) == ShownLines(lines[..n]) + [ShownLine(last)];
    }
  }

  // ----- well-formed stores -----

  predicate NoLineBreak(s: string) {
    '\r' !in s && '\n' !in s
  }

  /** Section names and keys as reading produces them. */
  predicate NameOk(s: string) {
    s != "" && Trimmed(s) && NoLineBreak(s)
  }

  predicate KeyOk(key: string) {
    NameOk(key) && '=' !in key
  }

  /** The pair's line is not taken for a comment or a section header. */
  predicate PairOk(p: Pair) {
    && KeyOk(p.key)
    && p.key[0] != ';'
    && (p.key[0] == '[' ==> !EndsWithBracket(ShownLine(PairLine(p))))
  }

  predicate EndsWithBracket(line: string) {
    line != "" && line[|line| - 1] == ']'
  }

  predicate GroupOk(g: Group) {
    NameOk(g.name) && g.pairs != [] && forall i :: 0 <= i < |g.pairs| ==> PairOk(g.pairs[i])
  }

  predicate WellFormed(groups: seq<Group>) {
    forall g :: 0 <= g < |groups| ==> GroupOk(groups[g])
  }

  /** Section names and keys are proper; the lines may still be misread. */
  predicate GroupNamed(g: Group) {
    NameOk(g.name) && g.pairs != [] && forall i :: 0 <= i < |g.pairs| ==> KeyOk(g.pairs[i].key)
  }

  predicate Named(groups: seq<Group>) {
    forall g :: 0 <= g < |groups| ==> GroupNamed(groups[g])
  }

  lemma OkIsNamed(groups: seq<Group>)
    requires WellFormed(groups)
    ensures Named(groups)
  {
    hide NameOk, KeyOk, EndsWithBracket, ShownLine, PairLine;
    forall g | 0 <= g < |groups|
      ensures GroupNamed(groups[g])
    {
      assert GroupOk(groups[g]);
      forall i | 0 <= i < |groups[g].pairs|
        ensures KeyOk(groups[g].pairs[i].key)
      {
        assert PairOk(groups[g].pairs[i]);
      }
    }
  }

  function ReadPairs(pairs: seq<Pair>): (r: seq<Pair>)
    ensures |r| == |pairs|
  {
    seq(|pairs|, i requires 0 <= i < |pairs| => Pair(pairs[i].key, ReadBack(pairs[i].value)))
  }

  function ReadGroups(groups: seq<Group>): (r: seq<Group>)
    ensures |r| == |groups|
  {
    seq(|groups|, g requires 0 <= g < |groups| => Group(groups[g].name, ReadPairs(groups[g].pairs)))
  }

  // ----- reading one line -----

  lemma ShownPairLine(p: Pair)
    requires KeyOk(p.key)
    ensures ShownLine(PairLine(p)) == p.key + "=" + TrimRight(RemoveCr(EscapeValue(p.value)))
  {
    hide EscapeValue, TrimRight, TrimLeft;
    var v := EscapeValue(p.value);
    RemoveCrParts(p.key + "=", v);
    RemoveCrParts(p.key, "=");
    RemoveCrKeeps(p.key);
    RemoveCrKeeps("=");
    var head := p.key + "=";
    StartKept(head + RemoveCr(v));
    TrimRightTail(head, RemoveCr(v));
  }

  lemma StartKept(s: string)
    requires s != "" && s[0] != ' '
    ensures TrimLeft(s) == s
  {
  }

  lemma {:induction false} TrimRightTail(head: string, s: string)
    requires head != "" && head[|head| - 1] != ' '
    ensures TrimRight(head + s) == head + TrimRight(s)
    decreases |s|
  {
    if s == "" {
      assert head + s == head;
    } else if s[|s| - 1] == ' ' {
      assert (head + s)[..|head| + |s| - 1] == head + s[..|s| - 1];
      TrimRightTail(head, s[..|s| - 1]);
    }
  }

  /** Trimming the right end first changes nothing. */
  lemma {:induction false} TrimAfterTrimRight(s: string)
    ensures Trim(TrimRight(s)) == Trim(s)
    decreases |s|
  {
    if s != "" && s[|s| - 1] == ' ' {
      var front := s[..|s| - 1];
      TrimAfterTrimRight(front);
      TrimDropsLastSpace(front);
      assert s == front + " ";
    }
  }

  lemma {:induction false} TrimDropsLastSpace(s: string)
    ensures Trim(s + " ") == Trim(s)
    decreases |s|
  {
    if s == "" {
      assert s + " " == " " && " "[1..] == "";
    } else if s[0] == ' ' {
      assert (s + " ")[1..] == s[1..] + " ";
      TrimDropsLastSpace(s[1..]);
    } else {
      assert (s + " ")[..|s|] == s;
    }
  }

  /** The right-hand side of a pair's line reads back as the value. */
  lemma ReadValue(value: string)
    ensures var v := Trim(TrimRight(RemoveCr(EscapeValue(value))));
      ReadBack(value) == if v != "" && v[0] == '"' && v[|v| - 1] == '"' then UnescapeValue(v) else v
  {
    hide TrimLeft, TrimRight, RemoveCr, Unescape, EscapeChars;
    TrimAfterTrimRight(RemoveCr(EscapeValue(value)));
    RemoveCrKeeps(EscapeValue(value));
    if NeedsEscaping(value) {
      EscapingRoundTrip(value);
      TrimKeeps(EscapeValue(value));
    } else {
      TrimSubset(RemoveCr(value));
      RemoveCrKeeps(value);
      assert value == "" || '"' !in value;
      var v := Trim(RemoveCr(value));
      assert v != "" ==> v[0] in v;
    }
  }

  lemma {:induction false} IndexBehindKey(key: string, rest: string)
    requires '=' !in key
    ensures IndexOf(key + "=" + rest, '=') == |key|
  {
    if key != "" {
      assert (key + "=" + rest)[1..] == key[1..] + "=" + rest;
      IndexBehindKey(key[1..], rest);
    }
  }

  lemma ReadPairLine(p: Pair)
    requires PairOk(p)
    ensures GetLineType(ShownLine(PairLine(p))) == KeyValue
    ensures ParseKeyValueLine(ShownLine(PairLine(p))) == (p.key, ReadBack(p.value))
  {
    hide TrimLeft, TrimRight, RemoveCr, EscapeValue, UnescapeValue, ReadBack, ShownLine;
    ShownPairLine(p);
    var rest := TrimRight(RemoveCr(EscapeValue(p.value)));
    var line := p.key + "=" + rest;
    assert line[|p.key|] == '=';
    IndexBehindKey(p.key, rest);
    assert line[..|p.key|] == p.key && line[|p.key| + 1..] == rest;
    TrimKeeps(p.key);
    ReadValue(p.value);
  }

  lemma ReadHeaderLine(name: string)
    requires NameOk(name)
    ensures var line := ShownLine("[" + name + "]");
      GetLineType(line) == Section && Trim(line[1..|line| - 1]) == name
  {
    hide TrimLeft, TrimRight, RemoveCr;
    var line := "[" + name + "]";
    RemoveCrKeeps(line);
    TrimKeeps(line);
    TrimKeeps(name);
    assert line[1..|line| - 1] == name;
  }

  // ----- reading whole files -----

  function PutAll(store: Store, section: string, pairs: seq<Pair>): Store {
    if pairs == [] then store
    else
      var n := |pairs| - 1;
      Put(PutAll(store, section, pairs[..n]), section, pairs[n].key, pairs[n].value)
  }

  lemma {:induction false} PutAllIsOneSection(store: Store, section: string, pairs: seq<Pair>)
    requires section !in store && pairs != []
    ensures PutAll(store, section, pairs) == store[section := PairsOf(pairs)]
  {
    var n := |pairs| - 1;
    if n > 0 {
      PutAllIsOneSection(store, section, pairs[..n]);
    } else {
      assert pairs[..0] == [];
    }
  }

  lemma ParseLine(line: string, rest: seq<string>, section: string, store: Store, errorLine: nat)
    ensures ParseLines([line] + rest, section, store, errorLine) ==
      match GetLineType(line)
      case Invalid => Parsed(false, store, errorLine + 1)
      case Comment | Empty => ParseLines(rest, section, store, errorLine + 1)
      case KeyValue =>
        var (key, value) := ParseKeyValueLine(line);
        if section == "" || Trim(section) == "" || Trim(key) == "" then Parsed(false, store, errorLine + 1)
        else ParseLines(rest, section, SetValueIn(store, section, key, value), errorLine + 1)
      case Section =>
        var name := Trim(line[1..|line| - 1]);
        if name == "" then Parsed(false, store, errorLine + 1) else ParseLines(rest, name, store, errorLine + 1)
  {
    hide GetLineType, ParseKeyValueLine, Trim;
    assert ([line] + rest)[1..] == rest;
  }

  lemma {:induction false} ParsePairs(pairs: seq<Pair>, rest: seq<string>, section: string, store: Store, errorLine: nat)
    requires NameOk(section) && forall i :: 0 <= i < |pairs| ==> PairOk(pairs[i])
    ensures ParseLines(ShownLines(PairLines(pairs)) + rest, section, store, errorLine)
         == ParseLines(rest, section, PutAll(store, section, ReadPairs(pairs)), errorLine + |pairs|)
    decreases |pairs|
  {
    hide ParseLines, ShownLine, ShownLines, PairLines, PairOk, NameOk, ReadBack, Trim, GetLineType, ParseKeyValueLine, PairLine;
    if pairs == [] {
      ShownPairs(pairs);
      assert ShownLines(PairLines(pairs)) + rest == rest;
    } else {
      var n := |pairs| - 1;
      var p := pairs[n];
      var line := ShownLine(PairLine(p));
      assert p.key != "" && Trim(section) == section && section != "" && Trim(p.key) == p.key by { PlainNames(section, p); }
      var front := ShownLines(PairLines(pairs[..n]));
      ShownPairs(pairs);
      assert ShownLines(PairLines(pairs)) + rest == front + ([line] + rest);
      ParsePairs(pairs[..n], [line] + rest, section, store, errorLine);
      ReadPairLine(p);
      ParseLine(line, rest, section, PutAll(store, section, ReadPairs(pairs[..n])), errorLine + n);
      assert ReadPairs(pairs)[..n] == ReadPairs(pairs[..n]);
    }
  }

  lemma ShownPairs(pairs: seq<Pair>)
    ensures pairs == [] ==> ShownLines(PairLines(pairs)) == []
    ensures
      var n := |pairs| - 1;
      pairs != [] && pairs[n].key != "" ==>
        ShownLines(PairLines(pairs)) == ShownLines(PairLines(pairs[..n])) + [ShownLine(PairLine(pairs[n]))]
  {
    hide ShownLine, PairLine;
  }

  lemma PlainNames(section: string, p: Pair)
    requires NameOk(section) && PairOk(p)
    ensures p.key != "" && section != "" && Trim(section) == section && Trim(p.key) == p.key
  {
    TrimKeeps(section);
    TrimKeeps(p.key);
  }

  lemma ParseGroup(g: Group, rest: seq<string>, section: string, store: Store, errorLine: nat)
    requires GroupOk(g) && g.name !in store
    ensures ParseLines(ShownLines(GroupLines(g)) + rest, section, store, errorLine)
         == ParseLines(rest, g.name, store[g.name := PairsOf(ReadPairs(g.pairs))], errorLine + 1 + |g.pairs|)
  {
    hide ParseLines, ShownLine, PairOk, NameOk, ReadBack, Trim, PairLines, PairsOf;
    var header := ShownLine("[" + g.name + "]");
    var body := ShownLines(PairLines(g.pairs)) + rest;
    assert ShownLines(GroupLines(g)) + rest == [header] + body;
    ReadHeaderLine(g.name);
    ParseLine(header, body, section, store, errorLine);
    assert g.name != "" by { NameNotEmpty(g.name); }
    ParsePairs(g.pairs, rest, g.name, store, errorLine + 1);
    PutAllIsOneSection(store, g.name, ReadPairs(g.pairs));
  }

  lemma NameNotEmpty(name: string)
    requires NameOk(name)
    ensures name != ""
  {
  }

  lemma {:induction false} NamesOfRead(groups: seq<Group>, name: string)
    ensures name in StoreOf(ReadGroups(groups)) <==> HasName(groups, name)
  {
    NamesOfGroups(ReadGroups(groups), name);
    if HasName(groups, name) {
      var g :| 0 <= g < |groups| && groups[g].name == name;
      assert ReadGroups(groups)[g].name == name;
    }
  }

  function Separator(n: nat): seq<string> {
    if n > 0 then [""] else []
  }

  lemma ShownFile(groups: seq<Group>)
    requires groups != []
    ensures var n := |groups| - 1;
      && ShownLines(FileLines(groups))
         == ShownLines(FileLines(groups[..n])) + Separator(n) + ShownLines(GroupLines(groups[n]))
      && |FileLines(groups)| == |FileLines(groups[..n])| + |Separator(n)| + |GroupLines(groups[n])|
  {
    hide ShownLines, GroupLines;
    var n := |groups| - 1;
    var front := FileLines(groups[..n]);
    assert FileLines(groups) == front + Separator(n) + GroupLines(groups[n]);
    ShownParts(front + Separator(n), GroupLines(groups[n]));
    ShownParts(front, Separator(n));
    ShownSeparator(n);
  }

  lemma ShownParts(a: seq<string>, b: seq<string>)
    ensures ShownLines(a + b) == ShownLines(a) + ShownLines(b)
  {
    hide ShownLine;
  }

  lemma ShownSeparator(n: nat)
    ensures ShownLines(Separator(n)) == Separator(n)
  {
    EmptyShown();
  }

  /** The empty line between two sections is skipped. */
  lemma ParseSeparator(n: nat, rest: seq<string>, section: string, store: Store, errorLine: nat)
    ensures ParseLines(Separator(n) + rest, section, store, errorLine)
         == ParseLines(rest, section, store, errorLine + |Separator(n)|)
  {
    hide ParseLines, Trim, ParseKeyValueLine;
    if n > 0 {
      ParseLine("", rest, section, store, errorLine);
    } else {
      assert Separator(n) + rest == rest;
    }
  }

  lemma {:induction false} ParseGroups(groups: seq<Group>, rest: seq<string>)
    requires WellFormed(groups) && DistinctNames(groups)
    ensures ParseLines(ShownLines(FileLines(groups)) + rest, "", map[], 0)
         == ParseLines(rest, LastName(groups), StoreOf(ReadGroups(groups)), |FileLines(groups)|)
    decreases |groups|
  {
    hide ParseLines, ShownLines, GroupOk, ReadPairs, GroupLines, PairsOf, Separator;
    if groups == [] {
      assert ShownLines(FileLines(groups)) + rest == rest;
    } else {
      hide FileLines;
      var n := |groups| - 1;
      var g, front := groups[n], groups[..n];
      var body := ShownLines(GroupLines(g)) + rest;
      ShownFile(groups);
      assert ShownLines(FileLines(groups)) + rest == ShownLines(FileLines(front)) + (Separator(n) + body);
      ParseGroups(front, Separator(n) + body);
      var store, count := StoreOf(ReadGroups(front)), |FileLines(front)|;
      ParseSeparator(n, body, LastName(front), store, count);
      NamesOfRead(front, g.name);
      ParseGroup(g, rest, LastName(front), store, count + |Separator(n)|);
      GroupLineCount(g);
      assert ReadGroups(groups)[..n] == ReadGroups(front);
    }
  }

  lemma EmptyShown()
    ensures ShownLine("") == ""
  {
  }

  function LastName(groups: seq<Group>): string {
    if groups == [] then "" else groups[|groups| - 1].name
  }

  predicate DistinctNames(groups: seq<Group>) {
    forall i, j :: 0 <= i < j < |groups| ==> groups[i].name != groups[j].name
  }

  lemma GroupLineCount(g: Group)
    requires GroupOk(g)
    ensures |GroupLines(g)| == 1 + |g.pairs|
  {
    PairLineCount(g.pairs);
  }

  lemma {:induction false} PairLineCount(pairs: seq<Pair>)
    requires forall i :: 0 <= i < |pairs| ==> pairs[i].key != ""
    ensures |PairLines(pairs)| == |pairs|
    ensures forall i :: 0 <= i < |pairs| ==> PairLines(pairs)[i] == PairLine(pairs[i])
  {
    hide EscapeValue;
    if pairs != [] {
      PairLineCount(pairs[..|pairs| - 1]);
    }
  }

  // ----- the round trip -----

  lemma PairLineIsOneLine(p: Pair)
    requires KeyOk(p.key)
    ensures '\n' !in PairLine(p) && RemoveCr(PairLine(p)) != ""
  {
    hide EscapeValue, RemoveCr;
    EscapedIsOneLine(p.value);
    RemoveCrParts(p.key, "=" + EscapeValue(p.value));
    RemoveCrKeeps(p.key);
    assert PairLine(p) == p.key + ("=" + EscapeValue(p.value));
  }

  lemma EscapedIsOneLine(value: string)
    ensures '\n' !in EscapeValue(value)
  {
    hide EscapeChars;
    if NeedsEscaping(value) {
      EscapingRoundTrip(value);
    }
  }

  lemma GroupIsPrinted(g: Group)
    requires GroupNamed(g)
    ensures var lines := GroupLines(g);
      |lines| > 1 && lines[0] != "" && OneLiners(lines) && RemoveCr(lines[|lines| - 1]) != ""
  {
    hide RemoveCr, PairLine, PairLines, KeyOk, NameOk;
    forall i | 0 <= i < |g.pairs|
      ensures g.pairs[i].key != ""
    {
      KeyNotEmpty(g.pairs[i].key);
    }
    PairLineCount(g.pairs);
    HeaderIsOneLine(g.name);
    forall i | 0 <= i < |g.pairs|
      ensures '\n' !in PairLines(g.pairs)[i] && RemoveCr(PairLines(g.pairs)[i]) != ""
    {
      PairLineIsOneLine(g.pairs[i]);
    }
  }

  lemma KeyNotEmpty(key: string)
    requires KeyOk(key)
    ensures key != ""
  {
  }

  lemma HeaderIsOneLine(section: string)
    requires NameOk(section)
    ensures '\n' !in "[" + section + "]"
  {
  }

  lemma {:induction false} FileIsPrinted(groups: seq<Group>)
    requires Named(groups) && groups != []
    ensures var lines := FileLines(groups);
      && lines != [] && lines[0] != "" && OneLiners(lines) && RemoveCr(lines[|lines| - 1]) != ""
    decreases |groups|
  {
    hide RemoveCr, GroupLines, GroupNamed;
    var n := |groups| - 1;
    GroupIsPrinted(groups[n]);
    if n > 0 {
      FileIsPrinted(groups[..n]);
    }
  }

  /** Reading a printed store back, in whatever order it was printed: parsing always succeeds and
      returns every section and key with its value as `ReadBack` gives it. */
  lemma ParsePrinted(groups: seq<Group>)
    requires WellFormed(groups) && DistinctNames(groups)
    ensures Parse(Text(groups)) == Parsed(true, StoreOf(ReadGroups(groups)), |FileLines(groups)|)
  {
    hide ParseLines, FileLines, LinesOf, WellFormed, StoreOf;
    var lines := FileLines(groups);
    ParseGroups(groups, []);
    assert ShownLines(lines) + [] == ShownLines(lines);
    NothingLeft(LastName(groups), StoreOf(ReadGroups(groups)), |lines|);
    OkIsNamed(groups);
    LinesOfFile(groups);
  }

  lemma LinesOfFile(groups: seq<Group>)
    requires Named(groups)
    ensures LinesOf(Text(groups), "") == ShownLines(FileLines(groups))
  {
    hide FileLines, LinesOf, Named;
    if groups == [] {
      NothingPrinted();
      NoLines();
    } else {
      FileIsPrinted(groups);
      LinesOfPrinted(FileLines(groups));
    }
  }

  lemma NothingLeft(section: string, store: Store, errorLine: nat)
    ensures ParseLines([], section, store, errorLine) == Parsed(true, store, errorLine)
  {
  }

  lemma NoLines()
    ensures LinesOf("", "") == [] && FileLines([]) == []
  {
  }

  predicate ValueOk(value: string) {
    NeedsEscaping(value) || '\r' !in value
  }

  predicate ValuesOk(groups: seq<Group>) {
    forall g, i :: 0 <= g < |groups| && 0 <= i < |groups[g].pairs| ==> ValueOk(groups[g].pairs[i].value)
  }

  lemma {:induction false} PairAt(pairs: seq<Pair>, i: nat)
    requires DistinctKeys(pairs) && i < |pairs|
    ensures pairs[i].key in PairsOf(pairs) && PairsOf(pairs)[pairs[i].key] == pairs[i].value
  {
    var n := |pairs| - 1;
    if i < n {
      PairAt(pairs[..n], i);
    }
  }

  lemma {:induction false} GroupAt(groups: seq<Group>, g: nat)
    requires DistinctNames(groups) && g < |groups|
    ensures groups[g].name in StoreOf(groups) && StoreOf(groups)[groups[g].name] == PairsOf(groups[g].pairs)
  {
    var n := |groups| - 1;
    if g < n {
      GroupAt(groups[..n], g);
    }
  }

  /** A store whose pair lines are all read as pairs comes back unchanged if and only if no value that
      is printed without quotes contains a carriage return. */
  lemma ValuesDecide(groups: seq<Group>, store: Store)
    requires Lists(groups, store) && WellFormed(groups)
    ensures Parse(Text(groups)).ok
    ensures Parse(Text(groups)).store == store <==> ValuesOk(groups)
  {
    hide Parse, Text, ReadBack, PairsOf, StoreOf, NeedsEscaping, WellFormed;
    ParsePrinted(groups);
    if ValuesOk(groups) {
      assert ReadGroups(groups) == groups by {
        forall g | 0 <= g < |groups|
          ensures ReadGroups(groups)[g] == groups[g]
        {
          forall i | 0 <= i < |groups[g].pairs|
            ensures ReadPairs(groups[g].pairs)[i] == groups[g].pairs[i]
          {
            ReadBackIsExact(groups[g].pairs[i].value);
          }
          assert ReadPairs(groups[g].pairs) == groups[g].pairs;
        }
      }
    } else {
      var g, i :| 0 <= g < |groups| && 0 <= i < |groups[g].pairs| && !ValueOk(groups[g].pairs[i].value);
      ReadBackIsExact(groups[g].pairs[i].value);
      GroupAt(groups, g);
      GroupAt(ReadGroups(groups), g);
      PairAt(groups[g].pairs, i);
      PairAt(ReadPairs(groups[g].pairs), i);
    }
  }

  // ----- what reading can produce at all -----

  predicate WellNamed(store: Store) {
    forall s :: s in store ==> NameOk(s) && forall k :: k in store[s] ==> KeyOk(k) && k[0] != ';'
  }

  predicate CleanLine(line: string) {
    Trimmed(line) && NoLineBreak(line)
  }

  lemma TrimIsClean(s: string)
    requires NoLineBreak(s)
    ensures CleanLine(Trim(s))
  {
    TrimSubset(s);
    var t := TrimLeft(s);
    var r := TrimRight(t);
    assert r != "" ==> r[0] == t[0];
  }

  lemma {:induction false} LinesAreClean(data: string, current: string)
    requires NoLineBreak(current)
    ensures forall i :: 0 <= i < |LinesOf(data, current)| ==> CleanLine(LinesOf(data, current)[i])
    decreases |data|
  {
    hide Trim;
    TrimIsClean(current);
    if data != "" {
      if data[0] == '\r' {
        LinesAreClean(data[1..], current);
      } else if data[0] == '\n' {
        LinesAreClean(data[1..], "");
      } else {
        LinesAreClean(data[1..], current + [data[0]]);
      }
    }
  }

  lemma KeyIsClean(line: string)
    requires CleanLine(line) && GetLineType(line) == KeyValue
    ensures var key := ParseKeyValueLine(line).0;
      key != "" ==> KeyOk(key) && key[0] != ';' && Trim(key) == key
  {
    hide TrimLeft, TrimRight;
    var pos := IndexOf(line, '=');
    var s := line[..pos];
    var key := Trim(s);
    TrimSubset(s);
    TrimIsClean(s);
    TrimKeeps(key);
    assert forall ch :: ch in s ==> ch in line;
    if key != "" {
      assert s != "" by { if s == "" { TrimKeeps(""); } }
      assert s[0] == line[0] != ' ';
      StartKept(s);
      assert key[0] == s[0] by { TrimRightStart(s); }
    }
  }

  lemma TrimRightStart(s: string)
    requires TrimRight(s) != ""
    ensures s != "" && TrimRight(s)[0] == s[0]
  {
  }

  lemma SectionIsClean(line: string)
    requires CleanLine(line) && GetLineType(line) == Section
    ensures var name := Trim(line[1..|line| - 1]);
      name != "" ==> NameOk(name) && Trim(name) == name
  {
    hide TrimLeft, TrimRight;
    var s := line[1..|line| - 1];
    TrimIsClean(s);
    TrimKeeps(Trim(s));
  }

  lemma {:induction false} ParsedIsWellNamed(lines: seq<string>, section: string, store: Store, errorLine: nat)
    requires forall i :: 0 <= i < |lines| ==> CleanLine(lines[i])
    requires WellNamed(store) && (section != "" ==> NameOk(section) && Trim(section) == section)
    ensures WellNamed(ParseLines(lines, section, store, errorLine).store)
    decreases |lines|
  {
    hide GetLineType, ParseKeyValueLine, Trim, CleanLine, NameOk, KeyOk;
    if lines != [] {
      var line := lines[0];
      match GetLineType(line)
      case Invalid =>
      case Comment | Empty => ParsedIsWellNamed(lines[1..], section, store, errorLine + 1);
      case KeyValue =>
        TypeOfLine(line);
        KeyIsClean(line);
        var (key, value) := ParseKeyValueLine(line);
        if section != "" && Trim(section) != "" && Trim(key) != "" {
          assert key != "" by { TrimOfEmpty(key); }
          ParsedIsWellNamed(lines[1..], section, SetValueIn(store, section, key, value), errorLine + 1);
        }
      case Section =>
        TypeOfLine(line);
        SectionIsClean(line);
        var name := Trim(line[1..|line| - 1]);
        if name != "" {
          ParsedIsWellNamed(lines[1..], name, store, errorLine + 1);
        }
    }
  }

  lemma TrimOfEmpty(s: string)
    ensures s == "" ==> Trim(s) == ""
  {
  }

  /** The naming conditions are necessary: no file whatsoever reads into a store with a section or
      key that is empty, padded with spaces or broken over lines, or a key that contains `=` or starts
      like a comment. */
  lemma ReadingIsWellNamed(data: string)
    ensures WellNamed(Parse(data).store)
  {
    hide LinesOf, ParseLines, NameOk, KeyOk;
    LinesAreClean(data, "");
    ParsedIsWellNamed(LinesOf(data, ""), "", map[], 0);
  }

  // ----- exactly which stores survive -----

  lemma PairLineType(p: Pair)
    requires KeyOk(p.key)
    ensures GetLineType(ShownLine(PairLine(p))) == KeyValue <==> PairOk(p)
  {
    hide ShownLine, PairLine, EscapeValue, TrimRight, RemoveCr;
    ShownPairLine(p);
    var line := ShownLine(PairLine(p));
    assert line[|p.key|] == '=' && line[0] == p.key[0];
  }

  function KeyValueLines(lines: seq<string>): nat {
    if lines == [] then 0
    else (if GetLineType(lines[0]) == KeyValue then 1 else 0) + KeyValueLines(lines[1..])
  }

  lemma {:induction false} KeyValueLinesOfParts(a: seq<string>, b: seq<string>)
    ensures KeyValueLines(a + b) == KeyValueLines(a) + KeyValueLines(b)
  {
    hide GetLineType;
    if a == [] {
      assert a + b == b;
    } else {
      assert (a + b)[1..] == a[1..] + b;
      KeyValueLinesOfParts(a[1..], b);
    }
  }

  predicate AllOk(pairs: seq<Pair>) {
    forall i :: 0 <= i < |pairs| ==> PairOk(pairs[i])
  }

  /** A misread pair leaves one line less that can store anything. */
  lemma {:induction false} CountPairLines(pairs: seq<Pair>)
    requires forall i :: 0 <= i < |pairs| ==> KeyOk(pairs[i].key)
    ensures var n := KeyValueLines(ShownLines(PairLines(pairs)));
      n <= |pairs| && (n == |pairs| ==> AllOk(pairs))
  {
    hide GetLineType, ShownLine, PairLine, KeyOk, PairOk;
    if pairs != [] {
      var n := |pairs| - 1;
      var line := ShownLine(PairLine(pairs[n]));
      KeyNotEmpty(pairs[n].key);
      CountPairLines(pairs[..n]);
      ShownPairs(pairs);
      KeyValueLinesOfParts(ShownLines(PairLines(pairs[..n])), [line]);
      PairLineType(pairs[n]);
      if AllOk(pairs[..n]) && PairOk(pairs[n]) {
        assert forall i :: 0 <= i < n ==> pairs[i] == pairs[..n][i];
      }
    }
  }

  function PairCount(groups: seq<Group>): nat {
    if groups == [] then 0 else PairCount(groups[..|groups| - 1]) + |groups[|groups| - 1].pairs|
  }

  lemma CountGroupLines(g: Group)
    requires GroupNamed(g)
    ensures var n := KeyValueLines(ShownLines(GroupLines(g)));
      n <= |g.pairs| && (n == |g.pairs| ==> GroupOk(g))
  {
    hide GetLineType, ShownLine, PairLines, KeyOk, NameOk, PairOk;
    var header := ShownLine("[" + g.name + "]");
    assert ShownLines(GroupLines(g)) == [header] + ShownLines(PairLines(g.pairs));
    KeyValueLinesOfParts([header], ShownLines(PairLines(g.pairs)));
    ReadHeaderLine(g.name);
    CountPairLines(g.pairs);
  }

  lemma {:induction false} CountFileLines(groups: seq<Group>)
    requires Named(groups)
    ensures var n := KeyValueLines(ShownLines(FileLines(groups)));
      n <= PairCount(groups) && (n == PairCount(groups) ==> WellFormed(groups))
  {
    hide ShownLines, GroupLines, GroupNamed, GroupOk;
    if groups == [] {
      assert ShownLines(FileLines(groups)) == [];
    } else {
      hide FileLines, KeyValueLines;
      var n := |groups| - 1;
      var front, g := groups[..n], groups[n];
      var before, lines := ShownLines(FileLines(front)), ShownLines(GroupLines(g));
      CountFileLines(front);
      CountGroupLines(g);
      ShownFile(groups);
      KeyValueLinesOfParts(before + Separator(n), lines);
      KeyValueLinesOfParts(before, Separator(n));
      NoPairSeparates(n);
      if WellFormed(front) && GroupOk(g) {
        assert forall i :: 0 <= i < n ==> groups[i] == front[i];
      }
    }
  }

  lemma NoPairSeparates(n: nat)
    ensures KeyValueLines(Separator(n)) == 0
  {
  }

  /** The sections and keys of a store. */
  function Entries(store: Store): set<(string, string)> {
    set s, k | s in store && k in store[s] :: (s, k)
  }

  lemma EntriesOfPut(store: Store, section: string, key: string, value: string)
    ensures Entries(Put(store, section, key, value)) == Entries(store) + {(section, key)}
  {
    var after := Put(store, section, key, value);
    forall e | e in Entries(store) + {(section, key)}
      ensures e in Entries(after)
    {
      assert e.0 in after && e.1 in after[e.0];
    }
  }

  /** Each line between a key and a value stores at most one entry, and no other line stores any. */
  lemma {:induction false} LinesStoreEntries(lines: seq<string>, section: string, store: Store, errorLine: nat)
    ensures |Entries(ParseLines(lines, section, store, errorLine).store)| <= |Entries(store)| + KeyValueLines(lines)
    decreases |lines|
  {
    hide GetLineType, ParseKeyValueLine, Trim, Put, Entries;
    if lines != [] {
      var line := lines[0];
      match GetLineType(line)
      case Invalid =>
      case Comment | Empty => LinesStoreEntries(lines[1..], section, store, errorLine + 1);
      case KeyValue =>
        TypeOfLine(line);
        var (key, value) := ParseKeyValueLine(line);
        EntriesOfPut(store, Trim(section), Trim(key), value);
        LinesStoreEntries(lines[1..], section, SetValueIn(store, section, key, value), errorLine + 1);
      case Section =>
        TypeOfLine(line);
        LinesStoreEntries(lines[1..], Trim(line[1..|line| - 1]), store, errorLine + 1);
    }
  }

  lemma {:induction false} EntriesOfPairs(store: Store, section: string, pairs: seq<Pair>)
    requires section !in store && DistinctKeys(pairs)
    ensures |Entries(PutAll(store, section, pairs))| == |Entries(store)| + |pairs|
  {
    hide Put, Entries;
    if pairs != [] {
      var n := |pairs| - 1;
      var before := PutAll(store, section, pairs[..n]);
      EntriesOfPairs(store, section, pairs[..n]);
      EntriesOfPut(before, section, pairs[n].key, pairs[n].value);
      NewEntry(store, section, pairs);
    }
  }

  lemma NewEntry(store: Store, section: string, pairs: seq<Pair>)
    requires section !in store && DistinctKeys(pairs) && pairs != []
    ensures (section, pairs[|pairs| - 1].key) !in Entries(PutAll(store, section, pairs[..|pairs| - 1]))
  {
    hide PairsOf, PutAll;
    var n := |pairs| - 1;
    var front := pairs[..n];
    if front == [] {
      NothingPut(store, section);
    } else {
      PutAllIsOneSection(store, section, front);
      KeysOfPairs(front, pairs[n].key);
    }
  }

  lemma NothingPut(store: Store, section: string)
    ensures PutAll(store, section, []) == store
  {
  }

  lemma {:induction false} EntriesOfGroups(groups: seq<Group>)
    requires Lists(groups, StoreOf(groups))
    ensures |Entries(StoreOf(groups))| == PairCount(groups)
  {
    hide Entries, PairsOf, DistinctKeys;
    if groups == [] {
      NoEntries();
    } else {
      var n := |groups| - 1;
      var front, g := groups[..n], groups[n];
      EntriesOfGroups(front);
      NamesOfGroups(front, g.name);
      PutAllIsOneSection(StoreOf(front), g.name, g.pairs);
      EntriesOfPairs(StoreOf(front), g.name, g.pairs);
    }
  }

  lemma NoEntries()
    ensures Entries(map[]) == {}
  {
  }

  /** If nothing is lost in a named store, every pair line was read as a pair. */
  lemma NothingMisread(groups: seq<Group>, store: Store)
    requires Lists(groups, store) && Named(groups)
    requires Parse(Text(groups)).store == store
    ensures WellFormed(groups)
  {
    hide LinesOf, ParseLines, Text, FileLines, WellFormed, Named, Entries, StoreOf, PairCount;
    LinesOfFile(groups);
    LinesStoreEntries(ShownLines(FileLines(groups)), "", map[], 0);
    NoEntries();
    CountFileLines(groups);
    EntriesOfGroups(groups);
  }

  lemma NamesFromStore(groups: seq<Group>, store: Store)
    requires Lists(groups, store) && WellNamed(store)
    ensures Named(groups)
  {
    hide PairsOf, StoreOf, NameOk, KeyOk;
    forall g | 0 <= g < |groups|
      ensures GroupNamed(groups[g])
    {
      GroupAt(groups, g);
      forall i | 0 <= i < |groups[g].pairs|
        ensures KeyOk(groups[g].pairs[i].key)
      {
        PairAt(groups[g].pairs, i);
      }
    }
  }

  /** The key is proper and does not start like a comment, and a value without quotes has no carriage
      return and does not end a line that starts like a section header. */
  predicate EntryOk(key: string, value: string) {
    && KeyOk(key)
    && key[0] != ';'
    && (NeedsEscaping(value) || ('\r' !in value && !(key[0] == '[' && EndsWithBracket(value))))
  }

  predicate AllEntriesOk(entries: map<string, string>) {
    forall k :: k in entries ==> EntryOk(k, entries[k])
  }

  predicate Survives(store: Store) {
    forall s :: s in store ==> NameOk(s) && AllEntriesOk(store[s])
  }

  lemma EntryOkIff(p: Pair)
    requires KeyOk(p.key)
    ensures EntryOk(p.key, p.value) <==> PairOk(p) && ValueOk(p.value)
  {
    hide RemoveCr, TrimRight, TrimLeft, PairLine, ShownLine, EscapeChars;
    ShownPairLine(p);
    var v := EscapeValue(p.value);
    RemoveCrKeeps(v);
    if NeedsEscaping(p.value) {
      EscapingRoundTrip(p.value);
      TrimKeeps(v);
    } else if '\r' !in p.value {
      TrimKeeps(v);
    }
  }

  predicate AllSurvive(pairs: seq<Pair>) {
    forall i :: 0 <= i < |pairs| ==> PairOk(pairs[i]) && ValueOk(pairs[i].value)
  }

  lemma EntriesArePairs(pairs: seq<Pair>)
    requires DistinctKeys(pairs)
    ensures AllEntriesOk(PairsOf(pairs)) <==> AllSurvive(pairs)
  {
    hide PairsOf, PairOk, ValueOk, EntryOk, DistinctKeys;
    if AllEntriesOk(PairsOf(pairs)) {
      forall i | 0 <= i < |pairs|
        ensures PairOk(pairs[i]) && ValueOk(pairs[i].value)
      {
        PairAt(pairs, i);
        KeyOfEntry(pairs[i].key, pairs[i].value);
        EntryOkIff(pairs[i]);
      }
    }
    if AllSurvive(pairs) {
      forall k | k in PairsOf(pairs)
        ensures EntryOk(k, PairsOf(pairs)[k])
      {
        KeysOfPairs(pairs, k);
        var i :| 0 <= i < |pairs| && pairs[i].key == k;
        PairAt(pairs, i);
        KeyOfPair(pairs[i]);
        EntryOkIff(pairs[i]);
      }
    }
  }

  lemma KeyOfEntry(key: string, value: string)
    requires EntryOk(key, value)
    ensures KeyOk(key)
  {
  }

  lemma KeyOfPair(p: Pair)
    requires PairOk(p)
    ensures KeyOk(p.key)
  {
  }

  lemma SurvivesIff(groups: seq<Group>, store: Store)
    requires Lists(groups, store)
    ensures Survives(store) <==> WellFormed(groups) && ValuesOk(groups)
  {
    hide PairsOf, StoreOf, NameOk, EntryOk, PairOk, ValueOk, DistinctKeys;
    forall g | 0 <= g < |groups|
      ensures groups[g].name in store && store[groups[g].name] == PairsOf(groups[g].pairs)
      ensures AllEntriesOk(PairsOf(groups[g].pairs)) <==> AllSurvive(groups[g].pairs)
    {
      GroupAt(groups, g);
      EntriesArePairs(groups[g].pairs);
    }
    if Survives(store) {
      forall g | 0 <= g < |groups|
        ensures GroupOk(groups[g]) && AllSurvive(groups[g].pairs)
      {
        assert AllEntriesOk(store[groups[g].name]);
      }
    }
    if WellFormed(groups) && ValuesOk(groups) {
      forall s | s in store
        ensures NameOk(s) && AllEntriesOk(store[s])
      {
        NamesOfGroups(groups, s);
        var g :| 0 <= g < |groups| && groups[g].name == s;
        assert GroupOk(groups[g]) && AllSurvive(groups[g].pairs);
      }
    }
  }

  /** Exactly which stores survive, in whatever order they are printed. */
  lemma RoundTripIff(groups: seq<Group>, store: Store)
    requires Lists(groups, store)
    ensures Parse(Text(groups)).ok && Parse(Text(groups)).store == store <==> Survives(store)
  {
    hide Parse, Text, Lists, WellFormed, ValuesOk, Survives, Named, WellNamed;
    SurvivesIff(groups, store);
    if WellFormed(groups) {
      ValuesDecide(groups, store);
    } else if Parse(Text(groups)).store == store {
      ReadingIsWellNamed(Text(groups));
      NamesFromStore(groups, store);
      NothingMisread(groups, store);
    }
  }
}
