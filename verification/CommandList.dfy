/** The command table: a singly linked list whose first node is never released, and the
    proof that it behaves as a plain sequence of commands. */
module CommandList {
  import opened Options
  import opened Strings

  datatype Entry = Entry(names: seq<string>, callback: nat, debugonly: bool)

  // ----- names -----

  /** Names are compared without regard to case. */
  predicate Contains(names: seq<string>, name: string) {
    exists i :: 0 <= i < |names| && Lower(names[i]) == Lower(name)
  }

  function NonEmpty(item: string): seq<string> {
    if item != "" then [item] else []
  }

  /** The nonempty parts between commas. */
  function SplitCommas(s: string, item: string): seq<string>
    decreases |s|
  {
    if s == "" then NonEmpty(item)
    else if s[0] == ',' then NonEmpty(item) + SplitCommas(s[1..], "")
    else SplitCommas(s[1..], item + [s[0]])
  }

  function TrimAll(parts: seq<string>): seq<string> {
    if parts == [] then []
    else
      var last := Trim(parts[|parts| - 1]);
      TrimAll(parts[..|parts| - 1]) + NonEmpty(last)
  }

  /** A registration may list aliases, separated by commas. */
  function Aliases(name: string): seq<string> {
    TrimAll(SplitCommas(name, ""))
  }

  // ----- the table as a sequence -----

  /** Index of the first entry with the name; the length when there is none. */
  function FindIndex(entries: seq<Entry>, name: string): (i: nat)
    ensures i <= |entries|
    ensures i < |entries| ==> Contains(entries[i].names, name)
    ensures forall j :: 0 <= j < i ==> !Contains(entries[j].names, name)
  {
    if entries == [] then 0
    else if Contains(entries[0].names, name) then 0
    else
      var i := 1 + FindIndex(entries[1..], name);
      assert forall j :: 1 <= j < i ==> entries[j] == entries[1..][j - 1];
      i
  }

  function Find(entries: seq<Entry>, name: string): Option<Entry> {
    var i := FindIndex(entries, name);
    if i < |entries| then Some(entries[i]) else None
  }

  predicate CanAdd(entries: seq<Entry>, name: string, callback: Option<nat>) {
    callback.Some? && name != "" && Find(entries, name).None?
  }

  function Remove(entries: seq<Entry>, i: nat): seq<Entry>
    requires i < |entries|
  {
    entries[..i] + entries[i + 1..]
  }

  // ----- the linked list -----

  class COMMAND {
    var names: Option<seq<string>>
    var cbCommand: nat
    var debugonly: bool
    var next: COMMAND?

    /** Zeroed memory. */
    constructor ()
      ensures names == None && cbCommand == 0 && !debugonly && next == null
    {
      names, cbCommand, debugonly, next := None, 0, false, null;
    }

    function ToEntry(): Entry
      reads this
    {
      Entry(if names.Some? then names.value else [], cbCommand, debugonly)
    }
  }

  class CommandTable {
    var cmd_list: COMMAND
    ghost var spine: seq<COMMAND>

    /** The nodes form an acyclic chain; only the head of an empty table lacks names. */
    ghost predicate Valid()
      reads this, spine
    {
      && spine != [] && spine[0] == cmd_list
      && (forall i, j :: 0 <= i < j < |spine| ==> spine[i] != spine[j])
      && (forall i :: 0 <= i < |spine| - 1 ==> spine[i].next == spine[i + 1])
      && spine[|spine| - 1].next == null
      && (forall i :: 0 <= i < |spine| && spine[i].names.None? ==> |spine| == 1)
    }

    ghost function Entries(): (r: seq<Entry>)
      requires Valid()
      reads this, spine
    {
      if cmd_list.names.None? then [] else EntriesOf(spine)
    }

    static ghost function EntriesOf(nodes: seq<COMMAND>): (r: seq<Entry>)
      reads nodes
      ensures |r| == |nodes| && forall i :: 0 <= i < |nodes| ==> r[i] == nodes[i].ToEntry()
    {
      if nodes == [] then [] else [nodes[0].ToEntry()] + EntriesOf(nodes[1..])
    }

    lemma HeadInSpine()
      requires Valid()
      ensures spine != [] && cmd_list in spine
    {
    }

    lemma OnlyLastEnds(k: nat)
      requires Valid() && k < |spine|
      ensures if k == |spine| - 1 then spine[k].next == null else spine[k].next == spine[k + 1]
    {
    }

    /** An empty table is a head without names. */
    constructor cmdinit()
      ensures Valid() && Entries() == [] && fresh(spine)
    {
      cmd_list := new COMMAND();
      new;
      spine := [cmd_list];
    }

    /** The first node with the name and the node in front of it. */
    method cmdfind(name: string) returns (found: COMMAND?, link: COMMAND?)
      requires Valid()
      ensures var i := FindIndex(Entries(), name);
        && (found == null <==> i == |Entries()|)
        && (found != null ==> i < |spine| && found == spine[i] && link == if i == 0 then null else spine[i - 1])
    {
      found, link := null, null;
      if cmd_list.names.None? {
        return;
      }
      var cur: COMMAND? := cmd_list;
      ghost var k := 0;
      while cur != null
        invariant 0 <= k <= |spine|
        invariant cur == if k < |spine| then spine[k] else null
        invariant link == if k == 0 then null else spine[k - 1]
        invariant forall j :: 0 <= j < k ==> !Contains(Entries()[j].names, name)
        decreases |spine| - k
      {
        assert Entries()[k] == spine[k].ToEntry();
        if VectorContains(cur.names.value, name) {
          FirstMatch(Entries(), name, k);
          found := cur;
          return;
        }
        link := cur;
        cur := cur.next;
        k := k + 1;
      }
    }

    static predicate VectorContains(names: seq<string>, name: string) {
      Contains(names, name)
    }

    /** Appends a command; the head itself is filled when the table is empty. */
    method cmdnew(name: string, cbCommand: Option<nat>, debugonly: bool) returns (ok: bool)
      requires Valid()
      modifies this`spine, spine
      ensures Valid() && fresh(set n | n in spine && n !in old(spine)) && cmd_list == old(cmd_list)
      ensures ok == CanAdd(old(Entries()), name, cbCommand)
      ensures Entries() ==
        if ok then old(Entries()) + [Entry(Aliases(name), cbCommand.value, debugonly)] else old(Entries())
    {
      hide EntriesOf, FindIndex, Aliases, Contains, Valid;
      HeadInSpine();
      var found, _ := cmdfind(name);
      if cbCommand.None? || name == "" || found != null {
        return false;
      }
      var names := SplitNames(name);
      if cmd_list.names.None? {
        FillHead(names, cbCommand.value, debugonly);
      } else {
        var cmd := new COMMAND();
        cmd.names := Some(names);
        cmd.cbCommand := cbCommand.value;
        cmd.debugonly := debugonly;
        Append(cmd);
      }
      ok := true;
    }

    method FillHead(names: seq<string>, cbCommand: nat, debugonly: bool)
      requires Valid() && cmd_list.names.None?
      modifies cmd_list
      ensures Valid() && Entries() == [Entry(names, cbCommand, debugonly)]
    {
      hide EntriesOf;
      OnlyLastEnds(0);
      cmd_list.names := Some(names);
      cmd_list.cbCommand := cbCommand;
      cmd_list.debugonly := debugonly;
      cmd_list.next := null;
    }

    method Append(cmd: COMMAND)
      requires Valid() && cmd_list.names.Some?
      requires cmd !in spine && cmd.next == null && cmd.names.Some?
      modifies this`spine, spine
      ensures Valid() && spine == old(spine) + [cmd]
      ensures cmd_list.names.Some?
      ensures Entries() == old(Entries()) + [old(cmd.ToEntry())]
    {
      hide EntriesOf;
      var cur := cmd_list;
      ghost var k := 0;
      while cur.next != null
        invariant 0 <= k < |spine| && cur == spine[k]
        decreases |spine| - k
        modifies {}
      {
        OnlyLastEnds(k);
        cur := cur.next;
        k := k + 1;
      }
      OnlyLastEnds(k);
      cur.next := cmd;
      spine := spine + [cmd];
    }

    static method SplitNames(name: string) returns (names: seq<string>)
      ensures names == Aliases(name)
    {
      var parts := SplitCommas(name, "");
      names := [];
      for i := 0 to |parts|
        invariant names == TrimAll(parts[..i])
      {
        assert parts[..i + 1][..i] == parts[..i];
        var trimmed := Trim(parts[i]);
        if trimmed != "" {
          names := names + [trimmed];
        }
      }
      assert parts[..|parts|] == parts;
    }

    /** Replaces the callback of the first command with the name. */
    method cmdset(name: string, cbCommand: Option<nat>, debugonly: bool) returns (previous: Option<nat>)
      requires Valid()
      modifies spine
      ensures Valid()
      ensures var i := FindIndex(old(Entries()), name);
        if cbCommand.None? || i == |old(Entries())| then previous == None && Entries() == old(Entries())
        else
          && previous == Some(old(Entries())[i].callback)
          && Entries() == old(Entries())[i := old(Entries())[i].(callback := cbCommand.value, debugonly := debugonly)]
    {
      hide EntriesOf, FindIndex, Valid;
      if cbCommand.None? {
        return None;
      }
      ghost var i := FindIndex(Entries(), name);
      var found, _ := cmdfind(name);
      if found == null {
        return None;
      }
      previous := SetCallback(found, cbCommand.value, debugonly, i);
    }

    method SetCallback(found: COMMAND, cbCommand: nat, debugonly: bool, ghost i: nat) returns (previous: Option<nat>)
      requires Valid() && i < |Entries()| && i < |spine| && found == spine[i]
      modifies found
      ensures Valid() && previous == Some(old(Entries())[i].callback)
      ensures Entries() == old(Entries())[i := old(Entries())[i].(callback := cbCommand, debugonly := debugonly)]
    {
      hide EntriesOf;
      previous := Some(found.cbCommand);
      found.cbCommand := cbCommand;
      found.debugonly := debugonly;
    }

    /** Unlinks the first command with the name. The head cannot be unlinked: its successor is
        copied into it and released instead, and a lone head is zeroed. */
    method cmddel(name: string) returns (ok: bool)
      requires Valid()
      modifies this`spine, spine
      ensures Valid() && cmd_list == old(cmd_list)
      ensures forall n :: n in spine ==> n in old(spine)
      ensures ok == Find(old(Entries()), name).Some?
      ensures Entries() == if ok then Remove(old(Entries()), FindIndex(old(Entries()), name)) else old(Entries())
    {
      hide EntriesOf, FindIndex;
      ghost var i := FindIndex(Entries(), name);
      var found, prev := cmdfind(name);
      if found == null {
        return false;
      }
      if found == cmd_list {
        RemoveHead();
      } else {
        Unlink(found, prev, i);
      }
      ok := true;
    }

    method RemoveHead()
      requires Valid() && Entries() != []
      modifies this`spine, spine
      ensures Valid() && cmd_list == old(cmd_list)
      ensures forall n :: n in spine ==> n in old(spine)
      ensures Entries() == old(Entries())[1..]
    {
      hide EntriesOf;
      OnlyLastEnds(0);
      if cmd_list.next != null {
        CopySuccessor();
      } else {
        cmd_list.names := None;
        cmd_list.cbCommand := 0;
        cmd_list.debugonly := false;
        cmd_list.next := null;
      }
    }

    method CopySuccessor()
      requires Valid() && cmd_list.names.Some? && |spine| > 1
      modifies this`spine, cmd_list
      ensures Valid() && spine == [cmd_list] + old(spine)[2..]
      ensures Entries() == old(Entries())[1..]
    {
      hide EntriesOf;
      OnlyLastEnds(0);
      OnlyLastEnds(1);
      var next := cmd_list.next;
      cmd_list.names := next.names;
      cmd_list.cbCommand := next.cbCommand;
      cmd_list.debugonly := next.debugonly;
      cmd_list.next := next.next;
      spine := [cmd_list] + spine[2..];
      assert forall i :: 1 <= i < |spine| ==> spine[i] == old(spine)[i + 1];
    }

    method Unlink(found: COMMAND, prev: COMMAND?, ghost i: nat)
      requires Valid() && cmd_list.names.Some? && 0 < i < |spine|
      requires found == spine[i] && prev == spine[i - 1]
      modifies this`spine, spine
      ensures Valid() && cmd_list == old(cmd_list)
      ensures forall n :: n in spine ==> n in old(spine)
      ensures Entries() == Remove(old(Entries()), i)
    {
      hide EntriesOf;
      OnlyLastEnds(i);
      OnlyLastEnds(i - 1);
      prev.next := found.next;
      spine := spine[..i] + spine[i + 1..];
      assert forall j :: 0 <= j < |spine| ==> spine[j] == old(spine)[if j < i then j else j + 1];
    }
  }

  lemma FirstMatch(entries: seq<Entry>, name: string, k: nat)
    requires k < |entries| && Contains(entries[k].names, name)
    requires forall j :: 0 <= j < k ==> !Contains(entries[j].names, name)
    ensures FindIndex(entries, name) == k
  {
  }

  // ----- properties of any run -----

  datatype Op = New(name: string, callback: Option<nat>, debugonly: bool) | Delete(name: string)

  function Apply(entries: seq<Entry>, op: Op): seq<Entry> {
    match op
    case New(name, callback, debugonly) =>
      if CanAdd(entries, name, callback) then entries + [Entry(Aliases(name), callback.value, debugonly)] else entries
    case Delete(name) =>
      var i := FindIndex(entries, name);
      if i < |entries| then Remove(entries, i) else entries
  }

  function Run(ops: seq<Op>): seq<Entry> {
    if ops == [] then [] else Apply(Run(ops[..|ops| - 1]), ops[|ops| - 1])
  }

  /** Deleting takes out exactly the first match: the name still resolves afterwards precisely
      when a later command also carries it, and then to the first of those. */
  lemma {:induction false} FindAfterDelete(entries: seq<Entry>, name: string)
    requires Find(entries, name).Some?
    ensures var i := FindIndex(entries, name);
      Find(Apply(entries, Delete(name)), name) == Find(entries[i + 1..], name)
  {
    hide Contains;
    var i := FindIndex(entries, name);
    var front, back := entries[..i], entries[i + 1..];
    SkipPrefix(front, back, name);
    FoundBehind(front, back, name);
    hide FindIndex;
    assert Apply(entries, Delete(name)) == front + back;
  }

  lemma FoundBehind(front: seq<Entry>, back: seq<Entry>, name: string)
    requires FindIndex(front + back, name) == |front| + FindIndex(back, name)
    ensures Find(front + back, name) == Find(back, name)
  {
    hide FindIndex, Contains;
    var k := FindIndex(back, name);
    if k < |back| {
      assert (front + back)[|front| + k] == back[k];
    }
  }

  lemma {:induction false} SkipPrefix(front: seq<Entry>, back: seq<Entry>, name: string)
    requires forall j :: 0 <= j < |front| ==> !Contains(front[j].names, name)
    ensures FindIndex(front + back, name) == |front| + FindIndex(back, name)
  {
    hide Contains;
    if front == [] {
      assert front + back == back;
    } else {
      assert (front + back)[1..] == front[1..] + back && (front + back)[0] == front[0];
      SkipPrefix(front[1..], back, name);
    }
  }

  /** Every other name keeps resolving to the same command. */
  lemma DeleteKeepsOthers(entries: seq<Entry>, name: string, other: string)
    requires Find(entries, other).Some?
    requires !Contains(Find(entries, other).value.names, name)
    ensures Find(Apply(entries, Delete(name)), other) == Find(entries, other)
  {
    var i, k := FindIndex(entries, name), FindIndex(entries, other);
    if i < |entries| {
      var after := Remove(entries, i);
      var k' := if i < k then k - 1 else k;
      assert after[k'] == entries[k];
      assert forall j :: 0 <= j < k' ==> after[j] == entries[if j < i then j else j + 1];
      FirstMatch(after, other, k');
    }
  }

  /** A name that reaches the table unchanged: one word, no comma. */
  predicate Simple(name: string) {
    Aliases(name) == [name]
  }

  predicate SimpleOps(ops: seq<Op>) {
    forall i :: 0 <= i < |ops| ==> ops[i].New? ==> Simple(ops[i].name)
  }

  /** No name belongs to two commands. */
  ghost predicate Distinct(entries: seq<Entry>) {
    forall i, j, name: string :: 0 <= i < j < |entries| ==>
      !(Contains(entries[i].names, name) && Contains(entries[j].names, name))
  }

  lemma ContainsSelf(name: string, other: string)
    ensures Contains([name], other) <==> Lower(name) == Lower(other)
  {
    assert [name][0] == name;
  }

  /** On every run that registers single names, no name is registered twice. */
  lemma {:induction false} NamesStayDistinct(ops: seq<Op>)
    requires SimpleOps(ops)
    ensures Distinct(Run(ops))
    ensures forall i :: 0 <= i < |Run(ops)| ==> |Run(ops)[i].names| == 1
    decreases |ops|
  {
    if ops != [] {
      var n := |ops| - 1;
      var before, op := Run(ops[..n]), ops[n];
      NamesStayDistinct(ops[..n]);
      if op.New? && CanAdd(before, op.name, op.callback) {
        var after := Run(ops);
        forall i, other: string | 0 <= i < |before|
          ensures !(Contains(before[i].names, other) && Contains([op.name], other))
        {
          ContainsSelf(op.name, other);
          assert !Contains(before[i].names, op.name);
        }
      }
    }
  }

  /** So there a deleted name is gone. */
  lemma DeletedNameIsGone(ops: seq<Op>, name: string)
    requires SimpleOps(ops)
    ensures Find(Run(ops + [Delete(name)]), name) == None
  {
    NamesStayDistinct(ops);
    var before := Run(ops);
    assert (ops + [Delete(name)])[..|ops|] == ops;
    if Find(before, name).Some? {
      FindAfterDelete(before, name);
      var i := FindIndex(before, name);
      var rest := before[i + 1..];
      forall j | 0 <= j < |rest|
        ensures !Contains(rest[j].names, name)
      {
        assert rest[j] == before[i + 1 + j];
      }
    }
  }

  /** With aliases it need not be: only the whole registration string is checked, so "a,b" and
      "b,c" both register b, and deleting b once leaves the second. */
  lemma AliasSurvivesDelete()
    ensures var ops := [New("a,b", Some(1), false), New("b,c", Some(2), false), Delete("b")];
      Find(Run(ops), "b") == Some(Entry(["b", "c"], 2, false))
  {
    hide Lower, Aliases, Contains, Apply, Find;
    var ab, bc := Entry(["a", "b"], 1, false), Entry(["b", "c"], 2, false);
    var n1, n2, d := New("a,b", Some(1), false), New("b,c", Some(2), false), Delete("b");
    RunSteps(n1, n2, d);
    AliasesOfTwo('a', 'b');
    AliasesOfTwo('b', 'c');
    LowercaseNames();
    assert Find([], "a,b").None? by { NothingFound("a,b"); }
    Added([], "a,b", 1);
    NotFound(ab, "b,c");
    Added([ab], "b,c", 2);
    assert [] + [ab] == [ab] && [ab] + [bc] == [ab, bc];
    FirstDeleted([ab, bc], "b");
    assert [ab, bc][1..] == [bc];
    FirstFound([bc], "b");
  }

  lemma NothingFound(name: string)
    ensures Find([], name).None?
  {
  }

  lemma Added(entries: seq<Entry>, name: string, callback: nat)
    requires name != "" && Find(entries, name).None?
    ensures Apply(entries, New(name, Some(callback), false)) == entries + [Entry(Aliases(name), callback, false)]
  {
    hide Aliases, Find;
  }

  lemma FirstFound(entries: seq<Entry>, name: string)
    requires entries != [] && Contains(entries[0].names, name)
    ensures Find(entries, name) == Some(entries[0]) && FindIndex(entries, name) == 0
  {
  }

  lemma FirstDeleted(entries: seq<Entry>, name: string)
    requires entries != [] && Contains(entries[0].names, name)
    ensures Apply(entries, Delete(name)) == entries[1..]
  {
    hide FindIndex, Contains;
    FirstFound(entries, name);
    assert Remove(entries, 0) == entries[1..];
  }

  lemma RunSteps(op1: Op, op2: Op, op3: Op)
    ensures Run([op1, op2, op3]) == Apply(Apply(Apply([], op1), op2), op3)
  {
    hide Apply;
    assert [op1, op2, op3][..2] == [op1, op2] && [op1, op2][..1] == [op1] && [op1][..0] == [];
    assert Run([]) == [];
    assert Run([op1]) == Apply([], op1);
    assert Run([op1, op2]) == Apply(Apply([], op1), op2);
  }

  lemma NotFound(entry: Entry, name: string)
    requires !Contains(entry.names, name)
    ensures Find([entry], name).None?
  {
  }

  lemma LowercaseNames()
    ensures !Contains(["a", "b"], "b,c") && Contains(["a", "b"], "b") && Contains(["b", "c"], "b")
  {
    hide Lower;
    LowerFixed("a");
    LowerFixed("b");
    LowerFixed("b,c");
    assert Lower(["a", "b"][1]) == Lower("b") && Lower(["b", "c"][0]) == Lower("b");
  }

  lemma {:induction false} LowerFixed(s: string)
    requires forall i :: 0 <= i < |s| ==> !('A' <= s[i] <= 'Z')
    ensures Lower(s) == s
  {
    if s != "" {
      LowerFixed(s[1..]);
    }
  }

  lemma AliasesOfTwo(x: char, y: char)
    requires 'a' <= x <= 'z' && 'a' <= y <= 'z'
    ensures Aliases([x, ',', y]) == [[x], [y]]
  {
    hide SplitCommas, TrimAll;
    SplitTwo(x, y);
    TrimTwo(x, y);
  }

  lemma SplitTwo(x: char, y: char)
    requires x != ',' && y != ','
    ensures SplitCommas([x, ',', y], "") == [[x], [y]]
  {
    var s := [x, ',', y];
    assert s[1..] == [',', y] && [',', y][1..] == [y] && [y][1..] == "";
    assert "" + [x] == [x] && "" + [y] == [y];
    assert SplitCommas([y], "") == [[y]];
    assert SplitCommas([',', y], [x]) == [[x], [y]];
  }

  lemma TrimTwo(x: char, y: char)
    requires !IsBlank(x) && !IsBlank(y)
    ensures TrimAll([[x], [y]]) == [[x], [y]]
  {
    var parts := [[x], [y]];
    assert Trim([x]) == [x] && Trim([y]) == [y];
    assert parts[..1] == [[x]] && parts[..1][..0] == [];
    assert TrimAll(parts[..1]) == [[x]];
  }

  // ----- aliases -----

  /** Names with commas between them. */
  function CommaList(names: seq<string>): string {
    if names == [] then "" else if |names| == 1 then names[0] else names[0] + ("," + CommaList(names[1..]))
  }

  /** A registration lists its aliases in order, without the white space around them; empty ones are left out. */
  lemma AliasesOfList(names: seq<string>)
    requires forall i :: 0 <= i < |names| ==> ',' !in names[i]
    ensures Aliases(CommaList(names)) == TrimAll(names)
  {
    hide SplitCommas, TrimAll;
    if names == [] {
      NothingSplit();
    } else {
      SplitList(names);
      SkipEmpty(names);
    }
  }

  /** The names that are not empty. */
  function Kept(names: seq<string>): seq<string> {
    if names == [] then [] else NonEmpty(names[0]) + Kept(names[1..])
  }

  lemma {:induction false} SplitItem(item: string, current: string, rest: string)
    requires ',' !in item && (rest == "" || rest[0] == ',')
    ensures SplitCommas(item + rest, current) ==
      NonEmpty(current + item) + if rest == "" then [] else SplitCommas(rest[1..], "")
    decreases |item|
  {
    if item == "" {
      assert item + rest == rest && current + item == current;
    } else {
      assert (item + rest)[1..] == item[1..] + rest;
      SplitItem(item[1..], current + [item[0]], rest);
      assert current + [item[0]] + item[1..] == current + item;
    }
  }

  lemma {:induction false} SplitList(names: seq<string>)
    requires names != [] && forall i :: 0 <= i < |names| ==> ',' !in names[i]
    ensures SplitCommas(CommaList(names), "") == Kept(names)
    decreases |names|
  {
    hide SplitCommas;
    assert "" + names[0] == names[0];
    if |names| == 1 {
      SplitItem(names[0], "", "");
      assert names[0] + "" == names[0] && NonEmpty(names[0]) + [] == NonEmpty(names[0]);
      assert Kept(names[1..]) == [];
    } else {
      var rest := "," + CommaList(names[1..]);
      SplitItem(names[0], "", rest);
      assert rest[1..] == CommaList(names[1..]);
      SplitList(names[1..]);
    }
  }

  lemma {:induction false} TrimAllFirst(parts: seq<string>)
    requires parts != []
    ensures TrimAll(parts) == NonEmpty(Trim(parts[0])) + TrimAll(parts[1..])
    decreases |parts|
  {
    hide Trim;
    var n := |parts| - 1;
    if n == 0 {
      assert parts[..0] == [] && parts[1..] == [];
    } else {
      TrimAllFirst(parts[..n]);
      assert parts[..n][1..] == parts[1..][..n - 1] && parts[1..][n - 1] == parts[n];
    }
  }

  lemma {:induction false} SkipEmpty(names: seq<string>)
    ensures TrimAll(Kept(names)) == TrimAll(names)
  {
    hide TrimAll, Trim;
    if names != [] {
      SkipEmpty(names[1..]);
      TrimAllFirst(names);
      if names[0] == "" {
        assert Trim("") == "" by { TrimNothing(); }
        assert Kept(names) == Kept(names[1..]);
      } else {
        assert Kept(names)[1..] == Kept(names[1..]);
        TrimAllFirst(Kept(names));
      }
    }
  }

  lemma NothingSplit()
    ensures SplitCommas("", "") == []
  {
  }

  lemma TrimNothing()
    ensures Trim("") == ""
  {
  }

  // ----- names without regard to case -----

  /** The same letter, or one of them is the other in upper case. */
  predicate SameLetter(x: char, y: char) {
    x == y || ('A' <= x <= 'Z' && y as int == x as int + 32) || ('A' <= y <= 'Z' && x as int == y as int + 32)
  }

  lemma {:induction false} SameLower(x: string, y: string)
    ensures Lower(x) == Lower(y) <==> |x| == |y| && forall i :: 0 <= i < |x| ==> SameLetter(x[i], y[i])
  {
    if x != "" && |x| == |y| {
      SameLower(x[1..], y[1..]);
      LetterLower(x[0], y[0]);
      assert Lower(x) == [LowerChar(x[0])] + Lower(x[1..]) && Lower(y) == [LowerChar(y[0])] + Lower(y[1..]);
      if Lower(x) == Lower(y) {
        assert Lower(x)[0] == Lower(y)[0] && Lower(x)[1..] == Lower(y)[1..];
        assert forall i :: 1 <= i < |x| ==> x[i] == x[1..][i - 1] && y[i] == y[1..][i - 1];
      } else {
        hide SameLetter;
        assert forall i :: 0 <= i < |x| - 1 ==> x[1..][i] == x[i + 1] && y[1..][i] == y[i + 1];
      }
    }
  }

  lemma LetterLower(x: char, y: char)
    ensures LowerChar(x) == LowerChar(y) <==> SameLetter(x, y)
  {
  }

  /** A command is found under any spelling of its name that differs in the case of letters only. */
  lemma FoundInAnyCase(entries: seq<Entry>, i: nat, name: string)
    requires i < |entries| && |entries[i].names| == 1
    requires var own := entries[i].names[0]; |own| == |name| && forall k :: 0 <= k < |name| ==> SameLetter(own[k], name[k])
    requires forall j :: 0 <= j < i ==> !Contains(entries[j].names, name)
    ensures Find(entries, name) == Some(entries[i])
  {
    hide Lower, SameLetter;
    SameLower(entries[i].names[0], name);
    assert Contains(entries[i].names, name);
  }

  /** And under no other. */
  lemma NotFoundOtherwise(entries: seq<Entry>, name: string)
    requires forall i, k :: 0 <= i < |entries| && 0 <= k < |entries[i].names| ==>
      var own := entries[i].names[k]; |own| != |name| || exists j :: 0 <= j < |name| && !SameLetter(own[j], name[j])
    ensures Find(entries, name).None?
  {
    hide Lower, SameLetter;
    forall i, k | 0 <= i < |entries| && 0 <= k < |entries[i].names|
      ensures Lower(entries[i].names[k]) != Lower(name)
    {
      SameLower(entries[i].names[k], name);
    }
  }
}
