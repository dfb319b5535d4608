/** The breakpoint table and the reference-counted log files. */
module Breakpoints {
  import opened Options
  import opened Strings
  import opened Words
  import opened Modules

  // Breakpoint types are plain numbers, so that a loaded file can hold others.
  const NORMAL := 0
  const HARDWARE := 1
  const MEMORY := 2
  const DLL := 3
  const EXCEPTION := 4

  predicate KnownType(t: int) {
    NORMAL <= t <= EXCEPTION
  }

  /** Everything about a breakpoint that neither identifies it nor names its log file. */
  datatype Details = Details(
    name: string,
    enabled: bool,
    singleshoot: bool,
    silent: bool,
    oldbytes: nat,
    titantype: nat,
    breakCondition: string,
    logText: string,
    logCondition: string,
    commandText: string,
    commandCondition: string,
    hitcount: nat,
    fastResume: bool)

  datatype Breakpoint = Breakpoint(bpType: int, addr: Word, modName: string, memsize: Word, logFile: string, details: Details)

  datatype Key = Key(bpType: int, addr: Word)

  /** The two tables. Log files are kept under their lower-case names. `lost` holds the names whose
      breakpoint was overwritten by a load, each as often as that happened; the program itself does
      not know them. */
  datatype Table = Table(bps: map<Key, Breakpoint>, logs: map<string, nat>, lost: multiset<string>)

  const EMPTY := Table(map[], map[], multiset{})

  // ----- keys -----

  function AfterLast(s: string, separators: set<char>): string {
    if s == "" then "" else if s[|s| - 1] in separators then "" else AfterLast(s[..|s| - 1], separators) + [s[|s| - 1]]
  }

  /** DLL breakpoints are kept under the hash of the file name without its directory. */
  function BpGetDLLBpAddr(hash: Hash, fileName: string): Word {
    ModHashFromName(hash, AfterLast(fileName, {'\\', '/'}))
  }

  predicate Relocatable(t: int) {
    t != DLL && t != EXCEPTION
  }

  /** The key of a breakpoint follows from the breakpoint. */
  predicate KeyOk(hash: Hash, k: Key, b: Breakpoint) {
    && k.bpType == b.bpType
    && (b.bpType == EXCEPTION ==> b.modName == "")
    && (b.bpType == DLL ==> b.addr == k.addr)
    && k.addr == if b.bpType == DLL then BpGetDLLBpAddr(hash, b.modName)
                 else Wrap(ModHashFromName(hash, b.modName) + b.addr)
  }

  // ----- log files -----

  function Acquire(logs: map<string, nat>, logFile: string): map<string, nat> {
    if logFile == "" then logs
    else
      var f := Lower(logFile);
      logs[f := (if f in logs then logs[f] else 0) + 1]
  }

  function Release(logs: map<string, nat>, logFile: string): map<string, nat> {
    var f := Lower(logFile);
    if logFile == "" || f !in logs then logs
    else if logs[f] <= 1 then logs - {f}
    else logs[f := logs[f] - 1]
  }

  // ----- finding -----

  /** The order of the map. */
  predicate NotAfter(a: Key, b: Key) {
    a.bpType < b.bpType || (a.bpType == b.bpType && a.addr <= b.addr)
  }

  /** The entry in front of the upper bound of `key`. */
  ghost predicate IsLast(bps: map<Key, Breakpoint>, key: Key, k: Key) {
    k in bps && NotAfter(k, key) && forall q :: q in bps && NotAfter(q, key) ==> NotAfter(q, k)
  }

  ghost function LastUpTo(bps: map<Key, Breakpoint>, key: Key): Option<Key> {
    if exists k :: IsLast(bps, key, k) then
      var k :| IsLast(bps, key, k);
      Some(k)
    else None
  }

  predicate Covers(b: Breakpoint, base: Word, address: Word) {
    var start := Wrap(base + b.addr);
    start <= address < Wrap(start + b.memsize)
  }

  ghost function FindMemory(bps: map<Key, Breakpoint>, hash: Hash, layout: seq<Module>, address: Word): Option<Key> {
    var last := LastUpTo(bps, Key(MEMORY, ModHashFromAddr(hash, layout, address)));
    if last.Some? && last.value in bps && last.value.bpType == MEMORY &&
       Covers(bps[last.value], ModBaseFromAddr(layout, address), address) then last else None
  }

  function KeyAt(hash: Hash, layout: seq<Module>, t: int, address: Word): Key {
    Key(t, if Relocatable(t) then ModHashFromAddr(hash, layout, address) else address)
  }

  ghost function FindAt(bps: map<Key, Breakpoint>, hash: Hash, layout: seq<Module>, t: int, address: Word): (r: Option<Key>)
    ensures r.Some? ==> r.value in bps && r.value.bpType == t
  {
    if t == MEMORY then FindMemory(bps, hash, layout, address)
    else
      var k := KeyAt(hash, layout, t, address);
      if k in bps then Some(k) else None
  }

  // ----- references -----

  /** A reference adds up to a key; type `None` is the null reference. */
  datatype Ref = Ref(refType: Option<int>, modHash: Word, offset: Word)

  function RefOf(hash: Hash, b: Breakpoint): Ref {
    if b.bpType == DLL then Ref(Some(DLL), BpGetDLLBpAddr(hash, b.modName), 0)
    else if b.bpType == EXCEPTION then Ref(Some(EXCEPTION), 0, b.addr % 0x1_0000_0000)
    else Ref(if KnownType(b.bpType) then Some(b.bpType) else None, ModHashFromName(hash, b.modName), b.addr)
  }

  function RefVa(hash: Hash, layout: seq<Module>, t: int, address: Word): Ref {
    var m := ModInfoFromAddr(layout, address);
    if m.Some? then Ref(Some(t), hash(FullName(m.value)), address - m.value.base) else Ref(Some(t), 0, address)
  }

  function Resolve(bps: map<Key, Breakpoint>, r: Ref): (k: Option<Key>)
    ensures k.Some? ==> k.value in bps
  {
    if r.refType.None? then None
    else
      var key := Key(r.refType.value, Wrap(r.modHash + r.offset));
      if key in bps then Some(key) else None
  }

  // ----- operations -----

  function Put(s: Table, k: Key, b: Breakpoint): Table {
    s.(bps := s.bps[k := b])
  }

  function NewBreakpoint(layout: seq<Module>, t: int, address: Word, memsize: Word, details: Details): Breakpoint {
    if t == EXCEPTION then Breakpoint(t, address, "", memsize, "", details)
    else
      Breakpoint(t, address - ModBaseFromAddr(layout, address), ModNameFromAddr(layout, address), memsize, "", details)
  }

  /** `readable` and `nameTaken` are the answers of the memory map and of the lookup by name. */
  ghost function New(s: Table, hash: Hash, layout: seq<Module>, t: int, address: Word, memsize: Word, details: Details,
                     readable: bool, nameTaken: bool): Table {
    var k := KeyAt(hash, layout, t, address);
    if t != EXCEPTION && !readable then s
    else if (if details.name == "" then FindAt(s.bps, hash, layout, t, address).Some? else nameTaken) then s
    else if k in s.bps then s
    else Put(s, k, NewBreakpoint(layout, t, address, memsize, details))
  }

  function NewDll(s: Table, hash: Hash, modName: string, details: Details): Table {
    var addr := BpGetDLLBpAddr(hash, modName);
    if Key(DLL, addr) in s.bps then s
    else Put(s, Key(DLL, addr), Breakpoint(DLL, addr, modName, 0, "", details))
  }

  function SafeDelete(s: Table, k: Key): Table {
    if k !in s.bps then s else s.(bps := s.bps - {k}, logs := Release(s.logs, s.bps[k].logFile))
  }

  function DeleteAt(s: Table, hash: Hash, layout: seq<Module>, t: int, address: Word): Table {
    SafeDelete(s, KeyAt(hash, layout, t, address))
  }

  /** The key a breakpoint with an absolute address stands for. */
  function KeyOfCopy(hash: Hash, layout: seq<Module>, b: Breakpoint): Key {
    if !Relocatable(b.bpType) || b.modName == "" then Key(b.bpType, b.addr)
    else
      var loadedBase := ModBaseFromName(layout, b.modName);
      var rva := if loadedBase != 0 && b.addr >= loadedBase then b.addr - loadedBase else b.addr;
      Key(b.bpType, Wrap(ModHashFromName(hash, b.modName) + rva))
  }

  function DeleteCopy(s: Table, hash: Hash, layout: seq<Module>, b: Breakpoint): Table {
    SafeDelete(s, KeyOfCopy(hash, layout, b))
  }

  /** The copies handed out carry absolute addresses. */
  function Adjusted(layout: seq<Module>, b: Breakpoint): Breakpoint {
    if Relocatable(b.bpType) then b.(addr := Wrap(b.addr + ModBaseFromName(layout, b.modName))) else b
  }

  function SetDetails(s: Table, k: Option<Key>, details: Details): Table {
    if k.Some? && k.value in s.bps then Put(s, k.value, s.bps[k.value].(details := details)) else s
  }

  function SetLogFile(s: Table, k: Option<Key>, logFile: string): Table {
    if k.Some? && k.value in s.bps then
      var b := s.bps[k.value];
      Put(s, k.value, b.(logFile := logFile)).(logs := Release(Acquire(s.logs, logFile), b.logFile))
    else s
  }

  // ----- loading -----

  /** One breakpoint as the database file has it. */
  datatype Stored = Stored(bpType: int, addr: Word, modName: string, memsize: Word, logFile: string, details: Details)

  function Migrated(d: Details): Details {
    if d.commandText != "" && d.commandCondition != "" then d.(commandCondition := "$breakpointcondition") else d
  }

  function Loaded(hash: Hash, e: Stored, migrate: bool): Breakpoint {
    var file := AfterLast(e.modName, {'\\'});
    var oldbytes := if e.bpType == NORMAL then e.details.oldbytes % 0x1_0000 else 0;
    var d := e.details.(oldbytes := oldbytes, singleshoot := false, hitcount := 0);
    Breakpoint(e.bpType,
      if e.bpType == DLL then BpGetDLLBpAddr(hash, file) else e.addr,
      if e.bpType == EXCEPTION then "" else if e.bpType == DLL then file else e.modName,
      if e.bpType == MEMORY then e.memsize else 0,
      e.logFile,
      if migrate then Migrated(d) else d)
  }

  function KeyOfLoaded(hash: Hash, b: Breakpoint): Key {
    Key(b.bpType, if b.bpType == DLL then b.addr else Wrap(ModHashFromName(hash, b.modName) + b.addr))
  }

  function LoadOne(s: Table, hash: Hash, e: Stored, migrate: bool): Table {
    var b := Loaded(hash, e, migrate);
    var k := KeyOfLoaded(hash, b);
    Table(s.bps[k := b], Acquire(s.logs, e.logFile), s.lost + LostAt(s, k))
  }

  /** The log file whose count stays behind when an entry is overwritten. */
  function LostAt(s: Table, k: Key): multiset<string> {
    if k in s.bps && s.bps[k].logFile != "" then multiset{Lower(s.bps[k].logFile)} else multiset{}
  }

  function Load(s: Table, hash: Hash, entries: seq<Stored>, migrate: bool): Table {
    if entries == [] then s
    else LoadOne(Load(s, hash, entries[..|entries| - 1], migrate), hash, entries[|entries| - 1], migrate)
  }

  // ----- runs -----

  /** Every operation is told the modules loaded at that moment. */
  datatype Op =
    | OpNew(t: int, address: Word, memsize: Word, details: Details, readable: bool, nameTaken: bool)
    | OpNewDll(modName: string, details: Details)
    | OpDeleteAt(t: int, address: Word)
    | OpDeleteCopy(copy: Breakpoint)
    | OpSetDetails(t: int, address: Word, details: Details)
    | OpSetLogFile(t: int, address: Word, logFile: string)
    | OpSetDetailsRef(ref: Ref, details: Details)
    | OpSetLogFileRef(ref: Ref, logFile: string)
    | OpLoad(entries: seq<Stored>, migrate: bool)
    | OpClear

  ghost function Apply(s: Table, hash: Hash, layout: seq<Module>, op: Op): Table {
    match op
    case OpNew(t, address, memsize, details, readable, nameTaken) =>
      if t == DLL then s else New(s, hash, layout, t, address, memsize, details, readable, nameTaken)
    case OpNewDll(modName, details) => NewDll(s, hash, modName, details)
    case OpDeleteAt(t, address) => DeleteAt(s, hash, layout, t, address)
    case OpDeleteCopy(copy) => DeleteCopy(s, hash, layout, copy)
    case OpSetDetails(t, address, details) => SetDetails(s, FindAt(s.bps, hash, layout, t, address), details)
    case OpSetLogFile(t, address, logFile) => SetLogFile(s, FindAt(s.bps, hash, layout, t, address), logFile)
    case OpSetDetailsRef(ref, details) => SetDetails(s, Resolve(s.bps, ref), details)
    case OpSetLogFileRef(ref, logFile) => SetLogFile(s, Resolve(s.bps, ref), logFile)
    case OpLoad(entries, migrate) => Load(s, hash, entries, migrate)
    case OpClear => EMPTY
  }

  datatype Step = Step(layout: seq<Module>, op: Op)

  ghost function Run(hash: Hash, steps: seq<Step>): Table {
    if steps == [] then EMPTY
    else
      var last := steps[|steps| - 1];
      Apply(Run(hash, steps[..|steps| - 1]), hash, last.layout, last.op)
  }

  predicate LayoutsOk(steps: seq<Step>) {
    forall i :: 0 <= i < |steps| ==> LayoutOk(steps[i].layout)
  }

  // ----- what every run keeps: the keys -----

  predicate KeysOk(hash: Hash, bps: map<Key, Breakpoint>) {
    forall k :: k in bps ==> KeyOk(hash, k, bps[k])
  }

  lemma NewKeyOk(hash: Hash, layout: seq<Module>, t: int, address: Word, memsize: Word, details: Details)
    requires LayoutOk(layout) && t != DLL
    ensures KeyOk(hash, KeyAt(hash, layout, t, address), NewBreakpoint(layout, t, address, memsize, details))
  {
    hide ModHashFromAddr, ModNameFromAddr, ModBaseFromAddr, LayoutOk;
    HashOfAddress(hash, layout, address);
  }

  lemma LoadedKeyOk(hash: Hash, e: Stored, migrate: bool)
    ensures var b := Loaded(hash, e, migrate); KeyOk(hash, KeyOfLoaded(hash, b), b)
  {
    hide ModHashFromName, AfterLast;
  }

  lemma {:induction false} LoadKeepsKeys(s: Table, hash: Hash, entries: seq<Stored>, migrate: bool)
    requires KeysOk(hash, s.bps)
    ensures KeysOk(hash, Load(s, hash, entries, migrate).bps)
  {
    hide KeysOk, Loaded, KeyOfLoaded;
    if entries != [] {
      LoadKeepsKeys(s, hash, entries[..|entries| - 1], migrate);
      var before, b := Load(s, hash, entries[..|entries| - 1], migrate), Loaded(hash, entries[|entries| - 1], migrate);
      LoadedKeyOk(hash, entries[|entries| - 1], migrate);
      PutKeepsKeys(before, hash, KeyOfLoaded(hash, b), b);
    }
  }

  lemma PutKeepsKeys(s: Table, hash: Hash, k: Key, b: Breakpoint)
    requires KeysOk(hash, s.bps) && KeyOk(hash, k, b)
    ensures KeysOk(hash, Put(s, k, b).bps)
  {
    hide KeyOk;
  }

  lemma DetailsKeepKeys(s: Table, hash: Hash, k: Option<Key>, details: Details)
    requires KeysOk(hash, s.bps)
    ensures KeysOk(hash, SetDetails(s, k, details).bps)
  {
    if k.Some? && k.value in s.bps {
      PutKeepsKeys(s, hash, k.value, s.bps[k.value].(details := details));
    }
  }

  lemma LogFileKeepsKeys(s: Table, hash: Hash, k: Option<Key>, logFile: string)
    requires KeysOk(hash, s.bps)
    ensures KeysOk(hash, SetLogFile(s, k, logFile).bps)
  {
    hide Acquire, Release;
    if k.Some? && k.value in s.bps {
      PutKeepsKeys(s, hash, k.value, s.bps[k.value].(logFile := logFile));
    }
  }

  lemma DeleteKeepsKeys(s: Table, hash: Hash, k: Key)
    requires KeysOk(hash, s.bps)
    ensures KeysOk(hash, SafeDelete(s, k).bps)
  {
    hide KeyOk, Release;
  }

  /** Only a new breakpoint takes its key from the modules. */
  lemma ApplyKeepsKeys(s: Table, hash: Hash, layout: seq<Module>, op: Op)
    requires KeysOk(hash, s.bps) && (op.OpNew? ==> LayoutOk(layout))
    ensures KeysOk(hash, Apply(s, hash, layout, op).bps)
  {
    hide KeysOk, KeyOk, LayoutOk, FindAt, Load, SetDetails, SetLogFile, SafeDelete, Put;
    hide KeyAt, NewBreakpoint, KeyOfCopy, Resolve, BpGetDLLBpAddr;
    match op
    case OpNew(t, address, memsize, details, readable, nameTaken) =>
      if t != DLL {
        NewKeyOk(hash, layout, t, address, memsize, details);
        PutKeepsKeys(s, hash, KeyAt(hash, layout, t, address), NewBreakpoint(layout, t, address, memsize, details));
      }
    case OpNewDll(modName, details) =>
      var addr := BpGetDLLBpAddr(hash, modName);
      DllKeyOk(hash, modName, details);
      PutKeepsKeys(s, hash, Key(DLL, addr), Breakpoint(DLL, addr, modName, 0, "", details));
    case OpDeleteAt(t, address) => DeleteKeepsKeys(s, hash, KeyAt(hash, layout, t, address));
    case OpDeleteCopy(copy) => DeleteKeepsKeys(s, hash, KeyOfCopy(hash, layout, copy));
    case OpSetDetails(t, address, details) => DetailsKeepKeys(s, hash, FindAt(s.bps, hash, layout, t, address), details);
    case OpSetLogFile(t, address, logFile) => LogFileKeepsKeys(s, hash, FindAt(s.bps, hash, layout, t, address), logFile);
    case OpSetDetailsRef(ref, details) => DetailsKeepKeys(s, hash, Resolve(s.bps, ref), details);
    case OpSetLogFileRef(ref, logFile) => LogFileKeepsKeys(s, hash, Resolve(s.bps, ref), logFile);
    case OpLoad(entries, migrate) => LoadKeepsKeys(s, hash, entries, migrate);
    case OpClear => NoKeys(hash);
  }

  lemma DllKeyOk(hash: Hash, modName: string, details: Details)
    ensures var addr := BpGetDLLBpAddr(hash, modName);
      KeyOk(hash, Key(DLL, addr), Breakpoint(DLL, addr, modName, 0, "", details))
  {
  }

  /** Over every run, whatever is loaded when, each entry is kept under the key that follows from it. */
  lemma {:induction false} EveryKeyFollows(hash: Hash, steps: seq<Step>)
    requires LayoutsOk(steps)
    ensures KeysOk(hash, Run(hash, steps).bps)
  {
    hide KeysOk, Apply, LayoutOk;
    if steps == [] {
      NoKeys(hash);
    } else {
      EveryKeyFollows(hash, steps[..|steps| - 1]);
      var last := steps[|steps| - 1];
      ApplyKeepsKeys(Run(hash, steps[..|steps| - 1]), hash, last.layout, last.op);
    }
  }

  lemma NoKeys(hash: Hash)
    ensures KeysOk(hash, EMPTY.bps)
  {
  }

  // ----- what every run keeps: the log files -----

  predicate Names(b: Breakpoint, f: string) {
    b.logFile != "" && Lower(b.logFile) == f
  }

  /** The entries that log to a file. */
  function Naming(bps: map<Key, Breakpoint>, f: string): set<Key> {
    set k | k in bps && Names(bps[k], f)
  }

  function CountOf(logs: map<string, nat>, f: string): nat {
    if f in logs then logs[f] else 0
  }

  predicate Counted(s: Table, f: string) {
    && (f in s.logs ==> s.logs[f] > 0)
    && CountOf(s.logs, f) == |Naming(s.bps, f)| + s.lost[f]
  }

  ghost predicate AllCounted(s: Table) {
    forall f: string :: Counted(s, f)
  }

  lemma AcquireCounts(logs: map<string, nat>, logFile: string, f: string)
    requires f in logs ==> logs[f] > 0
    ensures f in Acquire(logs, logFile) ==> Acquire(logs, logFile)[f] > 0
    ensures CountOf(Acquire(logs, logFile), f) == CountOf(logs, f) + if logFile != "" && Lower(logFile) == f then 1 else 0
  {
  }

  lemma ReleaseCounts(logs: map<string, nat>, logFile: string, f: string)
    requires f in logs ==> logs[f] > 0
    ensures f in Release(logs, logFile) ==> Release(logs, logFile)[f] > 0
    ensures CountOf(Release(logs, logFile), f) ==
      if logFile != "" && Lower(logFile) == f && CountOf(logs, f) > 0 then CountOf(logs, f) - 1 else CountOf(logs, f)
  {
  }

  lemma PutNaming(bps: map<Key, Breakpoint>, k: Key, b: Breakpoint, f: string)
    ensures |Naming(bps[k := b], f)| + (if k in bps && Names(bps[k], f) then 1 else 0)
         == |Naming(bps, f)| + (if Names(b, f) then 1 else 0)
  {
    hide Names;
    var x, y := Naming(bps[k := b], f), Naming(bps, f);
    assert x - {k} == y - {k};
    Without(x, k);
    Without(y, k);
  }

  lemma Without(x: set<Key>, k: Key)
    ensures |x| == |x - {k}| + if k in x then 1 else 0
  {
    if k in x {
      assert x == (x - {k}) + {k};
    } else {
      assert x == x - {k};
    }
  }

  lemma RemoveNaming(bps: map<Key, Breakpoint>, k: Key, f: string)
    requires k in bps
    ensures |Naming(bps, f)| == |Naming(bps - {k}, f)| + (if Names(bps[k], f) then 1 else 0)
  {
    hide Names;
    var y := Naming(bps, f);
    assert Naming(bps - {k}, f) == y - {k};
    Without(y, k);
  }

  lemma DeleteCounts(s: Table, k: Key, f: string)
    requires Counted(s, f)
    ensures Counted(SafeDelete(s, k), f)
  {
    hide Release, Naming;
    if k in s.bps {
      RemoveNaming(s.bps, k, f);
      ReleaseCounts(s.logs, s.bps[k].logFile, f);
    }
  }

  /** Putting an entry that names the same log file, or a new one without a log file. */
  lemma PutCounts(s: Table, k: Key, b: Breakpoint, f: string)
    requires Counted(s, f)
    requires if k in s.bps then b.logFile == s.bps[k].logFile else b.logFile == ""
    ensures Counted(Put(s, k, b), f)
  {
    hide Naming;
    PutNaming(s.bps, k, b, f);
  }

  /** The new name is acquired before the old one is released, so renaming to the same file keeps it. */
  lemma LogFileCounts(s: Table, k: Option<Key>, logFile: string, f: string)
    requires Counted(s, f)
    ensures Counted(SetLogFile(s, k, logFile), f)
  {
    hide Acquire, Release, Naming;
    if k.Some? && k.value in s.bps {
      var b := s.bps[k.value];
      PutNaming(s.bps, k.value, b.(logFile := logFile), f);
      AcquireCounts(s.logs, logFile, f);
      ReleaseCounts(Acquire(s.logs, logFile), b.logFile, f);
      if Names(b, f) {
        AnyNaming(s.bps, k.value, f);
      }
    }
  }

  lemma AnyNaming(bps: map<Key, Breakpoint>, k: Key, f: string)
    requires k in bps && Names(bps[k], f)
    ensures |Naming(bps, f)| > 0
  {
    assert k in Naming(bps, f);
  }

  lemma LoadOneCounts(s: Table, hash: Hash, e: Stored, migrate: bool, f: string)
    requires Counted(s, f)
    ensures Counted(LoadOne(s, hash, e, migrate), f)
  {
    hide Acquire, Naming, KeyOfLoaded;
    var b := Loaded(hash, e, migrate);
    PutNaming(s.bps, KeyOfLoaded(hash, b), b, f);
    AcquireCounts(s.logs, e.logFile, f);
  }

  lemma {:induction false} LoadCounts(s: Table, hash: Hash, entries: seq<Stored>, migrate: bool, f: string)
    requires Counted(s, f)
    ensures Counted(Load(s, hash, entries, migrate), f)
  {
    hide Counted, LoadOne;
    if entries != [] {
      LoadCounts(s, hash, entries[..|entries| - 1], migrate, f);
      LoadOneCounts(Load(s, hash, entries[..|entries| - 1], migrate), hash, entries[|entries| - 1], migrate, f);
    }
  }

  lemma ApplyCounts(s: Table, hash: Hash, layout: seq<Module>, op: Op, f: string)
    requires Counted(s, f)
    ensures Counted(Apply(s, hash, layout, op), f)
  {
    hide Counted, FindAt, Load, Put, SafeDelete, SetLogFile, KeyAt, KeyOfCopy, Resolve, BpGetDLLBpAddr;
    match op
    case OpNew(t, address, memsize, details, readable, nameTaken) =>
      if KeyAt(hash, layout, t, address) !in s.bps {
        PutCounts(s, KeyAt(hash, layout, t, address), NewBreakpoint(layout, t, address, memsize, details), f);
      }
    case OpNewDll(modName, details) =>
      var addr := BpGetDLLBpAddr(hash, modName);
      if Key(DLL, addr) !in s.bps {
        PutCounts(s, Key(DLL, addr), Breakpoint(DLL, addr, modName, 0, "", details), f);
      }
    case OpDeleteAt(t, address) => DeleteCounts(s, KeyAt(hash, layout, t, address), f);
    case OpDeleteCopy(copy) => DeleteCounts(s, KeyOfCopy(hash, layout, copy), f);
    case OpSetDetails(t, address, details) => DetailsCount(s, FindAt(s.bps, hash, layout, t, address), details, f);
    case OpSetLogFile(t, address, logFile) => LogFileCounts(s, FindAt(s.bps, hash, layout, t, address), logFile, f);
    case OpSetDetailsRef(ref, details) => DetailsCount(s, Resolve(s.bps, ref), details, f);
    case OpSetLogFileRef(ref, logFile) => LogFileCounts(s, Resolve(s.bps, ref), logFile, f);
    case OpLoad(entries, migrate) => LoadCounts(s, hash, entries, migrate, f);
    case OpClear => EmptyCounts(f);
  }

  lemma EmptyCounts(f: string)
    ensures Counted(EMPTY, f)
  {
    assert Naming(map[], f) == {};
  }

  lemma DetailsCount(s: Table, k: Option<Key>, details: Details, f: string)
    requires Counted(s, f)
    ensures Counted(SetDetails(s, k, details), f)
  {
    hide Counted, Put;
    if k.Some? && k.value in s.bps {
      PutCounts(s, k.value, s.bps[k.value].(details := details), f);
    }
  }

  /** Over every run, the count of a log file is the number of breakpoints that name it, ignoring case,
      plus the number of entries naming it that a load has overwritten since the last clear. */
  lemma {:induction false} CountsAreExact(hash: Hash, steps: seq<Step>, f: string)
    ensures Counted(Run(hash, steps), f)
  {
    hide Counted, Apply;
    if steps == [] {
      EmptyCounts(f);
    } else {
      CountsAreExact(hash, steps[..|steps| - 1], f);
      var last := steps[|steps| - 1];
      ApplyCounts(Run(hash, steps[..|steps| - 1]), hash, last.layout, last.op, f);
    }
  }

  /** So no live breakpoint's log file is ever closed under it. */
  lemma LiveLogFilesStay(hash: Hash, steps: seq<Step>, k: Key)
    requires k in Run(hash, steps).bps && Run(hash, steps).bps[k].logFile != ""
    ensures Lower(Run(hash, steps).bps[k].logFile) in Run(hash, steps).logs
  {
    hide Run, Naming;
    var s := Run(hash, steps);
    CountsAreExact(hash, steps, Lower(s.bps[k].logFile));
    AnyNaming(s.bps, k, Lower(s.bps[k].logFile));
  }

  /** The counts are the numbers of users exactly when no load has overwritten a logging breakpoint. */
  lemma CountsAreUsersIff(hash: Hash, steps: seq<Step>)
    ensures var s := Run(hash, steps);
      (forall f: string :: CountOf(s.logs, f) == |Naming(s.bps, f)|) <==> s.lost == multiset{}
  {
    hide Run, Naming, CountOf;
    var s := Run(hash, steps);
    forall f: string
      ensures CountOf(s.logs, f) == |Naming(s.bps, f)| + s.lost[f]
    {
      CountsAreExact(hash, steps, f);
    }
    if s.lost != multiset{} {
      var f :| f in s.lost;
      assert CountOf(s.logs, f) != |Naming(s.bps, f)|;
    }
  }

  // ----- what every operation keeps -----

  /** Every entry under its own key, and every log file with its exact count. */
  ghost predicate TableOk(hash: Hash, s: Table) {
    KeysOk(hash, s.bps) && AllCounted(s)
  }

  lemma EmptyIsOk(hash: Hash)
    ensures TableOk(hash, EMPTY)
  {
    hide Counted;
    forall f: string
      ensures Counted(EMPTY, f)
    {
      EmptyCounts(f);
    }
  }

  lemma ApplyKeepsOk(s: Table, hash: Hash, layout: seq<Module>, op: Op)
    requires TableOk(hash, s) && (op.OpNew? ==> LayoutOk(layout))
    ensures TableOk(hash, Apply(s, hash, layout, op))
  {
    hide KeysOk, Counted, Apply, LayoutOk;
    ApplyKeepsKeys(s, hash, layout, op);
    forall f: string
      ensures Counted(Apply(s, hash, layout, op), f)
    {
      ApplyCounts(s, hash, layout, op, f);
    }
  }

  lemma NewKeepsOk(s: Table, hash: Hash, layout: seq<Module>, t: int, address: Word, memsize: Word, details: Details,
                   readable: bool, nameTaken: bool)
    requires TableOk(hash, s) && LayoutOk(layout) && t != DLL
    ensures TableOk(hash, New(s, hash, layout, t, address, memsize, details, readable, nameTaken))
  {
    hide TableOk, LayoutOk, New;
    ApplyKeepsOk(s, hash, layout, OpNew(t, address, memsize, details, readable, nameTaken));
  }

  lemma DeleteKeepsOk(s: Table, hash: Hash, k: Key)
    requires TableOk(hash, s)
    ensures TableOk(hash, SafeDelete(s, k))
  {
    hide KeysOk, Counted, SafeDelete;
    DeleteKeepsKeys(s, hash, k);
    forall f: string
      ensures Counted(SafeDelete(s, k), f)
    {
      DeleteCounts(s, k, f);
    }
  }

  lemma DetailsKeepOk(s: Table, hash: Hash, k: Option<Key>, details: Details)
    requires TableOk(hash, s)
    ensures TableOk(hash, SetDetails(s, k, details))
  {
    hide KeysOk, Counted, SetDetails;
    DetailsKeepKeys(s, hash, k, details);
    forall f: string
      ensures Counted(SetDetails(s, k, details), f)
    {
      DetailsCount(s, k, details, f);
    }
  }

  lemma LogFileKeepsOk(s: Table, hash: Hash, k: Option<Key>, logFile: string)
    requires TableOk(hash, s)
    ensures TableOk(hash, SetLogFile(s, k, logFile))
  {
    hide KeysOk, Counted, SetLogFile;
    LogFileKeepsKeys(s, hash, k, logFile);
    forall f: string
      ensures Counted(SetLogFile(s, k, logFile), f)
    {
      LogFileCounts(s, k, logFile, f);
    }
  }

  // ----- references and copies find their own entry -----

  /** A reference leads back to its breakpoint exactly if the type is known and an exception code has 32 bits. */
  lemma RefResolvesIff(hash: Hash, bps: map<Key, Breakpoint>, k: Key)
    requires KeysOk(hash, bps) && k in bps
    ensures Resolve(bps, RefOf(hash, bps[k])) == Some(k)
       <==> 0 <= k.bpType <= 4 && (k.bpType == EXCEPTION ==> k.addr < 0x1_0000_0000)
  {
    hide BpGetDLLBpAddr, ModHashFromName;
    var b := bps[k];
    assert KeyOk(hash, k, b);
    if b.bpType == EXCEPTION {
      assert ModHashFromName(hash, "") == 0 by { EmptyHash(hash); }
    }
  }

  lemma EmptyHash(hash: Hash)
    ensures ModHashFromName(hash, "") == 0
  {
  }

  /** Deleting by a copy with an absolute address removes the entry it was copied from, and nothing
      else, exactly if its module is still loaded where it was and the absolute address did not wrap around, or it
      was not loaded before and the offset lies below the base it has now. */
  lemma DeletesOwnIff(hash: Hash, s: Table, made: seq<Module>, used: seq<Module>, k: Key)
    requires KeysOk(hash, s.bps) && k in s.bps
    ensures var b := s.bps[k];
      DeleteCopy(s, hash, used, Adjusted(made, b)).bps == s.bps - {k}
      <==> !Relocatable(b.bpType) || CopyLeadsBack(b.addr, ModBaseFromName(made, b.modName), ModBaseFromName(used, b.modName))
  {
    hide BpGetDLLBpAddr, ModHashFromName, ModBaseFromName, Release, CopyLeadsBack;
    var b := s.bps[k];
    assert KeyOk(hash, k, b);
    EmptyHash(hash);
    var copy := Adjusted(made, b);
    var k' := KeyOfCopy(hash, used, copy);
    if Relocatable(b.bpType) {
      KeyOfAdjusted(hash, made, used, k, b);
    } else {
      assert k' == k;
    }
    if k' != k {
      assert k in SafeDelete(s, k').bps;
    }
  }

  /** The offset, moved up by the base the module had and down by the base it has. */
  predicate CopyLeadsBack(addr: Word, madeBase: Word, usedBase: Word) {
    (madeBase == usedBase && addr + madeBase < WORD) || (madeBase == 0 && addr < usedBase)
  }

  lemma EmptyBase(layout: seq<Module>)
    ensures ModBaseFromName(layout, "") == 0
  {
  }

  lemma KeyOfAdjusted(hash: Hash, made: seq<Module>, used: seq<Module>, k: Key, b: Breakpoint)
    requires KeyOk(hash, k, b) && Relocatable(b.bpType)
    ensures KeyOfCopy(hash, used, Adjusted(made, b)) == k
      <==> CopyLeadsBack(b.addr, ModBaseFromName(made, b.modName), ModBaseFromName(used, b.modName))
  {
    hide ModHashFromName, ModBaseFromName;
    EmptyHash(hash);
    EmptyBase(made);
    EmptyBase(used);
    var madeBase, usedBase := ModBaseFromName(made, b.modName), ModBaseFromName(used, b.modName);
    var address := Wrap(b.addr + madeBase);
    WrapOfSum(b.addr, madeBase);
    var rva: Word := if usedBase != 0 && address >= usedBase then address - usedBase else address;
    WrapDiffers(ModHashFromName(hash, b.modName), b.addr, rva);
  }

  lemma WrapOfSum(x: Word, y: Word)
    ensures Wrap(x + y) == if x + y < WORD then x + y else x + y - WORD
  {
  }

  lemma WrapDiffers(h: Word, x: Word, y: Word)
    ensures Wrap(h + x) == Wrap(h + y) <==> x == y
  {
    WrapOfSum(h, x);
    WrapOfSum(h, y);
  }

  /** A reference made from an address names the same entry as the address itself. */
  lemma RefVaIsAddress(hash: Hash, bps: map<Key, Breakpoint>, layout: seq<Module>, t: int, address: Word)
    requires Relocatable(t)
    ensures Resolve(bps, RefVa(hash, layout, t, address)) ==
      var k := KeyAt(hash, layout, t, address); if k in bps then Some(k) else None
  {
  }

  /** A new breakpoint is removed without a trace by its address. */
  lemma NewThenDelete(s: Table, hash: Hash, layout: seq<Module>, t: int, address: Word, memsize: Word, details: Details,
                      readable: bool, nameTaken: bool)
    requires New(s, hash, layout, t, address, memsize, details, readable, nameTaken) != s
    ensures DeleteAt(New(s, hash, layout, t, address, memsize, details, readable, nameTaken), hash, layout, t, address) == s
  {
    hide ModHashFromAddr, ModBaseFromAddr, ModNameFromAddr, FindAt;
    var k := KeyAt(hash, layout, t, address);
    var r := New(s, hash, layout, t, address, memsize, details, readable, nameTaken);
    assert r.bps - {k} == s.bps;
  }

  // ----- when a breakpoint is added, and what is kept of it -----

  /** A new breakpoint is added exactly if its memory can be read or it is for an exception, its name is not
      taken if it has one, nothing has its key, and, unnamed and for memory, nothing covers its address. */
  lemma NewAddsIff(s: Table, hash: Hash, layout: seq<Module>, t: int, address: Word, memsize: Word, details: Details,
                   readable: bool, nameTaken: bool)
    ensures var r := New(s, hash, layout, t, address, memsize, details, readable, nameTaken);
      r != s <==>
        && (readable || t == EXCEPTION)
        && (details.name != "" ==> !nameTaken)
        && KeyAt(hash, layout, t, address) !in s.bps
        && (details.name == "" && t == MEMORY ==> FindMemory(s.bps, hash, layout, address).None?)
  {
    hide FindMemory, ModHashFromAddr, NewBreakpoint;
  }

  /** What is added: the breakpoint as it was asked for, enabled or not, without a log file, at its offset in
      the module that contains the address; all other entries stay. */
  lemma NewEntry(s: Table, hash: Hash, layout: seq<Module>, t: int, address: Word, memsize: Word, details: Details,
                 readable: bool, nameTaken: bool)
    requires New(s, hash, layout, t, address, memsize, details, readable, nameTaken) != s
    ensures var r := New(s, hash, layout, t, address, memsize, details, readable, nameTaken);
      var k := KeyAt(hash, layout, t, address);
      && r.logs == s.logs && k in r.bps && k !in s.bps && r.bps - {k} == s.bps
      && r.bps[k].bpType == t && r.bps[k].memsize == memsize && r.bps[k].logFile == "" && r.bps[k].details == details
      && (t == EXCEPTION ==> r.bps[k].modName == "" && r.bps[k].addr == address)
      && (t != EXCEPTION ==>
           var m := ModInfoFromAddr(layout, address);
           && r.bps[k].modName == (if m.Some? then FullName(m.value) else "")
           && r.bps[k].addr == address - if m.Some? then m.value.base else 0)
  {
    hide FindAt, ModHashFromAddr, ModInfoFromAddr;
    var r := New(s, hash, layout, t, address, memsize, details, readable, nameTaken);
    assert r.bps - {KeyAt(hash, layout, t, address)} == s.bps;
  }

  /** The reference that lists a new breakpoint is the one made from its address: the hash of its module, and
      its offset there. */
  lemma NewIsListed(s: Table, hash: Hash, layout: seq<Module>, t: int, address: Word, memsize: Word, details: Details,
                    readable: bool, nameTaken: bool)
    requires LayoutOk(layout) && 0 <= t <= 2
    requires New(s, hash, layout, t, address, memsize, details, readable, nameTaken) != s
    ensures var r := New(s, hash, layout, t, address, memsize, details, readable, nameTaken);
      var m := ModInfoFromAddr(layout, address);
      RefOf(hash, r.bps[KeyAt(hash, layout, t, address)]) == RefVa(hash, layout, t, address) ==
        if m.Some? then Ref(Some(t), hash(FullName(m.value)), address - m.value.base) else Ref(Some(t), 0, address)
  {
    hide FindAt, ModHashFromAddr, ModInfoFromAddr;
    NewEntry(s, hash, layout, t, address, memsize, details, readable, nameTaken);
  }

  /** Exceptions are listed by the lower half of their code, DLL breakpoints by their name's hash; an unknown type
      is listed as nothing. */
  lemma OthersAreListed(hash: Hash, b: Breakpoint)
    ensures b.bpType == EXCEPTION ==> RefOf(hash, b) == Ref(Some(4), 0, b.addr % 0x1_0000_0000)
    ensures b.bpType == DLL ==> RefOf(hash, b) == Ref(Some(3), BpGetDLLBpAddr(hash, b.modName), 0)
    ensures !(0 <= b.bpType <= 4) ==> RefOf(hash, b).refType == None
  {
  }

  /** A new breakpoint of any other type than memory is found by its address, under that type only. */
  lemma NewIsFound(s: Table, hash: Hash, layout: seq<Module>, t: int, address: Word, memsize: Word, details: Details,
                   readable: bool, nameTaken: bool, other: int)
    requires New(s, hash, layout, t, address, memsize, details, readable, nameTaken) != s && t != MEMORY
    ensures var r := New(s, hash, layout, t, address, memsize, details, readable, nameTaken);
      && FindAt(r.bps, hash, layout, t, address) == Some(KeyAt(hash, layout, t, address))
      && (other != t && other != MEMORY ==>
           FindAt(r.bps, hash, layout, other, address) == FindAt(s.bps, hash, layout, other, address))
  {
    hide FindMemory, ModHashFromAddr, NewBreakpoint;
  }

  /** A loaded breakpoint keeps what was stored. Only memory breakpoints have a size, only plain ones the bytes
      they replaced; it is not single-shot and has not been hit. An old file's break condition gives way to a
      command. */
  lemma LoadedKeeps(s: Table, hash: Hash, e: Stored, migrate: bool)
    ensures var r := LoadOne(s, hash, e, migrate);
      var b := Loaded(hash, e, migrate);
      && r.bps[KeyOfLoaded(hash, b)] == b
      && (forall k :: k in s.bps && k != KeyOfLoaded(hash, b) ==> k in r.bps && r.bps[k] == s.bps[k])
      && b.bpType == e.bpType && b.logFile == e.logFile
      && b.memsize == (if e.bpType == MEMORY then e.memsize else 0)
      && (e.bpType != DLL ==> b.addr == e.addr)
      && (e.bpType != DLL && e.bpType != EXCEPTION ==> b.modName == e.modName)
      && (e.bpType == EXCEPTION ==> b.modName == "")
      && b.details == e.details.(
           oldbytes := if e.bpType == NORMAL then e.details.oldbytes % 0x1_0000 else 0,
           singleshoot := false,
           hitcount := 0,
           commandCondition :=
             if migrate && e.details.commandText != "" && e.details.commandCondition != "" then "$breakpointcondition"
             else e.details.commandCondition)
  {
    hide AfterLast, ModHashFromName, Acquire, LostAt;
  }

  /** Changing the details or the log file of an entry changes nothing else of it, and no other entry. */
  lemma SettersKeep(s: Table, k: Key, details: Details, logFile: string)
    requires k in s.bps
    ensures SetDetails(s, Some(k), details) == s.(bps := s.bps[k := s.bps[k].(details := details)])
    ensures SetLogFile(s, Some(k), logFile).bps == s.bps[k := s.bps[k].(logFile := logFile)]
  {
    hide Acquire, Release;
  }

  /** The part of a path behind its last separator. */
  lemma {:induction false} AfterLastIs(s: string, separators: set<char>)
    ensures var r := AfterLast(s, separators);
      && |r| <= |s| && s[|s| - |r|..] == r
      && (forall i :: 0 <= i < |r| ==> r[i] !in separators)
      && (|r| < |s| ==> s[|s| - |r| - 1] in separators)
  {
    if s != "" && s[|s| - 1] !in separators {
      AfterLastIs(s[..|s| - 1], separators);
    }
  }

  /** DLL breakpoints are loaded, and found, by their file name alone. */
  lemma LoadedDll(hash: Hash, e: Stored, migrate: bool)
    requires e.bpType == DLL
    ensures var b := Loaded(hash, e, migrate);
      && b.modName == AfterLast(e.modName, {'\\'}) && KeyOfLoaded(hash, b) == Key(DLL, BpGetDLLBpAddr(hash, b.modName))
      && BpGetDLLBpAddr(hash, b.modName) == ModHashFromName(hash, AfterLast(b.modName, {'\\', '/'}))
  {
  }
}
