/** The breakpoint table as the debugger changes it. */
module BreakpointTable {
  import opened Options
  import opened Strings
  import opened Words
  import opened Modules
  import opened Breakpoints
  import opened BreakpointLookup

  class BreakpointList {
    const hash: Hash
    var breakpoints: map<Key, Breakpoint>
    var breakpointLogFiles: map<string, nat>
    ghost var lost: multiset<string>

    ghost function View(): Table
      reads this
    {
      Table(breakpoints, breakpointLogFiles, lost)
    }

    /** Every entry is kept under the key that follows from it, and every log file has its exact count. */
    ghost predicate Valid()
      reads this
    {
      TableOk(hash, View())
    }

    constructor (hash: Hash)
      ensures Valid() && View() == EMPTY && this.hash == hash
    {
      this.hash := hash;
      breakpoints := map[];
      breakpointLogFiles := map[];
      lost := multiset{};
      new;
      EmptyIsOk(hash);
    }

    method BpLogFileAcquire(logFile: string)
      modifies this`breakpointLogFiles
      ensures breakpointLogFiles == Acquire(old(breakpointLogFiles), logFile)
    {
      if logFile != "" {
        var f := Lower(logFile);
        if f !in breakpointLogFiles {
          breakpointLogFiles := breakpointLogFiles[f := 0];
        }
        breakpointLogFiles := breakpointLogFiles[f := breakpointLogFiles[f] + 1];
      }
    }

    method BpLogFileRelease(logFile: string)
      modifies this`breakpointLogFiles
      ensures breakpointLogFiles == Release(old(breakpointLogFiles), logFile)
    {
      if logFile == "" {
        return;
      }
      var f := Lower(logFile);
      if f !in breakpointLogFiles {
        return;
      }
      if breakpointLogFiles[f] <= 1 {
        breakpointLogFiles := breakpointLogFiles - {f};
      } else {
        breakpointLogFiles := breakpointLogFiles[f := breakpointLogFiles[f] - 1];
      }
    }

    /** One step back from the upper bound, in the order of the keys. */
    method BeforeUpperBound(key: Key) returns (r: Option<Key>)
      ensures r == LastUpTo(breakpoints, key)
    {
      var keys := breakpoints.Keys;
      r := None;
      while keys != {}
        invariant keys <= breakpoints.Keys
        invariant r.None? ==> forall q :: q in breakpoints.Keys - keys ==> !NotAfter(q, key)
        invariant r.Some? ==> r.value in breakpoints && NotAfter(r.value, key)
        invariant r.Some? ==> forall q :: q in breakpoints.Keys - keys && NotAfter(q, key) ==> NotAfter(q, r.value)
        decreases |keys|
      {
        var k :| k in keys;
        keys := keys - {k};
        if NotAfter(k, key) && (r.None? || NotAfter(r.value, k)) {
          r := Some(k);
        }
      }
      if r.Some? {
        assert IsLast(breakpoints, key, r.value);
        LastIsUnique(breakpoints, key, r.value);
      }
    }

    method FindMemoryBreakpoint(layout: seq<Module>, address: Word) returns (found: Option<Key>)
      ensures found == FindMemory(breakpoints, hash, layout, address)
    {
      hide LastUpTo, ModHashFromAddr, ModBaseFromAddr;
      var it := BeforeUpperBound(Key(MEMORY, ModHashFromAddr(hash, layout, address)));
      if it.Some? && it.value in breakpoints && it.value.bpType == MEMORY {
        var bp := breakpoints[it.value];
        var bpStart := Wrap(ModBaseFromAddr(layout, address) + bp.addr);
        var bpEnd := Wrap(bpStart + bp.memsize);
        if bpStart <= address < bpEnd {
          return it;
        }
      }
      return None;
    }

    method BpInfoFromAddr(layout: seq<Module>, t: int, address: Word) returns (found: Option<Key>)
      ensures found == FindAt(breakpoints, hash, layout, t, address)
    {
      hide FindMemory;
      if t == MEMORY {
        found := FindMemoryBreakpoint(layout, address);
      } else if t != DLL && t != EXCEPTION {
        var k := Key(t, ModHashFromAddr(hash, layout, address));
        found := if k in breakpoints then Some(k) else None;
      } else {
        found := if Key(t, address) in breakpoints then Some(Key(t, address)) else None;
      }
    }

    method BpNew(layout: seq<Module>, t: int, address: Word, memsize: Word, details: Details, readable: bool, nameTaken: bool)
      returns (ok: bool)
      requires Valid() && LayoutOk(layout) && t != DLL
      modifies this
      ensures Valid()
      ensures View() == New(old(View()), hash, layout, t, address, memsize, details, readable, nameTaken)
      ensures ok <==> View() != old(View())
    {
      hide FindAt, TableOk, LayoutOk, ModHashFromAddr, ModNameFromAddr;
      NewKeepsOk(View(), hash, layout, t, address, memsize, details, readable, nameTaken);
      if t != EXCEPTION && !readable {
        return false;
      }
      var taken := nameTaken;
      if details.name == "" {
        var info := BpInfoFromAddr(layout, t, address);
        taken := info.Some?;
      }
      if taken {
        return false;
      }
      var bp := Breakpoint(t, address, "", memsize, "", details);
      if t != EXCEPTION {
        bp := bp.(modName := ModNameFromAddr(layout, address), addr := address - ModBaseFromAddr(layout, address));
      }
      if t != EXCEPTION {
        ok := Emplace(Key(t, ModHashFromAddr(hash, layout, address)), bp);
      } else {
        ok := Emplace(Key(t, address), bp);
      }
    }

    /** Inserts unless the key is taken. */
    method Emplace(k: Key, bp: Breakpoint) returns (ok: bool)
      modifies this
      ensures ok <==> k !in old(breakpoints)
      ensures View() == if ok then Put(old(View()), k, bp) else old(View())
    {
      ok := k !in breakpoints;
      if ok {
        breakpoints := breakpoints[k := bp];
      }
    }

    method BpNewDll(modName: string, details: Details) returns (ok: bool)
      requires Valid()
      modifies this
      ensures Valid()
      ensures View() == NewDll(old(View()), hash, modName, details)
      ensures ok <==> Key(DLL, BpGetDLLBpAddr(hash, modName)) !in old(breakpoints)
    {
      hide TableOk, LayoutOk;
      ApplyKeepsOk(View(), hash, [], OpNewDll(modName, details));
      var addr := BpGetDLLBpAddr(hash, modName);
      ok := Emplace(Key(DLL, addr), Breakpoint(DLL, addr, modName, 0, "", details));
    }

    method safeDelete(k: Key) returns (ok: bool)
      requires Valid()
      modifies this
      ensures Valid()
      ensures ok <==> k in old(breakpoints)
      ensures View() == SafeDelete(old(View()), k)
    {
      hide TableOk, Release;
      DeleteKeepsOk(View(), hash, k);
      if k !in breakpoints {
        return false;
      }
      BpLogFileRelease(breakpoints[k].logFile);
      breakpoints := breakpoints - {k};
      return true;
    }

    method BpDelete(layout: seq<Module>, t: int, address: Word) returns (ok: bool)
      requires Valid()
      modifies this
      ensures Valid()
      ensures ok <==> KeyAt(hash, layout, t, address) in old(breakpoints)
      ensures View() == DeleteAt(old(View()), hash, layout, t, address)
    {
      hide TableOk;
      if t != DLL && t != EXCEPTION {
        ok := safeDelete(Key(t, ModHashFromAddr(hash, layout, address)));
      } else {
        ok := safeDelete(Key(t, address));
      }
    }

    method BpDeleteCopy(layout: seq<Module>, bp: Breakpoint) returns (ok: bool)
      requires Valid()
      modifies this
      ensures Valid()
      ensures ok <==> KeyOfCopy(hash, layout, bp) in old(breakpoints)
      ensures View() == DeleteCopy(old(View()), hash, layout, bp)
    {
      hide TableOk;
      if bp.bpType == DLL || bp.bpType == EXCEPTION || bp.modName == "" {
        ok := safeDelete(Key(bp.bpType, bp.addr));
        return;
      }
      var rva := bp.addr;
      var loadedBase := ModBaseFromName(layout, bp.modName);
      if loadedBase != 0 && bp.addr >= loadedBase {
        rva := rva - loadedBase;
      }
      ok := safeDelete(Key(bp.bpType, Wrap(ModHashFromName(hash, bp.modName) + rva)));
    }

    /** Any of the setters that rewrite one plain field. */
    method BpSetDetails(found: Option<Key>, details: Details) returns (ok: bool)
      requires Valid()
      modifies this
      ensures Valid()
      ensures View() == SetDetails(old(View()), found, details)
      ensures ok <==> found.Some? && found.value in old(breakpoints)
    {
      hide TableOk;
      DetailsKeepOk(View(), hash, found, details);
      if found.None? || found.value !in breakpoints {
        return false;
      }
      breakpoints := breakpoints[found.value := breakpoints[found.value].(details := details)];
      return true;
    }

    method BpSetLogFile(found: Option<Key>, logFile: string) returns (ok: bool)
      requires Valid()
      modifies this
      ensures Valid()
      ensures View() == SetLogFile(old(View()), found, logFile)
      ensures ok <==> found.Some? && found.value in old(breakpoints)
    {
      hide TableOk, Acquire, Release;
      LogFileKeepsOk(View(), hash, found, logFile);
      if found.None? || found.value !in breakpoints {
        return false;
      }
      var bp := breakpoints[found.value];
      BpLogFileAcquire(logFile);
      BpLogFileRelease(bp.logFile);
      breakpoints := breakpoints[found.value := bp.(logFile := logFile)];
      return true;
    }

    method BpCacheLoad(entries: seq<Stored>, migrate: bool)
      requires Valid()
      modifies this
      ensures Valid()
      ensures View() == Load(old(View()), hash, entries, migrate)
    {
      hide LoadOne, TableOk, LayoutOk;
      ApplyKeepsOk(View(), hash, [], OpLoad(entries, migrate));
      for i := 0 to |entries|
        invariant View() == Load(old(View()), hash, entries[..i], migrate)
      {
        assert entries[..i + 1][..i] == entries[..i];
        LoadEntry(entries[i], migrate);
      }
      assert entries[..|entries|] == entries;
    }

    method LoadEntry(e: Stored, migrate: bool)
      modifies this
      ensures View() == LoadOne(old(View()), hash, e, migrate)
    {
      hide Acquire, Loaded, KeyOfLoaded, LostAt;
      ghost var before := View();
      BpLogFileAcquire(e.logFile);
      var bp, key := ReadEntry(e, migrate);
      lost := lost + LostAt(before, key);
      breakpoints := breakpoints[key := bp];
    }

    /** The breakpoint that a stored entry describes, and its key. */
    method ReadEntry(e: Stored, migrate: bool) returns (bp: Breakpoint, key: Key)
      ensures bp == Loaded(hash, e, migrate) && key == KeyOfLoaded(hash, bp)
    {
      hide AfterLast, BpGetDLLBpAddr, ModHashFromName;
      var oldbytes: nat, memsize: Word, modName, addr := 0, 0, "", e.addr;
      if e.bpType == NORMAL {
        oldbytes := e.details.oldbytes % 0x1_0000;
      } else if e.bpType == MEMORY {
        memsize := e.memsize;
      }
      if e.bpType != EXCEPTION {
        modName := e.modName;
      }
      var details := e.details.(oldbytes := oldbytes, singleshoot := false, hitcount := 0);
      if migrate && details.commandText != "" && details.commandCondition != "" {
        details := details.(commandCondition := "$breakpointcondition");
      }
      if e.bpType != DLL {
        key := Key(e.bpType, Wrap(ModHashFromName(hash, modName) + addr));
      } else {
        modName := AfterLast(modName, {'\\'});
        addr := BpGetDLLBpAddr(hash, modName);
        key := Key(DLL, addr);
      }
      bp := Breakpoint(e.bpType, addr, modName, memsize, e.logFile, details);
    }

    method BpClear()
      modifies this
      ensures Valid() && View() == EMPTY
    {
      EmptyIsOk(hash);
      breakpoints := map[];
      breakpointLogFiles := map[];
      lost := multiset{};
    }

    /** A reference for every entry, in some order. */
    method BpRefList() returns (refs: seq<Ref>)
      ensures exists order: seq<Key> :: ListedBy(refs, order)
    {
      hide RefOf;
      var keys := breakpoints.Keys;
      ghost var order: seq<Key> := [];
      refs := [];
      while keys != {}
        invariant keys <= breakpoints.Keys && |refs| == |order| == |breakpoints| - |keys|
        invariant forall i :: 0 <= i < |order| ==> order[i] in breakpoints.Keys - keys
        invariant forall i :: 0 <= i < |order| ==> refs[i] == RefOf(hash, breakpoints[order[i]])
        invariant forall i, j :: 0 <= i < j < |order| ==> order[i] != order[j]
        decreases |keys|
      {
        var k :| k in keys;
        keys := keys - {k};
        refs, order := refs + [RefOf(hash, breakpoints[k])], order + [k];
      }
      assert ListedBy(refs, order);
    }

    /** The references are those of the entries in this order, each once. */
    ghost predicate ListedBy(refs: seq<Ref>, order: seq<Key>)
      reads this
    {
      && |refs| == |order| == |breakpoints|
      && (forall i :: 0 <= i < |order| ==> order[i] in breakpoints && refs[i] == RefOf(hash, breakpoints[order[i]]))
      && forall i, j :: 0 <= i < j < |order| ==> order[i] != order[j]
    }
  }
}
