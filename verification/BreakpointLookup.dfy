/** Looking up the memory breakpoint that covers an address: one step back in the ordered table
    instead of a scan. */
module BreakpointLookup {
  import opened Options
  import opened Strings
  import opened Words
  import opened Modules
  import opened Breakpoints

  lemma LastIsUnique(bps: map<Key, Breakpoint>, key: Key, k: Key)
    requires IsLast(bps, key, k)
    ensures LastUpTo(bps, key) == Some(k)
  {
    forall x | IsLast(bps, key, x)
      ensures x == k
    {
      assert NotAfter(x, k) && NotAfter(k, x);
    }
  }

  lemma {:induction false} LastExists(bps: map<Key, Breakpoint>, key: Key, k: Key, above: set<Key>)
    requires k in bps && NotAfter(k, key)
    requires above == set q | q in bps && !NotAfter(q, k)
    ensures LastUpTo(bps, key).Some? && IsLast(bps, key, LastUpTo(bps, key).value)
    decreases |above|
  {
    if IsLast(bps, key, k) {
      LastIsUnique(bps, key, k);
    } else {
      var q :| q in bps && NotAfter(q, key) && !NotAfter(q, k);
      var higher := set x | x in bps && !NotAfter(x, q);
      assert higher <= above && q in above && q !in higher;
      assert higher < above;
      SmallerSet(higher, above);
      LastExists(bps, key, q, higher);
    }
  }

  lemma {:induction false} SmallerSet<T>(x: set<T>, y: set<T>)
    requires x < y
    ensures |x| < |y|
  {
    assert y == x + (y - x);
    assert y - x != {};
  }

  /** A memory breakpoint in the module that contains the address, or outside all modules like the address. */
  predicate Own(layout: seq<Module>, address: Word, b: Breakpoint) {
    b.bpType == MEMORY && Lower(b.modName) == ModNameFromAddr(layout, address)
  }

  /** The address as an offset in its module. */
  function OffsetOf(layout: seq<Module>, address: Word): int {
    address - ModBaseFromAddr(layout, address)
  }

  /** Nothing wraps around: neither the keys of the address's module up to the address nor the extents
      of its breakpoints, none of which is empty. */
  predicate Fits(bps: map<Key, Breakpoint>, hash: Hash, layout: seq<Module>, address: Word) {
    var name, base := ModNameFromAddr(layout, address), ModBaseFromAddr(layout, address);
    && ModHashFromName(hash, name) + OffsetOf(layout, address) < WORD
    && forall k :: k in bps && Own(layout, address, bps[k]) ==>
        var b := bps[k];
        b.memsize > 0 && base + b.addr + b.memsize < WORD && ModHashFromName(hash, name) + b.addr < WORD
  }

  predicate Disjoint(bps: map<Key, Breakpoint>, layout: seq<Module>, address: Word) {
    forall i, j :: i in bps && j in bps && i != j && Own(layout, address, bps[i]) && Own(layout, address, bps[j]) ==>
      bps[i].addr + bps[i].memsize <= bps[j].addr || bps[j].addr + bps[j].memsize <= bps[i].addr
  }

  /** The hash ranges do not overlap: between the start of the module's range and the address's key lie
      only keys of that module. */
  predicate RangeIsOwn(bps: map<Key, Breakpoint>, hash: Hash, layout: seq<Module>, address: Word) {
    forall k :: k in bps && k.bpType == MEMORY &&
      ModHashFromName(hash, ModNameFromAddr(layout, address)) <= k.addr <= ModHashFromAddr(hash, layout, address)
      ==> Own(layout, address, bps[k])
  }

  /** What a linear scan over the address's own breakpoints looks for. */
  predicate Hit(layout: seq<Module>, address: Word, b: Breakpoint) {
    Own(layout, address, b) && b.addr <= OffsetOf(layout, address) < b.addr + b.memsize
  }

  /** Whenever the address's own space has a breakpoint at or below the address, the lookup agrees
      with a linear scan: it returns the breakpoint that covers the address, and nothing if none does. */
  lemma LookupIsScan(bps: map<Key, Breakpoint>, hash: Hash, layout: seq<Module>, address: Word, below: Key, k: Key)
    requires LayoutOk(layout) && KeysOk(hash, bps)
    requires Fits(bps, hash, layout, address) && Disjoint(bps, layout, address) && RangeIsOwn(bps, hash, layout, address)
    requires below in bps && Own(layout, address, bps[below]) && bps[below].addr <= OffsetOf(layout, address)
    ensures FindMemory(bps, hash, layout, address) == Some(k) <==> k in bps && Hit(layout, address, bps[k])
  {
    hide ModHashFromName, ModNameFromAddr, ModBaseFromAddr, ModHashFromAddr, LayoutOk, LastUpTo, Covers;
    hide KeysOk, Fits, Disjoint, RangeIsOwn;
    var key := Key(MEMORY, ModHashFromAddr(hash, layout, address));
    OwnKey(bps, hash, layout, address, below);
    LastExists(bps, key, below, set q | q in bps && !NotAfter(q, below));
    var last := LastUpTo(bps, key).value;
    assert NotAfter(below, last) && NotAfter(last, key);
    LastIsOwn(bps, hash, layout, address, below, last);
    CoversIsHit(bps, hash, layout, address, last);
    if k in bps && Hit(layout, address, bps[k]) {
      OwnKey(bps, hash, layout, address, k);
      assert NotAfter(k, last);
      HitIsLast(bps, hash, layout, address, last, k);
    }
  }

  /** A covering breakpoint is never missed. */
  lemma NoHitIsMissed(bps: map<Key, Breakpoint>, hash: Hash, layout: seq<Module>, address: Word, k: Key)
    requires LayoutOk(layout) && KeysOk(hash, bps)
    requires Fits(bps, hash, layout, address) && Disjoint(bps, layout, address) && RangeIsOwn(bps, hash, layout, address)
    requires k in bps && Hit(layout, address, bps[k])
    ensures FindMemory(bps, hash, layout, address) == Some(k)
  {
    hide FindMemory, LayoutOk, KeysOk, Fits, Disjoint, RangeIsOwn;
    LookupIsScan(bps, hash, layout, address, k, k);
  }

  /** So a memory breakpoint without a name is not added where another one already covers the address. */
  lemma CoveredIsTaken(s: Table, hash: Hash, layout: seq<Module>, address: Word, memsize: Word, details: Details,
                       readable: bool, nameTaken: bool, k: Key)
    requires LayoutOk(layout) && KeysOk(hash, s.bps)
    requires Fits(s.bps, hash, layout, address) && Disjoint(s.bps, layout, address) && RangeIsOwn(s.bps, hash, layout, address)
    requires k in s.bps && Hit(layout, address, s.bps[k]) && details.name == ""
    ensures New(s, hash, layout, MEMORY, address, memsize, details, readable, nameTaken) == s
  {
    hide New, FindMemory, LayoutOk, KeysOk, Fits, Disjoint, RangeIsOwn, Hit;
    NoHitIsMissed(s.bps, hash, layout, address, k);
    NewAddsIff(s, hash, layout, MEMORY, address, memsize, details, readable, nameTaken);
  }

  lemma OwnKey(bps: map<Key, Breakpoint>, hash: Hash, layout: seq<Module>, address: Word, k: Key)
    requires LayoutOk(layout) && KeysOk(hash, bps) && Fits(bps, hash, layout, address)
    requires k in bps && Own(layout, address, bps[k])
    ensures k == Key(MEMORY, ModHashFromName(hash, ModNameFromAddr(layout, address)) + bps[k].addr)
    ensures ModHashFromAddr(hash, layout, address)
         == ModHashFromName(hash, ModNameFromAddr(layout, address)) + OffsetOf(layout, address)
  {
    hide ModHashFromName, ModNameFromAddr, ModBaseFromAddr, ModHashFromAddr, LayoutOk;
    HashOfAddress(hash, layout, address);
    assert KeyOk(hash, k, bps[k]);
    SameHash(hash, layout, address, bps[k].modName);
    WrapSmall(ModHashFromName(hash, ModNameFromAddr(layout, address)) + bps[k].addr);
    WrapSmall(ModHashFromName(hash, ModNameFromAddr(layout, address)) + OffsetOf(layout, address));
  }

  lemma SameHash(hash: Hash, layout: seq<Module>, address: Word, name: string)
    requires LayoutOk(layout) && Lower(name) == ModNameFromAddr(layout, address)
    ensures ModHashFromName(hash, name) == ModHashFromName(hash, ModNameFromAddr(layout, address))
  {
  }

  lemma WrapSmall(x: int)
    requires 0 <= x < WORD
    ensures Wrap(x) == x
  {
  }

  lemma LastIsOwn(bps: map<Key, Breakpoint>, hash: Hash, layout: seq<Module>, address: Word, below: Key, last: Key)
    requires LayoutOk(layout) && KeysOk(hash, bps)
    requires Fits(bps, hash, layout, address) && RangeIsOwn(bps, hash, layout, address)
    requires below in bps && Own(layout, address, bps[below]) && last in bps
    requires NotAfter(below, last) && NotAfter(last, Key(MEMORY, ModHashFromAddr(hash, layout, address)))
    ensures last.bpType == MEMORY && Own(layout, address, bps[last])
  {
    hide ModHashFromName, ModNameFromAddr, ModBaseFromAddr, ModHashFromAddr, LayoutOk, KeysOk, Fits, Own;
    OwnKey(bps, hash, layout, address, below);
  }

  lemma CoversIsHit(bps: map<Key, Breakpoint>, hash: Hash, layout: seq<Module>, address: Word, k: Key)
    requires Fits(bps, hash, layout, address) && k in bps && Own(layout, address, bps[k])
    ensures Covers(bps[k], ModBaseFromAddr(layout, address), address) <==> Hit(layout, address, bps[k])
  {
    hide ModHashFromName, ModNameFromAddr, ModBaseFromAddr;
    var base, b := ModBaseFromAddr(layout, address), bps[k];
    WrapSmall(base + b.addr);
    WrapSmall(base + b.addr + b.memsize);
  }

  lemma HitIsLast(bps: map<Key, Breakpoint>, hash: Hash, layout: seq<Module>, address: Word, last: Key, k: Key)
    requires LayoutOk(layout) && KeysOk(hash, bps) && Fits(bps, hash, layout, address) && Disjoint(bps, layout, address)
    requires last in bps && Own(layout, address, bps[last])
    requires NotAfter(last, Key(MEMORY, ModHashFromAddr(hash, layout, address)))
    requires k in bps && Hit(layout, address, bps[k]) && NotAfter(k, last)
    ensures k == last
  {
    hide ModHashFromName, ModNameFromAddr, ModBaseFromAddr, ModHashFromAddr, LayoutOk, KeysOk;
    OwnKey(bps, hash, layout, address, k);
    OwnKey(bps, hash, layout, address, last);
  }

  /** A new memory breakpoint is found at its address exactly if it is not empty and does not reach
      the end of the address space. */
  lemma NewMemoryIsFoundIff(s: Table, hash: Hash, layout: seq<Module>, address: Word, memsize: Word, details: Details,
                            nameTaken: bool)
    requires LayoutOk(layout) && New(s, hash, layout, MEMORY, address, memsize, details, true, nameTaken) != s
    ensures var r := New(s, hash, layout, MEMORY, address, memsize, details, true, nameTaken);
      var found := FindMemory(r.bps, hash, layout, address) == Some(KeyAt(hash, layout, MEMORY, address));
      found <==> memsize > 0 && address + memsize < WORD
  {
    hide ModHashFromAddr, ModNameFromAddr, ModBaseFromAddr, LayoutOk, FindAt, LastUpTo;
    HashOfAddress(hash, layout, address);
    var k := KeyAt(hash, layout, MEMORY, address);
    var r := New(s, hash, layout, MEMORY, address, memsize, details, true, nameTaken);
    assert IsLast(r.bps, k, k);
    LastIsUnique(r.bps, k, k);
    WrapOfSum(address, memsize);
  }

  /** The address's own space has a breakpoint that starts at or below it. */
  ghost predicate OwnBelow(bps: map<Key, Breakpoint>, layout: seq<Module>, address: Word) {
    exists k :: k in bps && Own(layout, address, bps[k]) && bps[k].addr <= OffsetOf(layout, address)
  }

  /** The entry in front of the upper bound is a memory breakpoint that covers the address when its offset
      is counted from the address's own module. */
  ghost predicate LastCovers(bps: map<Key, Breakpoint>, hash: Hash, layout: seq<Module>, address: Word) {
    exists k :: k in bps && IsLast(bps, Key(MEMORY, ModHashFromAddr(hash, layout, address)), k)
      && k.bpType == MEMORY && Covers(bps[k], ModBaseFromAddr(layout, address), address)
  }

  ghost predicate AgreesWithScan(bps: map<Key, Breakpoint>, hash: Hash, layout: seq<Module>, address: Word) {
    forall k :: FindMemory(bps, hash, layout, address) == Some(k) <==> k in bps && Hit(layout, address, bps[k])
  }

  /** Exactly when the lookup agrees with a linear scan: if the address's own space has a breakpoint at or
      below the address, or the entry in front of the upper bound does not seem to cover the address. */
  lemma LookupIsScanIff(bps: map<Key, Breakpoint>, hash: Hash, layout: seq<Module>, address: Word)
    requires LayoutOk(layout) && KeysOk(hash, bps)
    requires Fits(bps, hash, layout, address) && Disjoint(bps, layout, address) && RangeIsOwn(bps, hash, layout, address)
    ensures AgreesWithScan(bps, hash, layout, address)
       <==> OwnBelow(bps, layout, address) || !LastCovers(bps, hash, layout, address)
  {
    hide ModHashFromName, ModNameFromAddr, ModBaseFromAddr, ModHashFromAddr, LayoutOk, LastUpTo, Covers, Own, IsLast;
    hide KeysOk, Fits, Disjoint, RangeIsOwn;
    if OwnBelow(bps, layout, address) {
      var below :| below in bps && Own(layout, address, bps[below]) && bps[below].addr <= OffsetOf(layout, address);
      forall k
        ensures FindMemory(bps, hash, layout, address) == Some(k) <==> k in bps && Hit(layout, address, bps[k])
      {
        LookupIsScan(bps, hash, layout, address, below, k);
      }
    } else {
      var key := Key(MEMORY, ModHashFromAddr(hash, layout, address));
      if LastCovers(bps, hash, layout, address) {
        var base := ModBaseFromAddr(layout, address);
        var k :| k in bps && IsLast(bps, key, k) && k.bpType == MEMORY && Covers(bps[k], base, address);
        LastIsUnique(bps, key, k);
        assert FindMemory(bps, hash, layout, address) == Some(k) && !Hit(layout, address, bps[k]);
      } else {
        FoundIsLast(bps, hash, layout, address);
      }
    }
  }

  lemma FoundIsLast(bps: map<Key, Breakpoint>, hash: Hash, layout: seq<Module>, address: Word)
    ensures FindMemory(bps, hash, layout, address).Some? ==> LastCovers(bps, hash, layout, address)
  {
    hide ModHashFromAddr, ModBaseFromAddr, Covers, IsLast;
  }

  /** The lookup does not compare modules: an address without a breakpoint of its own is matched by another
      module's breakpoint, whenever that module's name has the smaller hash and its breakpoint spans the
      same offset. */
  lemma ForeignMatch(hash: Hash, other: string, m: Module, rva: Word, memsize: Word, address: Word, details: Details)
    requires LayoutOk([m]) && Modules.Contains(m, address) && other != "" && Lower(other) == other != FullName(m)
    requires hash(other) < hash(FullName(m)) && hash(FullName(m)) + (address - m.base) < WORD
    requires rva <= address - m.base < rva + memsize && m.base + rva + memsize < WORD
    ensures
      var k := Key(MEMORY, hash(other) + rva);
      var b := Breakpoint(MEMORY, rva, other, memsize, "", details);
      && KeysOk(hash, map[k := b])
      && FindMemory(map[k := b], hash, [m], address) == Some(k)
      && !Own([m], address, b)
  {
    hide LastUpTo, Lower;
    var k := Key(MEMORY, hash(other) + rva);
    var b := Breakpoint(MEMORY, rva, other, memsize, "", details);
    var bps := map[k := b];
    assert ModInfoFromAddr([m], address) == Some(m) by { OnlyModule(m, address); }
    WrapSmall(hash(other) + rva);
    WrapSmall(hash(FullName(m)) + (address - m.base));
    var key := Key(MEMORY, ModHashFromAddr(hash, [m], address));
    assert IsLast(bps, key, k);
    LastIsUnique(bps, key, k);
    WrapSmall(m.base + rva);
    WrapSmall(m.base + rva + memsize);
  }

  lemma OnlyModule(m: Module, address: Word)
    requires Modules.Contains(m, address)
    ensures ModInfoFromAddr([m], address) == Some(m)
  {
  }
}
