/** Loaded modules: address lookups, and the module-relative addresses used as keys. */
module Modules {
  import opened Options
  import opened Strings
  import opened Words

  datatype Module = Module(name: string, extension: string, base: Word, size: Word)

  /** The hash of a nonempty lower-case name. */
  type Hash = string -> Word

  function FullName(m: Module): string {
    m.name + m.extension
  }

  predicate Contains(m: Module, address: Word) {
    m.base <= address < m.base + m.size
  }

  function ModInfoFromAddr(layout: seq<Module>, address: Word): (r: Option<Module>)
    ensures r.Some? ==> r.value in layout && Contains(r.value, address)
    ensures r.None? ==> forall m :: m in layout ==> !Contains(m, address)
  {
    if layout == [] then None
    else if Contains(layout[0], address) then Some(layout[0])
    else ModInfoFromAddr(layout[1..], address)
  }

  /** Names are hashed in lower case; the empty name has hash zero. */
  function ModHashFromName(hash: Hash, name: string): Word {
    if name == "" then 0 else hash(Lower(name))
  }

  function ModBaseFromAddr(layout: seq<Module>, address: Word): Word {
    var m := ModInfoFromAddr(layout, address);
    if m.Some? then m.value.base else 0
  }

  function ModNameFromAddr(layout: seq<Module>, address: Word): string {
    var m := ModInfoFromAddr(layout, address);
    if m.Some? then FullName(m.value) else ""
  }

  function ModHashFromAddr(hash: Hash, layout: seq<Module>, address: Word): Word {
    var m := ModInfoFromAddr(layout, address);
    if m.Some? then Wrap(hash(FullName(m.value)) + (address - m.value.base)) else address
  }

  /** The first module with this full name, or else the first with this name before its extension. */
  function BaseFromName(layout: seq<Module>, name: string, candidate: Word): Word {
    if layout == [] then candidate
    else if Lower(FullName(layout[0])) == Lower(name) then layout[0].base
    else
      BaseFromName(layout[1..], name,
        if candidate == 0 && Lower(layout[0].name) == Lower(name) then layout[0].base else candidate)
  }

  function ModBaseFromName(layout: seq<Module>, name: string): Word {
    if name == "" then 0 else BaseFromName(layout, name, 0)
  }

  /** The module list keeps nonempty lower-case file names. */
  predicate LayoutOk(layout: seq<Module>) {
    forall m :: m in layout ==> FullName(m) != "" && Lower(FullName(m)) == FullName(m)
  }

  /** The hash of an address is the hash of its module's name plus the offset in the module. */
  lemma HashOfAddress(hash: Hash, layout: seq<Module>, address: Word)
    requires LayoutOk(layout)
    ensures ModHashFromAddr(hash, layout, address)
         == Wrap(ModHashFromName(hash, ModNameFromAddr(layout, address)) + (address - ModBaseFromAddr(layout, address)))
    ensures ModBaseFromAddr(layout, address) <= address
  {
  }

  predicate NoOverlap(layout: seq<Module>) {
    forall i, j :: 0 <= i < j < |layout| ==>
      layout[i].base + layout[i].size <= layout[j].base || layout[j].base + layout[j].size <= layout[i].base
  }

  /** Every address from a module's base on, for as many bytes as it has, is an address of that module, and no
      other address is in any module. */
  lemma AddressesOfModules(layout: seq<Module>, i: nat, offset: nat)
    requires NoOverlap(layout) && i < |layout| && offset < layout[i].size && layout[i].base + offset < WORD
    ensures var address := layout[i].base + offset;
      && ModInfoFromAddr(layout, address) == Some(layout[i])
      && ModBaseFromAddr(layout, address) == layout[i].base
      && ModNameFromAddr(layout, address) == layout[i].name + layout[i].extension
  {
    FirstContains(layout, i, layout[i].base + offset);
  }

  lemma {:induction false} FirstContains(layout: seq<Module>, i: nat, address: Word)
    requires i < |layout| && Contains(layout[i], address) && forall k :: 0 <= k < i ==> !Contains(layout[k], address)
    ensures ModInfoFromAddr(layout, address) == Some(layout[i])
  {
    hide Contains;
    if i > 0 {
      FirstContains(layout[1..], i - 1, address);
    }
  }

  lemma AddressesOutside(layout: seq<Module>, address: Word)
    requires forall i :: 0 <= i < |layout| ==> address < layout[i].base || address >= layout[i].base + layout[i].size
    ensures ModInfoFromAddr(layout, address) == None
    ensures ModBaseFromAddr(layout, address) == 0 && ModNameFromAddr(layout, address) == ""
  {
    if layout != [] {
      assert address < layout[0].base || address >= layout[0].base + layout[0].size;
      AddressesOutside(layout[1..], address);
    }
  }

  /** A name finds the first module with this full name and, failing that, the first with this name before its
      extension that has a base, ignoring case. */
  lemma BaseIsFirstMatch(layout: seq<Module>, name: string, i: nat)
    requires name != "" && i < |layout|
    requires forall k :: 0 <= k < i ==> Lower(FullName(layout[k])) != Lower(name)
    ensures Lower(FullName(layout[i])) == Lower(name) ==> ModBaseFromName(layout, name) == layout[i].base
    ensures
      && (forall k :: 0 <= k < |layout| ==> Lower(FullName(layout[k])) != Lower(name))
      && (forall k :: 0 <= k < i ==> Lower(layout[k].name) != Lower(name))
      && Lower(layout[i].name) == Lower(name) && layout[i].base != 0
      ==> ModBaseFromName(layout, name) == layout[i].base
    ensures
      && (forall k :: 0 <= k < |layout| ==> Lower(FullName(layout[k])) != Lower(name))
      && (forall k :: 0 <= k < |layout| ==> Lower(layout[k].name) != Lower(name))
      ==> ModBaseFromName(layout, name) == 0
  {
    hide Lower;
    FullMatch(layout, name, i, 0);
    PartMatch(layout, name, i);
    NoMatch(layout, name);
  }

  lemma {:induction false} FullMatch(layout: seq<Module>, name: string, i: nat, candidate: Word)
    requires i < |layout|
    requires forall k :: 0 <= k < i ==> Lower(FullName(layout[k])) != Lower(name)
    ensures Lower(FullName(layout[i])) == Lower(name) ==> BaseFromName(layout, name, candidate) == layout[i].base
  {
    hide Lower, FullName;
    if i > 0 {
      var next := if candidate == 0 && Lower(layout[0].name) == Lower(name) then layout[0].base else candidate;
      FullMatch(layout[1..], name, i - 1, next);
    }
  }

  predicate NoFullName(layout: seq<Module>, name: string) {
    forall k :: 0 <= k < |layout| ==> Lower(FullName(layout[k])) != Lower(name)
  }

  lemma {:induction false} KeepsCandidate(layout: seq<Module>, name: string, candidate: Word)
    requires NoFullName(layout, name)
    ensures candidate != 0 ==> BaseFromName(layout, name, candidate) == candidate
    ensures (forall k :: 0 <= k < |layout| ==> Lower(layout[k].name) != Lower(name)) ==>
      BaseFromName(layout, name, candidate) == candidate
  {
    hide Lower, FullName;
    if layout != [] {
      KeepsCandidate(layout[1..], name, candidate);
      assert forall k :: 0 <= k < |layout| - 1 ==> layout[1..][k] == layout[k + 1];
    }
  }

  lemma {:induction false} PartMatch(layout: seq<Module>, name: string, i: nat)
    requires i < |layout|
    ensures NoFullName(layout, name) && (forall k :: 0 <= k < i ==> Lower(layout[k].name) != Lower(name))
      && Lower(layout[i].name) == Lower(name) && layout[i].base != 0
      ==> BaseFromName(layout, name, 0) == layout[i].base
  {
    hide Lower, FullName;
    if NoFullName(layout, name) {
      assert NoFullName(layout[1..], name);
      if i > 0 {
        PartMatch(layout[1..], name, i - 1);
      } else {
        KeepsCandidate(layout[1..], name, layout[0].base);
      }
    }
  }

  lemma NoMatch(layout: seq<Module>, name: string)
    ensures NoFullName(layout, name) && (forall k :: 0 <= k < |layout| ==> Lower(layout[k].name) != Lower(name)) ==>
      BaseFromName(layout, name, 0) == 0
  {
    hide Lower, FullName, BaseFromName;
    if NoFullName(layout, name) {
      KeepsCandidate(layout, name, 0);
    }
  }
}
