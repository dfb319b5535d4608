/** Per-byte execution counters of traced pages: one bit, six bits or fourteen bits wide, each
    stopping at its maximum. */
module HitCounters {
  const PAGE: nat := 4096

  datatype Kind = NoRecord | BitExec | ByteCounter | WordCounter

  function Cap(kind: Kind): nat {
    match kind
    case NoRecord => 0
    case BitExec => 1
    case ByteCounter => 63
    case WordCounter => 16383
  }

  function Min(x: nat, y: nat): nat {
    if x < y then x else y
  }

  function PageOf(address: nat): nat {
    address - address % PAGE
  }

  // ----- what the counters mean -----

  datatype Event = Execute(address: nat, size: nat) | SetType(address: nat, kind: Kind) | Clear

  function KindAfter(events: seq<Event>, page: nat): Kind {
    if events == [] then NoRecord
    else
      var before := KindAfter(events[..|events| - 1], page);
      match events[|events| - 1]
      case Execute(_, _) => before
      case SetType(address, kind) =>
        if PageOf(address) == page && (before == NoRecord || kind == NoRecord) then kind else before
      case Clear => NoRecord
  }

  predicate Covers(address: nat, size: nat, b: nat) {
    address <= b < address + size
  }

  /** How often a byte was executed, by instructions that start on a traced page, since its own page
      was last switched on. */
  function Hits(events: seq<Event>, b: nat): nat {
    if events == [] then 0
    else
      var front := events[..|events| - 1];
      match events[|events| - 1]
      case Execute(address, size) =>
        Hits(front, b) + if KindAfter(front, PageOf(address)) != NoRecord && Covers(address, size, b) then 1 else 0
      case SetType(address, kind) =>
        if PageOf(address) == PageOf(b) && (KindAfter(front, PageOf(b)) == NoRecord || kind == NoRecord) then 0
        else Hits(front, b)
      case Clear => 0
  }

  /** Recording an execution that crosses into the next page as two executions changes a byte's count
      exactly if the byte is in the second half and the next page is not traced. */
  lemma SplitIsNeutral(events: seq<Event>, address: nat, size: nat, b: nat)
    requires KindAfter(events, PageOf(address)) != NoRecord
    requires address + size > PageOf(address) + PAGE && size < 0x100
    ensures var next := PageOf(address) + PAGE;
      var whole := Hits(events + [Execute(address, size)], b);
      var halves := Hits(events + [Execute(address, next - address)] + [Execute(next, address + size - next)], b);
      whole == halves <==> KindAfter(events, next) != NoRecord || !Covers(next, address + size - next, b)
  {
    hide PageOf, Hits, KindAfter;
    OffsetInPage(address);
    var next := PageOf(address) + PAGE;
    ExecuteHits(events, address, size, b);
    ExecuteHits(events, address, next - address, b);
    ExecuteHits(events + [Execute(address, next - address)], next, address + size - next, b);
  }

  lemma ExecuteHits(events: seq<Event>, address: nat, size: nat, b: nat)
    ensures Hits(events + [Execute(address, size)], b) ==
      Hits(events, b) + if KindAfter(events, PageOf(address)) != NoRecord && Covers(address, size, b) then 1 else 0
    ensures forall p: nat :: KindAfter(events + [Execute(address, size)], p) == KindAfter(events, p)
  {
    assert (events + [Execute(address, size)])[..|events|] == events;
  }

  // ----- one page -----

  type Byte = x: nat | x < 0x100
  type Short = x: nat | x < 0x1_0000

  datatype Page = BitPage(bits: array<bv8>) | BytePage(bytes: array<Byte>) | WordPage(words: array<Short>)

  function KindOf(page: Page): Kind {
    match page
    case BitPage(_) => BitExec
    case BytePage(_) => ByteCounter
    case WordPage(_) => WordCounter
  }

  function Raw(page: Page): object {
    match page
    case BitPage(bits) => bits as object
    case BytePage(bytes) => bytes as object
    case WordPage(words) => words as object
  }

  predicate SizeOk(page: Page) {
    match page
    case BitPage(bits) => bits.Length == PAGE / 8
    case BytePage(bytes) => bytes.Length == PAGE
    case WordPage(words) => words.Length == PAGE
  }

  /** The bit at this place of a byte. */
  function Mask(j: nat): bv8
    requires j < 8
  {
    if j == 0 then 1 else if j == 1 then 2 else if j == 2 then 4 else if j == 3 then 8
    else if j == 4 then 16 else if j == 5 then 32 else if j == 6 then 64 else 128
  }

  /** The counter of one byte of the page. */
  function CountIn(page: Page, k: nat): nat
    requires SizeOk(page) && k < PAGE
    reads Raw(page)
  {
    match page
    case BitPage(bits) => if bits[k / 8] & Mask(k % 8) != 0 then 1 else 0
    case BytePage(bytes) => bytes[k] % 64
    case WordPage(words) => words[k] % 16384
  }

  function Bump(count: nat, cap: nat, hit: bool): nat {
    if hit && count < cap then count + 1 else count
  }

  lemma MaskIsShifted(j: nat)
    requires j < 8
    ensures Mask(j) == (1 as bv8) << j
  {
  }

  lemma MaskBits(x: bv8, j: nat, i: nat)
    requires j < 8 && i < 8
    ensures (x | Mask(j)) & Mask(i) != 0 <==> i == j || x & Mask(i) != 0
  {
  }

  method SetBits(bits: array<bv8>, offset: nat, size: nat)
    requires bits.Length == PAGE / 8 && offset + size <= PAGE
    modifies bits
    ensures forall k :: 0 <= k < PAGE ==>
      CountIn(BitPage(bits), k) == Bump(old(CountIn(BitPage(bits), k)), 1, offset <= k < offset + size)
  {
    hide Mask;
    for i := 0 to size
      invariant forall k :: 0 <= k < PAGE ==>
        CountIn(BitPage(bits), k) == Bump(old(CountIn(BitPage(bits), k)), 1, offset <= k < offset + i)
    {
      SetBit(bits, i + offset);
    }
  }

  method SetBit(bits: array<bv8>, at: nat)
    requires bits.Length == PAGE / 8 && at < PAGE
    modifies bits
    ensures forall k :: 0 <= k < PAGE ==>
      CountIn(BitPage(bits), k) == if k == at then 1 else old(CountIn(BitPage(bits), k))
  {
    hide Mask;
    ghost var before := bits[..];
    var j := at / 8;
    bits[j] := bits[j] | Mask(at % 8);
    forall k | 0 <= k < PAGE
      ensures bits[k / 8] & Mask(k % 8) != 0 <==> k == at || before[k / 8] & Mask(k % 8) != 0
    {
      MaskBits(before[j], at % 8, k % 8);
    }
  }

  /** The kind of byte the current one is taken for: 0 inside, 1 first, 2 last, 3 overlapping. */
  function ByteType(isMixed: bool, i: nat, size: nat): (t: nat)
    ensures t < 4
    ensures isMixed ==> t == 3
    ensures !isMixed ==> (t == 1 <==> i == 0) && (t == 2 <==> 0 < i == size - 1) && t != 3
  {
    if isMixed then 3 else if i == 0 then 1 else if i + 1 == size then 2 else 0
  }

  /** Some byte that was executed before had the kind, by these two bits, that it would get now. */
  predicate Mixed(data: seq<nat>, offset: nat, size: nat, n: nat)
    requires offset + n <= |data|
  {
    exists i :: 0 <= i < n && data[offset + i] != 0 && data[offset + i] / 64 % 4 == ByteType(false, i, size)
  }

  lemma MixedStep(data: seq<nat>, offset: nat, size: nat, n: nat)
    requires offset + n < |data|
    ensures !Mixed(data, offset, size, 0)
    ensures Mixed(data, offset, size, n + 1) <==>
      Mixed(data, offset, size, n) || (data[offset + n] != 0 && data[offset + n] / 64 % 4 == ByteType(false, n, size))
  {
    hide ByteType;
  }

  lemma PackByte(t: nat, count: nat)
    requires t < 4 && count < 64
    ensures t * 64 + count < 0x100 && (t * 64 + count) % 64 == count && (t * 64 + count) / 64 == t
  {
  }

  lemma PackShort(t: nat, count: nat)
    requires t < 4 && count < 16384
    ensures t * 16384 + count < 0x1_0000 && (t * 16384 + count) % 16384 == count && (t * 16384 + count) / 16384 == t
  {
  }

  /** Counts up to 63 and keeps the kind of byte in the two bits above. */
  method CountBytes(bytes: array<Byte>, offset: nat, size: nat)
    requires bytes.Length == PAGE && offset + size <= PAGE
    modifies bytes
    ensures forall k :: 0 <= k < PAGE ==>
      CountIn(BytePage(bytes), k) == Bump(old(CountIn(BytePage(bytes), k)), 63, offset <= k < offset + size)
    ensures forall k :: offset <= k < offset + size ==>
      bytes[k] / 64 == ByteType(Mixed(old(bytes[..]), offset, size, size), k - offset, size)
    ensures forall k :: 0 <= k < PAGE && !(offset <= k < offset + size) ==> bytes[k] == old(bytes[k])
  {
    hide ByteType, Mixed;
    var isMixed := false;
    ghost var before := bytes[..];
    if size > 0 {
      MixedStep(before, offset, size, 0);
    }
    for i := 0 to size
      invariant size > 0 ==> isMixed == Mixed(before, offset, size, i)
      invariant forall k :: offset <= k < offset + i ==>
        && bytes[k] % 64 == Bump(before[k] % 64, 63, true)
        && (!isMixed ==> bytes[k] / 64 == ByteType(false, k - offset, size))
      invariant forall k :: 0 <= k < PAGE && !(offset <= k < offset + i) ==> bytes[k] == before[k]
    {
      var currentByteType := ByteType(isMixed, i, size);
      var data := bytes[offset + i];
      MixedStep(before, offset, size, i);
      PackByte(currentByteType, if data == 0 then 1 else if data % 64 == 63 then 63 else data % 64 + 1);
      if data == 0 {
        bytes[offset + i] := currentByteType * 64 + 1;
      } else {
        isMixed := isMixed || data / 64 % 4 == currentByteType;
        bytes[offset + i] := currentByteType * 64 + (if data % 64 == 63 then 63 else data % 64 + 1);
      }
    }
    if isMixed {
      MarkBytes(bytes, offset, size);
    }
  }

  method MarkBytes(bytes: array<Byte>, offset: nat, size: nat)
    requires bytes.Length == PAGE && offset + size <= PAGE
    modifies bytes
    ensures forall k :: offset <= k < offset + size ==> bytes[k] / 64 == 3 && bytes[k] % 64 == old(bytes[k]) % 64
    ensures forall k :: 0 <= k < PAGE && !(offset <= k < offset + size) ==> bytes[k] == old(bytes[k])
  {
    for i := 0 to size
      invariant forall k :: offset <= k < offset + i ==> bytes[k] / 64 == 3 && bytes[k] % 64 == old(bytes[k]) % 64
      invariant forall k :: 0 <= k < PAGE && !(offset <= k < offset + i) ==> bytes[k] == old(bytes[k])
    {
      bytes[i + offset] := bytes[i + offset] % 64 + 192;
    }
  }

  /** Words are counted like bytes; the overlap test looks at the two bits that byte pages use. */
  method CountWords(words: array<Short>, offset: nat, size: nat)
    requires words.Length == PAGE && offset + size <= PAGE
    modifies words
    ensures forall k :: 0 <= k < PAGE ==>
      CountIn(WordPage(words), k) == Bump(old(CountIn(WordPage(words), k)), 16383, offset <= k < offset + size)
    ensures forall k :: offset <= k < offset + size ==>
      words[k] / 16384 == ByteType(Mixed(old(words[..]), offset, size, size), k - offset, size)
    ensures forall k :: 0 <= k < PAGE && !(offset <= k < offset + size) ==> words[k] == old(words[k])
  {
    hide ByteType, Mixed;
    var isMixed := false;
    ghost var before := words[..];
    if size > 0 {
      MixedStep(before, offset, size, 0);
    }
    for i := 0 to size
      invariant size > 0 ==> isMixed == Mixed(before, offset, size, i)
      invariant forall k :: offset <= k < offset + i ==>
        && words[k] % 16384 == Bump(before[k] % 16384, 16383, true)
        && (!isMixed ==> words[k] / 16384 == ByteType(false, k - offset, size))
      invariant forall k :: 0 <= k < PAGE && !(offset <= k < offset + i) ==> words[k] == before[k]
    {
      var currentByteType := ByteType(isMixed, i, size);
      var data := words[offset + i];
      MixedStep(before, offset, size, i);
      PackShort(currentByteType, if data == 0 then 1 else if data % 16384 == 16383 then 16383 else data % 16384 + 1);
      if data == 0 {
        words[offset + i] := currentByteType * 16384 + 1;
      } else {
        isMixed := isMixed || data / 64 % 4 == currentByteType;
        words[offset + i] := currentByteType * 16384 + (if data % 16384 == 16383 then 16383 else data % 16384 + 1);
      }
    }
    if isMixed {
      MarkWords(words, offset, size);
    }
  }

  method MarkWords(words: array<Short>, offset: nat, size: nat)
    requires words.Length == PAGE && offset + size <= PAGE
    modifies words
    ensures forall k :: offset <= k < offset + size ==> words[k] / 16384 == 3 && words[k] % 16384 == old(words[k]) % 16384
    ensures forall k :: 0 <= k < PAGE && !(offset <= k < offset + size) ==> words[k] == old(words[k])
  {
    for i := 0 to size
      invariant forall k :: offset <= k < offset + i ==> words[k] / 16384 == 3 && words[k] % 16384 == old(words[k]) % 16384
      invariant forall k :: 0 <= k < PAGE && !(offset <= k < offset + i) ==> words[k] == old(words[k])
    {
      words[i + offset] := words[i + offset] % 16384 + 49152;
    }
  }

  // ----- all pages -----

  class TraceRecordPages {
    var pages: map<nat, Page>
    ghost var events: seq<Event>

    /** Every page has its own buffer of the right size. */
    ghost predicate Shape()
      reads this
    {
      && (forall p :: p in pages ==> p % PAGE == 0 && SizeOk(pages[p]) && Raw(pages[p]) != this)
      && forall p, q :: p in pages && q in pages && p != q ==> Raw(pages[p]) != Raw(pages[q])
    }

    ghost function Buffers(): set<object>
      reads this
    {
      set p | p in pages :: Raw(pages[p])
    }

    ghost predicate KindsOk()
      reads this
    {
      forall p: nat :: KindAfter(events, p) == if p in pages then KindOf(pages[p]) else NoRecord
    }

    /** The counters hold the number of executions, as far as they can count. */
    ghost predicate CountsOk()
      requires Shape()
      reads this, Buffers()
    {
      forall p, k :: p in pages && 0 <= k < PAGE ==>
        CountIn(pages[p], k) == Min(Cap(KindOf(pages[p])), Hits(events, p + k))
    }

    ghost predicate Valid()
      reads this, Buffers()
    {
      Shape() && KindsOk() && CountsOk()
    }

    constructor ()
      ensures Valid() && events == []
    {
      pages := map[];
      events := [];
    }

    method clear()
      modifies this
      ensures Valid() && events == old(events) + [Clear]
    {
      pages := map[];
      events := events + [Clear];
      assert events[..|events| - 1] == old(events);
    }

    method NewPage(kind: Kind) returns (page: Page)
      requires kind != NoRecord
      ensures fresh(Raw(page)) && SizeOk(page) && KindOf(page) == kind
      ensures forall k :: 0 <= k < PAGE ==> CountIn(page, k) == 0
    {
      match kind
      case BitExec =>
        var bits := new bv8[PAGE / 8](_ => 0);
        page := BitPage(bits);
        NoBits();
      case ByteCounter =>
        var bytes := new Byte[PAGE](_ => 0);
        page := BytePage(bytes);
      case WordCounter =>
        var words := new Short[PAGE](_ => 0);
        page := WordPage(words);
    }

    method AddPage(page: nat, kind: Kind)
      requires Shape() && page % PAGE == 0 && page !in pages && kind != NoRecord
      modifies this`pages
      ensures Shape() && pages.Keys == old(pages).Keys + {page} && KindOf(pages[page]) == kind
      ensures forall k :: 0 <= k < PAGE ==> CountIn(pages[page], k) == 0
      ensures forall p :: p in old(pages) ==> pages[p] == old(pages)[p]
      ensures forall p, k :: p in old(pages) && 0 <= k < PAGE ==> CountIn(pages[p], k) == old(CountIn(pages[p], k))
    {
      hide CountIn, SizeOk;
      var newPage := NewPage(kind);
      pages := pages[page := newPage];
    }

    method setTraceRecordType(address: nat, kind: Kind) returns (ok: bool)
      requires Valid()
      modifies this
      ensures Valid() && events == old(events) + [SetType(address, kind)]
      ensures ok <==> KindAfter(events, PageOf(address)) == kind
    {
      hide CountIn, Hits, KindAfter, Raw, SizeOk, Cap;
      var page := PageOf(address);
      ok := true;
      if page !in pages {
        if kind != NoRecord {
          AddPage(page, kind);
        }
      } else if kind == NoRecord {
        pages := pages - {page};
      } else {
        ok := KindOf(pages[page]) == kind;
      }
      ghost var before := events;
      events := events + [SetType(address, kind)];
      SetTypeKinds(before, address, kind);
      forall p: nat, k: nat | p in pages && k < PAGE
        ensures CountIn(pages[p], k) == Min(Cap(KindOf(pages[p])), Hits(events, p + k))
      {
        SetTypeHits(before, address, kind, p, k);
        if p in old(pages) {
          assert old(CountIn(pages[p], k)) == Min(Cap(KindOf(old(pages)[p])), Hits(before, p + k));
        }
      }
    }

    /** Counts one execution, split where it crosses into the next page. */
    method CountExecution(address: nat, size: nat)
      requires Shape() && size < 0x100
      modifies Buffers()
      ensures Shape()
      ensures forall p, k :: p in pages && 0 <= k < PAGE ==>
        CountIn(pages[p], k) == Bump(old(CountIn(pages[p], k)), Cap(KindOf(pages[p])),
          PageOf(address) in pages && Covers(address, size, p + k))
      decreases size, 1
    {
      hide CountIn, PageOf;
      if size == 0 {
        return;
      }
      var base := PageOf(address);
      if base !in pages {
        return;
      }
      var offset := address - base;
      OffsetInPage(address);
      if offset + size > PAGE {
        CountHalves(address, size);
        return;
      }
      CountInPage(base, offset, size);
      forall p, k | p in pages && 0 <= k < PAGE
        ensures CountIn(pages[p], k) == Bump(old(CountIn(pages[p], k)), Cap(KindOf(pages[p])), Covers(address, size, p + k))
      {
        SamePage(p, k, base, offset);
      }
    }

    /** The execution reaches into the next page. */
    method CountHalves(address: nat, size: nat)
      requires Shape() && PageOf(address) in pages && size < 0x100 && address + size > PageOf(address) + PAGE
      modifies Buffers()
      ensures Shape()
      ensures forall p, k :: p in pages && 0 <= k < PAGE ==>
        CountIn(pages[p], k) == Bump(old(CountIn(pages[p], k)), Cap(KindOf(pages[p])), Covers(address, size, p + k))
      decreases size, 0
    {
      hide CountIn, PageOf, Covers, Cap;
      OffsetInPage(address);
      var next := PageOf(address) + PAGE;
      CountExecution(address, next - address);
      CountExecution(next, address + size - next);
      forall p, k | p in pages && 0 <= k < PAGE
        ensures CountIn(pages[p], k) == Bump(old(CountIn(pages[p], k)), Cap(KindOf(pages[p])), Covers(address, size, p + k))
      {
        CoversHalves(address, size, p, k);
      }
    }

    method CountInPage(base: nat, offset: nat, size: nat)
      requires Shape() && base in pages && offset + size <= PAGE
      modifies Raw(pages[base])
      ensures forall p, k :: p in pages && 0 <= k < PAGE ==>
        CountIn(pages[p], k) == Bump(old(CountIn(pages[p], k)), Cap(KindOf(pages[p])), p == base && offset <= k < offset + size)
    {
      hide CountIn;
      match pages[base]
      case BitPage(bits) => SetBits(bits, offset, size);
      case BytePage(bytes) => CountBytes(bytes, offset, size);
      case WordPage(words) => CountWords(words, offset, size);
    }

    method TraceExecute(address: nat, size: nat)
      requires Valid() && size < 0x100
      modifies this, Buffers()
      ensures Valid() && events == old(events) + [Execute(address, size)] && pages == old(pages)
    {
      hide CountIn;
      CountExecution(address, size);
      events := events + [Execute(address, size)];
      assert events[..|events| - 1] == old(events);
    }

    /** The hit count of a byte on a traced page is the number of executions that covered it, up to
        the capacity of its counter. */
    method getHitCount(address: nat) returns (count: nat)
      requires Valid()
      ensures count == Min(Cap(KindAfter(events, PageOf(address))), Hits(events, address))
    {
      var base := PageOf(address);
      if base !in pages {
        return 0;
      }
      var offset := address - base;
      assert CountIn(pages[base], offset) == Min(Cap(KindOf(pages[base])), Hits(events, base + offset));
      match pages[base]
      case BitPage(bits) => count := if bits[offset / 8] & Mask(offset % 8) != 0 then 1 else 0;
      case BytePage(bytes) => count := bytes[offset] % 64;
      case WordPage(words) => count := words[offset] % 16384;
    }
  }

  lemma OffsetInPage(address: nat)
    ensures PageOf(address) <= address < PageOf(address) + PAGE && PageOf(address) % PAGE == 0
    ensures PageOf(PageOf(address) + PAGE) == PageOf(address) + PAGE
  {
  }

  /** Each byte of a page is covered by at most one half, and by the second only on the next page. */
  lemma CoversHalves(address: nat, size: nat, p: nat, k: nat)
    requires p % PAGE == 0 && k < PAGE && size < 0x100 && address + size > PageOf(address) + PAGE
    ensures var next := PageOf(address) + PAGE;
      var first, second := Covers(address, next - address, p + k), Covers(next, address + size - next, p + k);
      && (Covers(address, size, p + k) <==> first || second) && !(first && second)
      && (second ==> p == next)
  {
    OffsetInPage(address);
    hide PageOf;
    SamePage(p, k, PageOf(address) + PAGE, 0);
  }

  lemma SamePage(p: nat, k: nat, base: nat, offset: nat)
    requires p % PAGE == 0 && base % PAGE == 0 && k < PAGE && offset < PAGE
    ensures p != base ==> p + k < base || p + k >= base + PAGE
  {
  }

  lemma PageOfSum(p: nat, k: nat)
    requires p % PAGE == 0 && k < PAGE
    ensures PageOf(p + k) == p
  {
  }

  lemma NoBits()
    ensures forall j: nat :: j < 8 ==> 0 & Mask(j) == 0
  {
  }

  lemma SetTypeKinds(before: seq<Event>, address: nat, kind: Kind)
    ensures forall p: nat :: (KindAfter(before + [SetType(address, kind)], p) ==
      if PageOf(address) == p && (KindAfter(before, p) == NoRecord || kind == NoRecord) then kind else KindAfter(before, p))
  {
    assert (before + [SetType(address, kind)])[..|before|] == before;
  }

  lemma SetTypeHits(before: seq<Event>, address: nat, kind: Kind, p: nat, k: nat)
    requires p % PAGE == 0 && k < PAGE
    ensures Hits(before + [SetType(address, kind)], p + k) ==
      if PageOf(address) == p && (KindAfter(before, p) == NoRecord || kind == NoRecord) then 0 else Hits(before, p + k)
  {
    PageOfSum(p, k);
    assert (before + [SetType(address, kind)])[..|before|] == before;
  }

  /** Pages have 4096 bytes. A traced page keeps its kind and its counts until it is switched off, which forgets
      them; one that is not traced starts at zero. Other pages are not touched. */
  lemma SwitchingPages(events: seq<Event>, address: nat, kind: Kind, b: nat)
    ensures PageOf(b) == b / 4096 * 4096
    ensures var after, before := events + [SetType(address, kind)], KindAfter(events, PageOf(b));
      if address / 4096 != b / 4096 then KindAfter(after, PageOf(b)) == before && Hits(after, b) == Hits(events, b)
      else if before == NoRecord || kind == NoRecord then KindAfter(after, PageOf(b)) == kind && Hits(after, b) == 0
      else KindAfter(after, PageOf(b)) == before && Hits(after, b) == Hits(events, b)
    ensures KindAfter(events + [Clear], PageOf(b)) == NoRecord && Hits(events + [Clear], b) == 0
  {
    hide Hits, KindAfter;
    var p, k := PageOf(b), b % PAGE;
    SetTypeKinds(events, address, kind);
    SetTypeHits(events, address, kind, p, k);
    assert p + k == b && (PageOf(address) == p <==> address / 4096 == b / 4096);
    Cleared(events, b);
  }

  lemma Cleared(events: seq<Event>, b: nat)
    ensures KindAfter(events + [Clear], PageOf(b)) == NoRecord && Hits(events + [Clear], b) == 0
  {
  }
}
