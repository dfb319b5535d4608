/** Stepping backwards through code: sweep forwards from far enough back and remember the last
    instruction starts in a ring. */
module DisasmBack {
  /** The bytes reserved for each instruction when going back. */
  const MAX_DISASM_BUFFER := 16
  const RING := 128

  /** The length of the instruction that starts at an offset of the data; zero if none does. */
  type Decoder = nat -> nat

  /** No instruction is longer than `bound` bytes. */
  ghost predicate DecoderOk(decoder: Decoder, bound: nat) {
    forall a: nat :: decoder(a) <= bound
  }

  /** The bytes taken when the decoder is offered `available` bytes: one if it fails. */
  function Length(decoder: Decoder, a: nat, available: nat): (r: nat)
    requires available > 0
    ensures 0 < r <= available
  {
    if 1 <= decoder(a) <= available then decoder(a) else 1
  }

  // ----- sweeps -----

  /** The offsets below `ip` that a sweep visits which takes the data to go on until `end`. */
  function Swept(decoder: Decoder, a: nat, end: nat, ip: nat): (r: seq<nat>)
    requires ip < end
    ensures r == [] <==> a >= ip
    ensures r != [] ==> r[0] == a
    decreases ip - a
  {
    if a >= ip then [] else [a] + Swept(decoder, a + Length(decoder, a, end - a), end, ip)
  }

  /** The first offset at or after `ip` that the sweep reaches. */
  function Landing(decoder: Decoder, a: nat, end: nat, ip: nat): (r: nat)
    requires ip < end
    ensures r >= ip
    decreases ip - a
  {
    if a >= ip then a else Landing(decoder, a + Length(decoder, a, end - a), end, ip)
  }

  /** Decoding `n` instructions, or up to the end of the data. */
  function Next(decoder: Decoder, size: nat, ip: nat, n: nat): nat
    decreases n
  {
    if n == 0 || ip >= size then ip else Next(decoder, size, ip + Length(decoder, ip, size - ip), n - 1)
  }

  function Clamped(n: int): nat {
    if n < 0 then 0 else if n > 127 then 127 else n
  }

  function Inside(ip: nat, size: nat): nat
    requires size > 0
  {
    if ip >= size then size - 1 else ip
  }

  function Distance(x: int, y: int): nat {
    if x < y then y - x else x - y
  }

  /** A count is taken to the nearest one from 0 to 127, an offset to the nearest one in the data. */
  lemma TakenToTheNearest(n: int, ip: nat, size: nat)
    requires size > 0
    ensures 0 <= Clamped(n) <= 127 && forall m :: 0 <= m <= 127 ==> Distance(Clamped(n), n) <= Distance(m, n)
    ensures 0 <= Inside(ip, size) < size && forall m :: 0 <= m < size ==> Distance(Inside(ip, size), ip) <= Distance(m, ip)
  {
  }

  /** Where the sweep begins. */
  function SweepStart(ip: nat, n: nat): nat {
    if ip < MAX_DISASM_BUFFER * (n + 3) then 0 else ip - MAX_DISASM_BUFFER * (n + 3)
  }

  /** Sixteen bytes for each instruction and for three more, as far as there is data. */
  lemma SweepStartsBack(ip: nat, n: nat)
    ensures SweepStart(ip, n) <= ip && ip - SweepStart(ip, n) <= 16 * (n + 3)
    ensures SweepStart(ip, n) == 0 || ip - SweepStart(ip, n) == 16 * (n + 3)
  {
  }

  /** The sweep is offered all of the data wherever it begins, so it takes it to end that much later. */
  function SweepEnd(size: nat, ip: nat, n: nat): nat {
    size + SweepStart(ip, n)
  }

  function SweptBefore(decoder: Decoder, size: nat, ip: nat, n: nat): seq<nat>
    requires ip < size
  {
    Swept(decoder, SweepStart(ip, n), SweepEnd(size, ip, n), ip)
  }

  // ----- the two functions -----

  method disasmback(decoder: Decoder, size: nat, ip0: nat, n0: int) returns (r: nat)
    requires size > 0
    ensures var ip, n := Inside(ip0, size), Clamped(n0);
      if n == 0 || ip < n then r == ip
      else
        var swept := SweptBefore(decoder, size, ip, n);
        swept != [] && r == if |swept| < n then swept[0] else swept[|swept| - n]
  {
    hide Swept, Length;
    var ip, n := ip0, n0;
    if n < 0 {
      n := 0;
    } else if n > 127 {
      n := 127;
    }
    if ip >= size {
      ip := size - 1;
    }
    if n == 0 || ip < n {
      return ip;
    }
    var back := MAX_DISASM_BUFFER * (n + 3);
    if ip < back {
      back := ip;
    }
    r := sweep(decoder, ip - back, size, ip, n);
  }

  /** The sweep itself, with the last offsets kept in a ring. */
  method sweep(decoder: Decoder, start: nat, size: nat, ip: nat, n: nat) returns (r: nat)
    requires start < ip < size && 0 < n < RING
    ensures var swept := Swept(decoder, start, size + start, ip);
      swept != [] && r == if |swept| < n then swept[0] else swept[|swept| - n]
  {
    hide Swept, Length, InRing;
    var abuf := new nat[131](_ => 0);
    var addr := start;
    var left: int := size;
    var i := 0;
    ghost var swept := Swept(decoder, start, size + start, ip);
    EmptyRing(abuf[..], swept);
    assert swept[0..] == swept;
    while addr < ip
      invariant 0 <= i <= |swept| && swept[i..] == Swept(decoder, addr, size + start, ip)
      invariant left == size + start - addr
      invariant InRing(abuf[..], swept, i)
      decreases ip - addr
    {
      SweptStep(decoder, addr, size + start, ip);
      assert swept[i] == swept[i..][0] && swept[i..][1..] == swept[i + 1..];
      StoreInRing(abuf[..], swept, i);
      abuf[i % RING] := addr;
      var cmdsize := Length(decoder, addr, left);
      addr := addr + cmdsize;
      left := left - cmdsize;
      i := i + 1;
    }
    if i < n {
      FromRing(abuf[..], swept, i, 0);
      r := abuf[0];
    } else {
      RingIndex(i, n);
      FromRing(abuf[..], swept, i, i - n);
      r := abuf[(i - n + RING) % RING];
    }
  }

  /** The last 128 offsets stand in their slots. */
  predicate InRing(ring: seq<nat>, swept: seq<nat>, i: nat) {
    |ring| >= RING && i <= |swept| && forall k :: 0 <= k < i && i - RING <= k ==> ring[k % RING] == swept[k]
  }

  lemma EmptyRing(ring: seq<nat>, swept: seq<nat>)
    requires |ring| >= RING
    ensures InRing(ring, swept, 0)
  {
  }

  /** Storing an offset overwrites none of the 127 before it. */
  lemma StoreInRing(ring: seq<nat>, swept: seq<nat>, i: nat)
    requires InRing(ring, swept, i) && i < |swept|
    ensures InRing(ring[i % RING := swept[i]], swept, i + 1)
  {
    RingKeeps(i);
  }

  lemma FromRing(ring: seq<nat>, swept: seq<nat>, i: nat, k: nat)
    requires InRing(ring, swept, i) && k < i <= k + RING
    ensures ring[k % RING] == swept[k]
  {
  }

  lemma SweptStep(decoder: Decoder, a: nat, end: nat, ip: nat)
    requires a < ip < end
    ensures Swept(decoder, a, end, ip) == [a] + Swept(decoder, a + Length(decoder, a, end - a), end, ip)
  {
  }

  lemma RingKeeps(i: nat)
    ensures forall k :: 0 <= k < i && i + 1 - RING <= k ==> k % RING != i % RING
  {
    forall k | 0 <= k < i && i + 1 - RING <= k
      ensures k % RING != i % RING
    {
      DifferentSlots(k, i);
    }
  }

  lemma DifferentSlots(k: nat, i: nat)
    requires k < i < k + RING
    ensures k % RING != i % RING
  {
  }

  lemma RingIndex(i: nat, n: nat)
    requires n <= i
    ensures (i - n + RING) % RING == (i - n) % RING
  {
  }

  method disasmnext(decoder: Decoder, size0: nat, ip0: nat, n: int) returns (r: nat)
    requires size0 > 0
    ensures r == Next(decoder, size0, Inside(ip0, size0), if n < 0 then 0 else n)
  {
    var ip, size := ip0, size0;
    if ip >= size {
      ip := size - 1;
    }
    if n <= 0 {
      return ip;
    }
    size := size - ip;
    var i := 0;
    while i < n && size > 0
      invariant 0 <= i <= n && ip + size == size0
      invariant Next(decoder, size0, ip, n - i) == Next(decoder, size0, Inside(ip0, size0), n)
    {
      var cmdsize := Length(decoder, ip, size);
      ip := ip + cmdsize;
      size := size - cmdsize;
      i := i + 1;
    }
    r := ip;
  }

  // ----- forwards again -----

  /** The result of `disasmback`, where it moves at all. */
  function Back(decoder: Decoder, size: nat, ip: nat, n: nat): nat
    requires 0 < n <= ip < size
  {
    var swept := SweptBefore(decoder, size, ip, n);
    if |swept| < n then swept[0] else swept[|swept| - n]
  }

  /** Both functions are offered enough bytes to see the same instructions of at most `bound` bytes. */
  predicate SeesTheSame(size: nat, ip: nat, n: nat, bound: nat) {
    SweepStart(ip, n) == 0 || ip + bound <= size + 1
  }

  lemma SameLength(decoder: Decoder, size: nat, ip: nat, n: nat, bound: nat, a: nat)
    requires DecoderOk(decoder, bound) && SeesTheSame(size, ip, n, bound) && a < ip < size
    ensures Length(decoder, a, SweepEnd(size, ip, n) - a) == Length(decoder, a, size - a)
  {
  }

  lemma LandingStep(decoder: Decoder, a: nat, end: nat, ip: nat)
    requires ip < end
    ensures Landing(decoder, a, end, ip) ==
      if a >= ip then a else Landing(decoder, a + Length(decoder, a, end - a), end, ip)
  {
    hide Length;
  }

  /** A sweep goes on from any offset it visits as if it had begun there. */
  lemma {:induction false} SuffixIsSweep(decoder: Decoder, a: nat, end: nat, ip: nat, k: nat)
    requires ip < end && k < |Swept(decoder, a, end, ip)|
    ensures var b := Swept(decoder, a, end, ip)[k];
      && Swept(decoder, b, end, ip) == Swept(decoder, a, end, ip)[k..]
      && Landing(decoder, b, end, ip) == Landing(decoder, a, end, ip)
    decreases k
  {
    hide Swept, Landing, Length;
    if k > 0 {
      var a' := a + Length(decoder, a, end - a);
      SweptStep(decoder, a, end, ip);
      LandingStep(decoder, a, end, ip);
      SuffixIsSweep(decoder, a', end, ip, k - 1);
      assert Swept(decoder, a, end, ip)[k..] == Swept(decoder, a', end, ip)[k - 1..];
    }
  }

  lemma {:induction false} NextFollowsSweep(decoder: Decoder, size: nat, ip: nat, n: nat, bound: nat, a: nat)
    requires DecoderOk(decoder, bound) && SeesTheSame(size, ip, n, bound) && ip < size
    ensures Next(decoder, size, a, |Swept(decoder, a, SweepEnd(size, ip, n), ip)|)
         == Landing(decoder, a, SweepEnd(size, ip, n), ip)
    decreases ip - a
  {
    hide SeesTheSame, Length, Swept, Landing;
    var end := SweepEnd(size, ip, n);
    LandingStep(decoder, a, end, ip);
    if a < ip {
      SweptStep(decoder, a, end, ip);
      SameLength(decoder, size, ip, n, bound, a);
      NextFollowsSweep(decoder, size, ip, n, bound, a + Length(decoder, a, size - a));
    }
  }

  /** Going back `n` instructions and forwards again lands on the first instruction the sweep found
      at or after the starting point, whatever the instructions are. */
  lemma BackThenNext(decoder: Decoder, size: nat, ip: nat, n: nat, bound: nat)
    requires DecoderOk(decoder, bound) && 0 < n <= ip < size && SeesTheSame(size, ip, n, bound)
    requires |SweptBefore(decoder, size, ip, n)| >= n
    ensures Next(decoder, size, Back(decoder, size, ip, n), n)
         == Landing(decoder, SweepStart(ip, n), SweepEnd(size, ip, n), ip)
  {
    hide SeesTheSame, Swept, Landing, Next;
    var swept := SweptBefore(decoder, size, ip, n);
    SuffixIsSweep(decoder, SweepStart(ip, n), SweepEnd(size, ip, n), ip, |swept| - n);
    NextFollowsSweep(decoder, size, ip, n, bound, swept[|swept| - n]);
  }

  lemma {:induction false} SweepIsLong(decoder: Decoder, a: nat, end: nat, ip: nat)
    requires DecoderOk(decoder, MAX_DISASM_BUFFER) && a <= ip < end
    ensures MAX_DISASM_BUFFER * |Swept(decoder, a, end, ip)| >= ip - a
    decreases ip - a
  {
    hide Swept, Length;
    if a < ip {
      SweptStep(decoder, a, end, ip);
      LengthBound(decoder, a, end - a);
      var a' := a + Length(decoder, a, end - a);
      if a' < ip {
        SweepIsLong(decoder, a', end, ip);
      }
    }
  }

  lemma LengthBound(decoder: Decoder, a: nat, available: nat)
    requires DecoderOk(decoder, MAX_DISASM_BUFFER) && available > 0
    ensures Length(decoder, a, available) <= MAX_DISASM_BUFFER
  {
  }

  /** Far enough from the start of the data the sweep always sees three instructions more than needed. */
  lemma FarSweepSuffices(decoder: Decoder, size: nat, ip: nat, n: nat)
    requires DecoderOk(decoder, MAX_DISASM_BUFFER) && ip < size && MAX_DISASM_BUFFER * (n + 3) <= ip
    ensures |SweptBefore(decoder, size, ip, n)| >= n + 3
  {
    hide Swept;
    SweepIsLong(decoder, SweepStart(ip, n), SweepEnd(size, ip, n), ip);
  }

  /** With too few instructions before it, the answer is the start of the data. */
  lemma TooFewMeansStart(decoder: Decoder, size: nat, ip: nat, n: nat)
    requires DecoderOk(decoder, MAX_DISASM_BUFFER) && 0 < n <= ip < size && |SweptBefore(decoder, size, ip, n)| < n
    ensures Back(decoder, size, ip, n) == 0
  {
    hide Swept;
    if SweepStart(ip, n) != 0 {
      FarSweepSuffices(decoder, size, ip, n);
    }
  }

  // ----- near the end of the data -----

  /** One-byte instructions, and a last one in front of `ip` that needs `need` bytes. */
  function LongAtEnd(ip: nat, need: nat): Decoder {
    a => if a + 1 == ip then need else 1
  }

  lemma {:induction false} OneByOne(ip: nat, need: nat, a: nat, end: nat)
    requires a < ip < end && 1 <= need
    ensures |Swept(LongAtEnd(ip, need), a, end, ip)| == ip - a
    ensures forall k :: 0 <= k < ip - a ==> Swept(LongAtEnd(ip, need), a, end, ip)[k] == a + k
    ensures Landing(LongAtEnd(ip, need), a, end, ip) == if need <= end - ip + 1 then ip - 1 + need else ip
    decreases ip - a
  {
    if a + 1 < ip {
      OneByOne(ip, need, a + 1, end);
    }
  }

  lemma {:induction false} NextOneByOne(ip: nat, need: nat, size: nat, a: nat)
    requires a < ip < size && size - ip + 1 < need
    ensures Next(LongAtEnd(ip, need), size, a, ip - a) == ip
    decreases ip - a
  {
    if a + 1 < ip {
      NextOneByOne(ip, need, size, a + 1);
    }
  }

  /** The condition on the end of the data is needed: wherever it fails, some instructions of at most
      `bound` bytes make the sweep decode across the end of the data and land elsewhere. */
  lemma LandsElsewhere(size: nat, ip: nat, n: nat, bound: nat)
    requires 0 < n <= ip < size && !SeesTheSame(size, ip, n, bound)
    ensures exists decoder: Decoder ::
      && DecoderOk(decoder, bound) && |SweptBefore(decoder, size, ip, n)| >= n
      && Next(decoder, size, Back(decoder, size, ip, n), n)
         != Landing(decoder, SweepStart(ip, n), SweepEnd(size, ip, n), ip)
  {
    hide Swept, Landing, Next;
    var start, end := SweepStart(ip, n), SweepEnd(size, ip, n);
    var need := if end - ip + 1 < bound then end - ip + 1 else bound;
    var decoder := LongAtEnd(ip, need);
    assert DecoderOk(decoder, bound);
    OneByOne(ip, need, start, end);
    assert Back(decoder, size, ip, n) == ip - n;
    NextOneByOne(ip, need, size, ip - n);
  }
}
