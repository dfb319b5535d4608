/** The byte layout of one trace block: the writer's encoding, the reader's decoding,
    and the proof that decoding inverts encoding. */
module TraceBlocks {
  import opened Options

  datatype Arch = X86 | X64

  type Byte = x: int | 0 <= x < 256

  /** Bytes in a machine word. */
  function WordSize(arch: Arch): nat {
    if arch.X64? then 8 else 4
  }

  /** Machine words in a recorded register context. */
  function RegisterWords(arch: Arch): nat {
    if arch.X64? then 172 else 216
  }

  const MAX_MEMORY_OPERANDS := 32
  const BUFFER_SIZE := 3072

  function Limit(size: nat): (r: nat)
    ensures r > 0
  {
    if size == 0 then 1 else 256 * Limit(size - 1)
  }

  // ----- words as little-endian bytes -----

  function Bytes(w: nat, size: nat): (r: seq<Byte>)
    ensures |r| == size
  {
    if size == 0 then [] else [w % 256] + Bytes(w / 256, size - 1)
  }

  function Number(bytes: seq<Byte>): nat {
    if bytes == [] then 0 else bytes[0] + 256 * Number(bytes[1..])
  }

  lemma {:induction false} NumberOfBytes(w: nat, size: nat)
    requires w < Limit(size)
    ensures Number(Bytes(w, size)) == w
  {
    if size > 0 {
      assert Bytes(w, size)[1..] == Bytes(w / 256, size - 1);
      NumberOfBytes(w / 256, size - 1);
    }
  }

  /** Bytes taken by `n` words. */
  function Span(n: nat, size: nat): nat {
    n * size
  }

  function WordsBytes(words: seq<nat>, size: nat): (r: seq<Byte>)
    ensures |r| == Span(|words|, size)
  {
    if words == [] then [] else Bytes(words[0], size) + WordsBytes(words[1..], size)
  }

  lemma WordsBytesAppend(words: seq<nat>, w: nat, size: nat)
    ensures WordsBytes(words + [w], size) == WordsBytes(words, size) + Bytes(w, size)
  {
    if words == [] {
      assert (words + [w])[1..] == [];
    } else {
      assert (words + [w])[1..] == words[1..] + [w];
      WordsBytesAppend(words[1..], w, size);
    }
  }

  // ----- blocks -----

  datatype Change = Change(position: nat, value: nat)

  datatype MemoryAccess = MemoryAccess(address: nat, before: nat, after: nat)

  /** One recorded instruction, as a block stores it. */
  datatype Block = Block(threadId: Option<nat>, opcode: seq<Byte>, changes: seq<Change>, memory: seq<MemoryAccess>)

  ghost predicate ValidBlock(b: Block, arch: Arch) {
    var limit := Limit(WordSize(arch));
    && (b.threadId.Some? ==> b.threadId.value < Limit(4))
    && |b.opcode| < 16
    && |b.changes| <= RegisterWords(arch)
    && (forall i :: 0 <= i < |b.changes| ==> b.changes[i].position < RegisterWords(arch) && b.changes[i].value < limit)
    && Ascending(b.changes)
    && |b.memory| <= MAX_MEMORY_OPERANDS
    && forall i :: 0 <= i < |b.memory| ==>
         b.memory[i].address < limit && b.memory[i].before < limit && b.memory[i].after < limit
  }

  ghost predicate Ascending(changes: seq<Change>) {
    forall i, j :: 0 <= i < j < |changes| ==> changes[i].position < changes[j].position
  }

  /** The position before the first unwritten one; -1 when there is none. */
  function LastPosition(changes: seq<Change>): int {
    if changes == [] then -1 else changes[|changes| - 1].position
  }

  /** Each position is stored as its distance from the one before, in one byte. */
  function Deltas(changes: seq<Change>): (r: seq<Byte>)
    ensures |r| == |changes|
  {
    seq(|changes|, i requires 0 <= i < |changes| => (changes[i].position - LastPosition(changes[..i]) - 1) % 256)
  }

  function ChangeValues(changes: seq<Change>): (r: seq<nat>)
    ensures |r| == |changes|
  {
    seq(|changes|, i requires 0 <= i < |changes| => changes[i].value)
  }

  /** Bit 0 says that the access left the memory unchanged. */
  function MemoryFlags(memory: seq<MemoryAccess>): (r: seq<Byte>)
    ensures |r| == |memory|
  {
    seq(|memory|, i requires 0 <= i < |memory| => if memory[i].before == memory[i].after then 1 else 0)
  }

  function Addresses(memory: seq<MemoryAccess>): (r: seq<nat>)
    ensures |r| == |memory|
  {
    seq(|memory|, i requires 0 <= i < |memory| => memory[i].address)
  }

  function OldContents(memory: seq<MemoryAccess>): (r: seq<nat>)
    ensures |r| == |memory|
  {
    seq(|memory|, i requires 0 <= i < |memory| => memory[i].before)
  }

  /** New contents are stored only where they differ. */
  function NewContents(memory: seq<MemoryAccess>): (r: seq<nat>)
    ensures |r| <= |memory|
  {
    if memory == [] then []
    else
      var rest := memory[..|memory| - 1];
      var m := memory[|memory| - 1];
      NewContents(rest) + (if m.before == m.after then [] else [m.after])
  }

  /** Counts of changes and memory accesses, flags and opcode size, a byte each. */
  function HeadBytes(changes: nat, accesses: nat, threadId: Option<nat>, opcodeSize: nat): (r: seq<Byte>)
    ensures |r| == 3
  {
    [changes % 256, accesses % 256, ((if threadId.Some? then 0x80 else 0) + opcodeSize) % 256]
  }

  function ThreadBytes(threadId: Option<nat>): seq<Byte> {
    if threadId.Some? then Bytes(threadId.value, 4) else []
  }

  /** Block type 0, then the counts, then the thread id if there is one. */
  function Header(changes: nat, accesses: nat, threadId: Option<nat>, opcodeSize: nat): seq<Byte> {
    [0] + HeadBytes(changes, accesses, threadId, opcodeSize) + ThreadBytes(threadId)
  }

  function RegisterPart(b: Block, arch: Arch): seq<Byte> {
    Deltas(b.changes) + WordsBytes(ChangeValues(b.changes), WordSize(arch))
  }

  function MemoryPart(b: Block, arch: Arch): seq<Byte> {
    var size := WordSize(arch);
    MemoryFlags(b.memory) + WordsBytes(Addresses(b.memory), size)
    + WordsBytes(OldContents(b.memory), size) + WordsBytes(NewContents(b.memory), size)
  }

  /** The written form of a block. */
  function Encode(b: Block, arch: Arch): (r: seq<Byte>)
    ensures r != []
  {
    Header(|b.changes|, |b.memory|, b.threadId, |b.opcode|) + b.opcode + RegisterPart(b, arch) + MemoryPart(b, arch)
  }

  /** No block outgrows the recorder's buffer. */
  lemma BlockFitsBuffer(b: Block, arch: Arch)
    requires |b.changes| <= RegisterWords(arch) && |b.memory| <= MAX_MEMORY_OPERANDS && |b.opcode| < 16
    ensures |Encode(b, arch)| <= (if arch.X64? then 2371 else 1519) < BUFFER_SIZE == 3072
  {
  }

  /** How a block begins in the file: its counts, flags and opcode size, the thread id if there is one, and
      the opcode. */
  lemma BlockLayout(b: Block, arch: Arch)
    requires |b.changes| < 256 && |b.memory| < 256 && |b.opcode| < 16
    ensures
      var e, t := Encode(b, arch), if b.threadId.Some? then 4 else 0;
      && |e| >= 4 + t + |b.opcode|
      && e[0] == 0 && e[1] == |b.changes| && e[2] == |b.memory|
      && e[3] == |b.opcode| + (if b.threadId.Some? then 128 else 0)
      && (b.threadId.Some? ==> e[..8][4..] == Bytes(b.threadId.value, 4))
      && e[4 + t..4 + t + |b.opcode|] == b.opcode
  {
    hide Bytes, Header, RegisterPart, MemoryPart;
    var head, more := Header(|b.changes|, |b.memory|, b.threadId, |b.opcode|), RegisterPart(b, arch) + MemoryPart(b, arch);
    HeaderLayout(|b.changes|, |b.memory|, b.threadId, |b.opcode|);
    assert Encode(b, arch) == head + (b.opcode + more);
    hide Encode;
    Within(head, b.opcode, more);
    if b.threadId.Some? {
      assert Encode(b, arch)[..8] == head[..8];
    }
  }

  /** How long it is: behind that a byte and a word for each register, a byte and two words for each memory
      access, and one more word for each whose content changed. */
  lemma BlockLength(b: Block, arch: Arch)
    requires |b.changes| < 256 && |b.memory| < 256 && |b.opcode| < 16
    ensures
      var t, w := if b.threadId.Some? then 4 else 0, if arch.X64? then 8 else 4;
      |Encode(b, arch)| == 4 + t + |b.opcode| + |b.changes| + Span(|b.changes|, w)
        + |b.memory| + Span(|b.memory|, w) + Span(|b.memory|, w) + Span(|NewContents(b.memory)|, w)
  {
    hide Bytes, Header, RegisterPart, MemoryPart, Span, NewContents;
    HeaderLayout(|b.changes|, |b.memory|, b.threadId, |b.opcode|);
    PartSizes(b, arch);
  }

  lemma HeaderLayout(changes: nat, accesses: nat, threadId: Option<nat>, opcodeSize: nat)
    requires changes < 256 && accesses < 256 && opcodeSize < 16
    ensures var h := Header(changes, accesses, threadId, opcodeSize);
      && |h| == 4 + (if threadId.Some? then 4 else 0)
      && h[0] == 0 && h[1] == changes && h[2] == accesses && h[3] == opcodeSize + (if threadId.Some? then 128 else 0)
      && (threadId.Some? ==> h[..8][4..] == Bytes(threadId.value, 4))
  {
    hide Bytes;
  }

  lemma PartSizes(b: Block, arch: Arch)
    ensures var w := if arch.X64? then 8 else 4;
      && |RegisterPart(b, arch)| == |b.changes| + Span(|b.changes|, w)
      && |MemoryPart(b, arch)| == |b.memory| + Span(|b.memory|, w) + Span(|b.memory|, w) + Span(|NewContents(b.memory)|, w)
  {
    hide WordsBytes, Deltas, NewContents, Span;
  }

  lemma Within(head: seq<Byte>, middle: seq<Byte>, more: seq<Byte>)
    ensures (head + (middle + more))[..|head|] == head
    ensures (head + (middle + more))[|head|..|head| + |middle|] == middle
  {
  }

  /** Numbers are stored with their lowest byte first. */
  lemma LowestByteFirst(w: nat)
    ensures Bytes(w, 4) == [w % 256, w / 256 % 256, w / 256 / 256 % 256, w / 256 / 256 / 256 % 256]
  {
    var x := w / 256;
    var y := x / 256;
    var z := y / 256;
    hide Bytes;
    OneByteMore(w, 3);
    OneByteMore(x, 2);
    OneByteMore(y, 1);
    OneByteMore(z, 0);
    NoBytes(z / 256);
  }

  lemma OneByteMore(w: nat, size: nat)
    ensures Bytes(w, size + 1) == [w % 256] + Bytes(w / 256, size)
  {
  }

  lemma NoBytes(w: nat)
    ensures Bytes(w, 0) == []
  {
  }

  // ----- reading -----

  datatype ReadError = Truncated | NoOpcode | BadCount | OutOfBounds | TooManyOperands | UnexpectedType

  datatype Read<+T> = Ok(value: T, rest: seq<Byte>) | Error(error: ReadError)

  /** The first `n` bytes, or an error. */
  function Take(bytes: seq<Byte>, n: nat): (r: Read<seq<Byte>>)
    ensures r.Ok? ==> |r.rest| <= |bytes|
  {
    if |bytes| < n then Error(Truncated) else Ok(bytes[..n], bytes[n..])
  }

  function TakeWords(bytes: seq<Byte>, n: nat, size: nat): (r: Read<seq<nat>>)
    ensures r.Ok? ==> |r.value| == n && |r.rest| <= |bytes|
    decreases n
  {
    if n == 0 then Ok([], bytes)
    else
      match Take(bytes, size)
      case Error(e) => Error(e)
      case Ok(w, bytes') =>
        match TakeWords(bytes', n - 1, size)
        case Error(e) => Error(e)
        case Ok(ws, rest) => Ok([Number(w)] + ws, rest)
  }

  /** Turns stored distances back into positions; None past the end of the context. */
  function Positions(deltas: seq<Byte>, last: int, count: nat): (r: Option<seq<nat>>)
    requires -1 <= last < count
    ensures r.Some? ==> |r.value| == |deltas| && forall p :: p in r.value ==> p < count
  {
    if deltas == [] then Some([])
    else
      var p := last + deltas[0] + 1;
      if p >= count then None
      else
        var more := Positions(deltas[1..], p, count);
        if more.None? then None else Some([p] + more.value)
  }

  function Zip(positions: seq<nat>, values: seq<nat>): (r: seq<Change>)
    requires |positions| == |values|
    ensures |r| == |positions| && forall i :: 0 <= i < |r| ==> r[i].position == positions[i]
  {
    seq(|positions|, i requires 0 <= i < |positions| => Change(positions[i], values[i]))
  }

  function DecodeChanges(bytes: seq<Byte>, n: nat, arch: Arch): (r: Read<seq<Change>>)
    ensures r.Ok? ==> |r.rest| <= |bytes| && forall i :: 0 <= i < |r.value| ==> r.value[i].position < RegisterWords(arch)
  {
    if n == 0 then Ok([], bytes)
    else if n > RegisterWords(arch) then Error(BadCount)
    else
      match Take(bytes, n)
      case Error(e) => Error(e)
      case Ok(deltas, bytes1) =>
        match TakeWords(bytes1, n, WordSize(arch))
        case Error(e) => Error(e)
        case Ok(values, rest) =>
          var positions := Positions(deltas, -1, RegisterWords(arch));
          if positions.None? then Error(OutOfBounds)
          else
            assert forall i :: 0 <= i < n ==> positions.value[i] in positions.value;
            Ok(Zip(positions.value, values), rest)
  }

  /** New contents follow for the accesses whose flag does not say "unchanged". */
  function DecodeNew(bytes: seq<Byte>, flags: seq<Byte>, olds: seq<nat>, size: nat): (r: Read<seq<nat>>)
    requires |flags| == |olds|
    ensures r.Ok? ==> |r.value| == |olds| && |r.rest| <= |bytes|
  {
    if flags == [] then Ok([], bytes)
    else if flags[0] % 2 == 1 then
      match DecodeNew(bytes, flags[1..], olds[1..], size)
      case Error(e) => Error(e)
      case Ok(more, rest) => Ok([olds[0]] + more, rest)
    else
      match Take(bytes, size)
      case Error(e) => Error(e)
      case Ok(w, bytes1) =>
        match DecodeNew(bytes1, flags[1..], olds[1..], size)
        case Error(e) => Error(e)
        case Ok(more, rest) => Ok([Number(w)] + more, rest)
  }

  function Accesses(addresses: seq<nat>, olds: seq<nat>, news: seq<nat>): (r: seq<MemoryAccess>)
    requires |addresses| == |olds| == |news|
    ensures |r| == |addresses|
  {
    seq(|addresses|, i requires 0 <= i < |addresses| => MemoryAccess(addresses[i], olds[i], news[i]))
  }

  function DecodeMemory(bytes: seq<Byte>, n: nat, arch: Arch): (r: Read<seq<MemoryAccess>>)
    ensures r.Ok? ==> |r.rest| <= |bytes|
  {
    if n == 0 then Ok([], bytes)
    else if n > MAX_MEMORY_OPERANDS then Error(TooManyOperands)
    else
      match Take(bytes, n)
      case Error(e) => Error(e)
      case Ok(flags, bytes1) =>
        match TakeWords(bytes1, n, WordSize(arch))
        case Error(e) => Error(e)
        case Ok(addresses, bytes2) =>
          match TakeWords(bytes2, n, WordSize(arch))
          case Error(e) => Error(e)
          case Ok(olds, bytes3) =>
            match DecodeNew(bytes3, flags, olds, WordSize(arch))
            case Error(e) => Error(e)
            case Ok(news, rest) =>
              Ok(Accesses(addresses, olds, news), rest)
  }

  /** Reads the block whose type byte 0 has already been consumed. */
  function DecodeBody(bytes: seq<Byte>, arch: Arch): (r: Read<Block>)
    ensures r.Ok? ==> |r.rest| <= |bytes| && PositionsBelow(r.value, arch)
  {
    match Take(bytes, 3)
    case Error(e) => Error(e)
    case Ok(h, bytes1) =>
      if h[2] >= 0x80 then
        match Take(bytes1, 4)
        case Error(e) => Error(e)
        case Ok(tid, bytes2) => DecodeContent(bytes2, Some(Number(tid)), h, arch)
      else DecodeContent(bytes1, None, h, arch)
  }

  predicate PositionsBelow(b: Block, arch: Arch) {
    forall i :: 0 <= i < |b.changes| ==> b.changes[i].position < RegisterWords(arch)
  }

  function DecodeContent(bytes: seq<Byte>, threadId: Option<nat>, h: seq<Byte>, arch: Arch): (r: Read<Block>)
    requires |h| == 3
    ensures r.Ok? ==> |r.rest| <= |bytes| && PositionsBelow(r.value, arch)
  {
    var size := h[2] % 16;
    // A short read yields a short opcode; only an empty one is an error.
    var opcode := bytes[..if size <= |bytes| then size else |bytes|];
    if opcode == [] then Error(NoOpcode)
    else
      match DecodeChanges(bytes[|opcode|..], h[0], arch)
      case Error(e) => Error(e)
      case Ok(changes, bytes1) =>
        match DecodeMemory(bytes1, h[1], arch)
        case Error(e) => Error(e)
        case Ok(memory, rest) => Ok(Block(threadId, opcode, changes, memory), rest)
  }

  /** Reads one block; None for a user-defined block, which is skipped by its stored size. */
  function DecodeBlock(bytes: seq<Byte>, arch: Arch): (r: Read<Option<Block>>)
    requires bytes != []
    ensures r.Ok? ==> |r.rest| < |bytes|
    ensures r.Ok? && r.value.Some? ==> PositionsBelow(r.value.value, arch)
  {
    if bytes[0] == 0 then
      match DecodeBody(bytes[1..], arch)
      case Error(e) => Error(e)
      case Ok(b, rest) => Ok(Some(b), rest)
    else if bytes[0] >= 0x80 then
      match Take(bytes[1..], 4)
      case Error(e) => Error(e)
      case Ok(size, body) =>
        var n := Number(size);
        Ok(None, if n <= |body| then body[n..] else [])
    else Error(UnexpectedType)
  }

  // ----- decoding inverts encoding -----

  lemma TakePrefix(head: seq<Byte>, rest: seq<Byte>)
    ensures Take(head + rest, |head|) == Ok(head, rest)
  {
    assert (head + rest)[..|head|] == head && (head + rest)[|head|..] == rest;
  }

  predicate AllBelow(words: seq<nat>, limit: nat) {
    forall i :: 0 <= i < |words| ==> words[i] < limit
  }

  lemma TakeWordsStep(bytes: seq<Byte>, n: nat, size: nat)
    ensures TakeWords(bytes, n, size) ==
      if n == 0 then Ok([], bytes)
      else
        match Take(bytes, size)
        case Error(e) => Error(e)
        case Ok(w, bytes') =>
          match TakeWords(bytes', n - 1, size)
          case Error(e) => Error(e)
          case Ok(ws, rest) => Ok([Number(w)] + ws, rest)
  {
    hide Take, Number;
  }

  lemma FirstWord(words: seq<nat>, size: nat, rest: seq<Byte>)
    requires words != []
    ensures WordsBytes(words, size) + rest == Bytes(words[0], size) + (WordsBytes(words[1..], size) + rest)
  {
    hide Bytes;
  }

  lemma {:induction false} TakeWordsPrefix(words: seq<nat>, size: nat, rest: seq<Byte>)
    requires AllBelow(words, Limit(size))
    ensures TakeWords(WordsBytes(words, size) + rest, |words|, size) == Ok(words, rest)
  {
    hide TakeWords, Bytes, Number, Limit, Take;
    TakeWordsStep(WordsBytes(words, size) + rest, |words|, size);
    if words == [] {
      assert WordsBytes(words, size) + rest == rest;
    } else {
      hide WordsBytes;
      FirstWord(words, size, rest);
      TakePrefix(Bytes(words[0], size), WordsBytes(words[1..], size) + rest);
      NumberOfBytes(words[0], size);
      TakeWordsPrefix(words[1..], size, rest);
      assert [words[0]] + words[1..] == words;
    }
  }

  function PositionList(changes: seq<Change>): (r: seq<nat>)
    ensures |r| == |changes|
  {
    seq(|changes|, i requires 0 <= i < |changes| => changes[i].position)
  }

  lemma PositionsStep(delta: Byte, deltas: seq<Byte>, last: int, count: nat)
    requires -1 <= last && last + delta + 1 < count
    ensures Positions([delta] + deltas, last, count) ==
      var more := Positions(deltas, last + delta + 1, count);
      if more.None? then None else Some([last + delta + 1] + more.value)
  {
    assert ([delta] + deltas)[1..] == deltas;
  }

  lemma DeltaAt(changes: seq<Change>, k: nat)
    requires k < |changes| && Ascending(changes) && changes[k].position < 256
    ensures LastPosition(changes[..k]) < changes[k].position == LastPosition(changes[..k + 1])
    ensures Deltas(changes)[k..] == [changes[k].position - LastPosition(changes[..k]) - 1] + Deltas(changes)[k + 1..]
    ensures PositionList(changes)[k..] == [changes[k].position] + PositionList(changes)[k + 1..]
  {
    assert k > 0 ==> changes[..k][k - 1] == changes[k - 1];
    assert changes[..k + 1][k] == changes[k];
    assert Deltas(changes)[k] == changes[k].position - LastPosition(changes[..k]) - 1;
  }

  lemma {:induction false} PositionsOfDeltas(changes: seq<Change>, k: nat, count: nat)
    requires k <= |changes| && Ascending(changes) && count <= 256
    requires AllBelow(PositionList(changes), count)
    ensures -1 <= LastPosition(changes[..k]) < count
    ensures Positions(Deltas(changes)[k..], LastPosition(changes[..k]), count) == Some(PositionList(changes)[k..])
    decreases |changes| - k
  {
    hide Deltas, Positions, Ascending;
    assert forall i :: 0 <= i < |changes| ==> PositionList(changes)[i] == changes[i].position;
    assert k > 0 ==> changes[..k][k - 1] == changes[k - 1];
    if k < |changes| {
      hide PositionList;
      DeltaAt(changes, k);
      PositionsOfDeltas(changes, k + 1, count);
      var last := LastPosition(changes[..k]);
      PositionsStep(changes[k].position - last - 1, Deltas(changes)[k + 1..], last, count);
    } else {
      assert PositionList(changes)[k..] == [] && Deltas(changes)[k..] == [];
      NoPositions(LastPosition(changes[..k]), count);
    }
  }

  lemma NoPositions(last: int, count: nat)
    requires -1 <= last < count
    ensures Positions([], last, count) == Some([])
  {
  }

  lemma NoRegisters(b: Block, arch: Arch)
    requires b.changes == []
    ensures RegisterPart(b, arch) == []
  {
  }

  lemma DecodeChangesInverts(b: Block, arch: Arch, rest: seq<Byte>)
    requires ValidBlock(b, arch)
    ensures DecodeChanges(RegisterPart(b, arch) + rest, |b.changes|, arch) == Ok(b.changes, rest)
  {
    hide WordsBytes, TakeWords, Take, Positions, Deltas, Limit, Span;
    var size := WordSize(arch);
    var values := ChangeValues(b.changes);
    var more := WordsBytes(values, size) + rest;
    assert RegisterPart(b, arch) + rest == Deltas(b.changes) + more;
    if b.changes != [] {
      TakePrefix(Deltas(b.changes), more);
      TakeWordsPrefix(values, size, rest);
      PositionsOfDeltas(b.changes, 0, RegisterWords(arch));
      assert b.changes[..0] == [];
      assert Deltas(b.changes)[0..] == Deltas(b.changes) && PositionList(b.changes)[0..] == PositionList(b.changes);
      var positions := Positions(Deltas(b.changes), -1, RegisterWords(arch)).value;
      assert Zip(positions, values) == b.changes;
    } else {
      NoRegisters(b, arch);
      assert [] + rest == rest;
    }
  }

  lemma NewContentsCons(m: MemoryAccess, memory: seq<MemoryAccess>)
    ensures NewContents([m] + memory) == (if m.before == m.after then [] else [m.after]) + NewContents(memory)
  {
    if memory == [] {
      assert [m] + memory == [m] && [m][..0] == [];
    } else {
      var n := |memory|;
      assert ([m] + memory)[..n] == [m] + memory[..n - 1];
      NewContentsCons(m, memory[..n - 1]);
    }
  }

  function NewList(memory: seq<MemoryAccess>): (r: seq<nat>)
    ensures |r| == |memory|
  {
    seq(|memory|, i requires 0 <= i < |memory| => memory[i].after)
  }

  lemma ListsCons(m: MemoryAccess, others: seq<MemoryAccess>)
    ensures MemoryFlags([m] + others) == [if m.before == m.after then 1 else 0] + MemoryFlags(others)
    ensures OldContents([m] + others) == [m.before] + OldContents(others)
    ensures NewList([m] + others) == [m.after] + NewList(others)
  {
  }

  lemma {:induction false} DecodeNewInverts(memory: seq<MemoryAccess>, size: nat, rest: seq<Byte>)
    requires AllBelow(NewList(memory), Limit(size))
    ensures DecodeNew(WordsBytes(NewContents(memory), size) + rest, MemoryFlags(memory), OldContents(memory), size)
         == Ok(NewList(memory), rest)
  {
    hide MemoryFlags, OldContents, NewList, NewContents;
    if memory == [] {
      assert NewContents(memory) == [] by { EmptyLists(memory); }
      assert WordsBytes(NewContents(memory), size) + rest == rest;
      EmptyLists(memory);
    } else {
      var m, others := memory[0], memory[1..];
      assert memory == [m] + others;
      ListsCons(m, others);
      NewContentsCons(m, others);
      assert NewList(memory)[0] == m.after;
      assert AllBelow(NewList(others), Limit(size)) by {
        assert forall i :: 0 <= i < |others| ==> NewList(others)[i] == NewList(memory)[i + 1];
      }
      DecodeNewInverts(others, size, rest);
      DecodeNewStep(m, others, size, rest);
    }
  }

  lemma EmptyLists(memory: seq<MemoryAccess>)
    requires memory == []
    ensures NewContents(memory) == [] && MemoryFlags(memory) == [] && OldContents(memory) == [] && NewList(memory) == []
  {
  }

  lemma DecodeUnchanged(bytes: seq<Byte>, flags: seq<Byte>, old0: nat, olds: seq<nat>, size: nat)
    requires |flags| == |olds|
    ensures DecodeNew(bytes, [1] + flags, [old0] + olds, size) ==
      match DecodeNew(bytes, flags, olds, size)
      case Error(e) => Error(e)
      case Ok(news, rest) => Ok([old0] + news, rest)
  {
    assert ([1] + flags)[1..] == flags && ([old0] + olds)[1..] == olds;
  }

  lemma DecodeChanged(word: seq<Byte>, more: seq<Byte>, flags: seq<Byte>, old0: nat, olds: seq<nat>, size: nat)
    requires |flags| == |olds| && |word| == size
    ensures DecodeNew(word + more, [0] + flags, [old0] + olds, size) ==
      match DecodeNew(more, flags, olds, size)
      case Error(e) => Error(e)
      case Ok(news, rest) => Ok([Number(word)] + news, rest)
  {
    hide Number, Take;
    assert ([0] + flags)[1..] == flags && ([old0] + olds)[1..] == olds;
    TakePrefix(word, more);
  }

  lemma WordsBytesCons(word: nat, words: seq<nat>, size: nat)
    ensures WordsBytes([word] + words, size) == Bytes(word, size) + WordsBytes(words, size)
  {
    hide Bytes;
    assert ([word] + words)[1..] == words;
  }

  lemma DecodeNewStep(m: MemoryAccess, others: seq<MemoryAccess>, size: nat, rest: seq<Byte>)
    requires m.after < Limit(size)
    ensures var more := WordsBytes(NewContents(others), size) + rest;
      DecodeNew(WordsBytes(NewContents([m] + others), size) + rest,
                [if m.before == m.after then 1 else 0] + MemoryFlags(others), [m.before] + OldContents(others), size) ==
      match DecodeNew(more, MemoryFlags(others), OldContents(others), size)
      case Error(e) => Error(e)
      case Ok(news, rest) => Ok([m.after] + news, rest)
  {
    hide MemoryFlags, OldContents, NewContents, DecodeNew, WordsBytes, Bytes, Number, Limit;
    NewContentsCons(m, others);
    var words := WordsBytes(NewContents(others), size);
    var flags, olds := MemoryFlags(others), OldContents(others);
    if m.before == m.after {
      assert NewContents([m] + others) == NewContents(others);
      DecodeUnchanged(words + rest, flags, m.before, olds, size);
    } else {
      WordsBytesCons(m.after, NewContents(others), size);
      assert Bytes(m.after, size) + words + rest == Bytes(m.after, size) + (words + rest);
      NumberOfBytes(m.after, size);
      DecodeChanged(Bytes(m.after, size), words + rest, flags, m.before, olds, size);
    }
  }

  lemma DecodeMemoryInverts(b: Block, arch: Arch, rest: seq<Byte>)
    requires ValidBlock(b, arch)
    ensures DecodeMemory(MemoryPart(b, arch) + rest, |b.memory|, arch) == Ok(b.memory, rest)
  {
    hide WordsBytes, TakeWords, DecodeNew, Limit;
    var size, memory := WordSize(arch), b.memory;
    var bytes3 := WordsBytes(NewContents(memory), size) + rest;
    var bytes2 := WordsBytes(OldContents(memory), size) + bytes3;
    var bytes1 := WordsBytes(Addresses(memory), size) + bytes2;
    assert MemoryPart(b, arch) + rest == MemoryFlags(memory) + bytes1;
    if memory == [] {
      assert NewContents(memory) == [];
      assert MemoryPart(b, arch) + rest == rest;
    } else {
      TakePrefix(MemoryFlags(memory), bytes1);
      TakeWordsPrefix(Addresses(memory), size, bytes2);
      TakeWordsPrefix(OldContents(memory), size, bytes3);
      DecodeNewInverts(memory, size, rest);
      assert Accesses(Addresses(memory), OldContents(memory), NewList(memory)) == memory;
    }
  }

  function BlockHead(b: Block): seq<Byte> {
    HeadBytes(|b.changes|, |b.memory|, b.threadId, |b.opcode|)
  }

  lemma EncodeParts(b: Block, arch: Arch, rest: seq<Byte>)
    ensures Encode(b, arch) + rest ==
      [0] + (BlockHead(b) + (ThreadBytes(b.threadId) + (b.opcode + (RegisterPart(b, arch) + (MemoryPart(b, arch) + rest)))))
  {
    hide RegisterPart, MemoryPart, Bytes;
  }

  lemma DecodeContentInverts(b: Block, arch: Arch, rest: seq<Byte>)
    requires ValidBlock(b, arch)
    ensures DecodeContent(b.opcode + (RegisterPart(b, arch) + (MemoryPart(b, arch) + rest)), b.threadId, BlockHead(b), arch)
         == if b.opcode == [] then Error(NoOpcode) else Ok(b, rest)
  {
    hide DecodeChanges, DecodeMemory, RegisterPart, MemoryPart;
    var more := MemoryPart(b, arch) + rest;
    TakePrefix(b.opcode, RegisterPart(b, arch) + more);
    assert BlockHead(b)[2] % 16 == |b.opcode|;
    DecodeChangesInverts(b, arch, more);
    DecodeMemoryInverts(b, arch, rest);
  }

  /** Reading what the recorder wrote gives the block back, except that a block without
      an opcode is rejected. */
  lemma DecodeInvertsEncode(b: Block, arch: Arch, rest: seq<Byte>)
    requires ValidBlock(b, arch)
    ensures DecodeBlock(Encode(b, arch) + rest, arch) == if b.opcode == [] then Error(NoOpcode) else Ok(Some(b), rest)
  {
    hide DecodeContent, RegisterPart, MemoryPart, Encode, Bytes, Number, Take;
    var content := b.opcode + (RegisterPart(b, arch) + (MemoryPart(b, arch) + rest));
    EncodeParts(b, arch, rest);
    assert ([0] + (BlockHead(b) + (ThreadBytes(b.threadId) + content)))[1..] == BlockHead(b) + (ThreadBytes(b.threadId) + content);
    TakePrefix(BlockHead(b), ThreadBytes(b.threadId) + content);
    if b.threadId.Some? {
      TakePrefix(ThreadBytes(b.threadId), content);
      NumberOfBytes(b.threadId.value, 4);
    } else {
      assert ThreadBytes(b.threadId) + content == content;
    }
    DecodeContentInverts(b, arch, rest);
  }

  // ----- files that the recorder did not write -----

  /** A user-defined block is skipped, whatever it holds. */
  lemma UserBlockIsSkipped(t: Byte, payload: seq<Byte>, rest: seq<Byte>, arch: Arch)
    requires t >= 0x80 && |payload| < 0x1_0000_0000
    ensures DecodeBlock([t] + (Bytes(|payload|, 4) + (payload + rest)), arch) == Ok(None, rest)
  {
    hide Bytes, Number, Take;
    var size := Bytes(|payload|, 4);
    assert Limit(4) == 0x1_0000_0000 by { LimitOfFour(); }
    NumberOfBytes(|payload|, 4);
    TakePrefix(size, payload + rest);
    assert ([t] + (size + (payload + rest)))[1..] == size + (payload + rest);
    assert (payload + rest)[|payload|..] == rest;
  }

  lemma LimitOfFour()
    ensures Limit(4) == 0x1_0000_0000
  {
    assert Limit(1) == 256;
    assert Limit(2) == 0x1_0000;
  }

  /** Other types are errors. */
  lemma UnknownTypeFails(t: Byte, rest: seq<Byte>, arch: Arch)
    requires 0 < t < 0x80
    ensures DecodeBlock([t] + rest, arch) == Error(UnexpectedType)
  {
  }

  /** Too many registers or memory operands are errors, and so is a block that has not all it announces. */
  lemma CountsAreChecked(bytes: seq<Byte>, n: nat, arch: Arch)
    ensures n > (if arch.X64? then 172 else 216) ==> DecodeChanges(bytes, n, arch) == Error(BadCount)
    ensures n > 32 ==> DecodeMemory(bytes, n, arch) == Error(TooManyOperands)
    ensures 0 < n <= 172 && |bytes| < n ==> DecodeChanges(bytes, n, arch) == Error(Truncated)
    ensures 0 < n <= 32 && |bytes| < n ==> DecodeMemory(bytes, n, arch) == Error(Truncated)
  {
  }

  function Sum(s: seq<Byte>): nat {
    if s == [] then 0 else s[0] + Sum(s[1..])
  }

  /** The stored distances are accepted exactly if they add up to positions in the context. */
  lemma {:induction false} PositionsFitIff(deltas: seq<Byte>, last: int, count: nat)
    requires -1 <= last < count
    ensures Positions(deltas, last, count).Some? <==> last + Sum(deltas) + |deltas| < count
  {
    if deltas != [] {
      var p := last + deltas[0] + 1;
      if p < count {
        PositionsFitIff(deltas[1..], p, count);
      }
    }
  }

  function Evens(flags: seq<Byte>): nat {
    if flags == [] then 0 else Evens(flags[1..]) + 1 - flags[0] % 2
  }

  /** Only the lowest bit of a flag decides: where it is set, the content has not changed and none is stored. */
  lemma {:induction false} LowestBitsDecide(bytes: seq<Byte>, flags: seq<Byte>, olds: seq<nat>, size: nat)
    requires |flags| == |olds|
    ensures var r := DecodeNew(bytes, flags, olds, size);
      r.Ok? ==>
        && (forall i :: 0 <= i < |flags| && flags[i] % 2 == 1 ==> r.value[i] == olds[i])
        && |bytes| == |r.rest| + Span(Evens(flags), size)
  {
    hide Number, Span;
    if flags == [] {
      OneSpan(size);
    } else {
      var even := flags[0] % 2 == 0;
      var bytes1 := if even && size <= |bytes| then bytes[size..] else bytes;
      LowestBitsDecide(bytes1, flags[1..], olds[1..], size);
      SpanOfSum(Evens(flags[1..]), 1, size);
      OneSpan(size);
      assert forall i :: 1 <= i < |flags| ==> flags[i] == flags[1..][i - 1] && olds[i] == olds[1..][i - 1];
    }
  }

  lemma OneSpan(size: nat)
    ensures Span(0, size) == 0 && Span(1, size) == size
  {
  }

  lemma SpanOfSum(a: nat, b: nat, size: nat)
    ensures Span(a + b, size) == Span(a, size) + Span(b, size)
  {
  }
}
