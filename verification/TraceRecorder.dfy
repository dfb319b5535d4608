/** The trace recorder: every instruction is written one call late, as the difference to
    what the reader already knows. */
module TraceRecorder {
  import opened Options
  import opened TraceBlocks

  const DUMP_INTERVAL := 512

  /** Range of the recorder's unsigned instruction counter. */
  const COUNTER := 0x1_0000_0000

  datatype Cell = Cell(address: nat, content: nat)

  /** The debuggee at one instruction: registers, thread, opcode and accessed memory. */
  datatype Snapshot = Snapshot(context: seq<nat>, threadId: nat, opcode: seq<Byte>, memory: seq<Cell>)

  ghost predicate ValidSnapshot(s: Snapshot, arch: Arch) {
    var limit := Limit(WordSize(arch));
    && |s.context| == RegisterWords(arch) && AllBelow(s.context, limit)
    && s.threadId < Limit(4)
    && |s.opcode| < 16
    && |s.memory| <= MAX_MEMORY_OPERANDS
    && forall i :: 0 <= i < |s.memory| ==> s.memory[i].address < limit && s.memory[i].content < limit
  }

  /** The recorder's fields; `pending` is the instruction seen but not yet written. */
  datatype Recorder = Recorder(
    enabled: bool,
    prevAvailable: bool,
    pending: Snapshot,
    changed: seq<bool>,
    needThreadId: bool,
    recorded: nat)

  ghost predicate ValidRecorder(r: Recorder, arch: Arch) {
    && |r.changed| == RegisterWords(arch)
    && r.recorded < COUNTER
    && (r.prevAvailable ==> ValidSnapshot(r.pending, arch))
  }

  /** Memory re-read at the pending instruction's addresses, one value an address. */
  ghost predicate ValidReread(after: seq<nat>, r: Recorder, arch: Arch) {
    r.prevAvailable ==> |after| == |r.pending.memory| && AllBelow(after, Limit(WordSize(arch)))
  }

  /** Once in 512 calls every register and the thread id are written. */
  predicate FullDumpDue(recorded: nat) {
    (recorded + COUNTER - 1) % COUNTER % DUMP_INTERVAL == 0
  }

  /** Unless the counter has wrapped around, a dump is due at the second of every 512 calls. */
  lemma DumpsAreDue(recorded: nat)
    requires recorded < 0x1_0000_0000
    ensures FullDumpDue(recorded) <==> recorded % 512 == 1
  {
    var x := (recorded + COUNTER - 1) % COUNTER;
    assert recorded > 0 ==> x == recorded - 1;
  }

  /** Register `i` goes into the block if it changes now, changed last time, or a full dump is due. */
  predicate Writes(r: Recorder, context: seq<nat>, i: nat)
    requires i < |r.pending.context| && i < |context| && i < |r.changed|
  {
    r.pending.context[i] != context[i] || r.changed[i] || FullDumpDue(r.recorded)
  }

  function Changes(r: Recorder, context: seq<nat>, n: nat): (c: seq<Change>)
    requires n <= |r.pending.context| && n <= |context| && n <= |r.changed|
    ensures |c| <= n
    ensures forall k :: 0 <= k < |c| ==> c[k].position < n && c[k].value == r.pending.context[c[k].position]
  {
    if n == 0 then []
    else if Writes(r, context, n - 1) then Changes(r, context, n - 1) + [Change(n - 1, r.pending.context[n - 1])]
    else Changes(r, context, n - 1)
  }

  predicate WritesThreadId(r: Recorder, threadId: nat) {
    threadId != r.pending.threadId || r.needThreadId || FullDumpDue(r.recorded)
  }

  function Accessed(cells: seq<Cell>, after: seq<nat>): (m: seq<MemoryAccess>)
    requires |cells| == |after|
    ensures |m| == |cells|
  {
    seq(|cells|, i requires 0 <= i < |cells| => MemoryAccess(cells[i].address, cells[i].content, after[i]))
  }

  /** The block that the next instruction's snapshot lets the recorder write. */
  function BlockOf(r: Recorder, next: Snapshot, after: seq<nat>): Block
    requires |next.context| == |r.pending.context| == |r.changed| && |after| == |r.pending.memory|
  {
    Block(
      if WritesThreadId(r, next.threadId) then Some(r.pending.threadId) else None,
      r.pending.opcode,
      Changes(r, next.context, |next.context|),
      Accessed(r.pending.memory, after))
  }

  /** The recorder after seeing `next`, given that the block was written completely. */
  function Advance(r: Recorder, next: Snapshot): Recorder
    requires |next.context| == |r.changed|
    requires r.prevAvailable ==> |next.context| == |r.pending.context|
  {
    var r' := r.(pending := next, prevAvailable := true, recorded := (r.recorded + 1) % COUNTER);
    if r.prevAvailable then
      r'.(changed := Differences(r.pending.context, next.context),
          needThreadId :=
            if WritesThreadId(r, next.threadId) then next.threadId != r.pending.threadId else r.needThreadId)
    else r'
  }

  function Differences(a: seq<nat>, b: seq<nat>): (d: seq<bool>)
    requires |a| == |b|
    ensures |d| == |a|
  {
    seq(|a|, i requires 0 <= i < |a| => a[i] != b[i])
  }

  /** After a flush, or when recording starts, everything counts as changed. */
  function Reset(r: Recorder): Recorder {
    r.(prevAvailable := false, needThreadId := true, changed := seq(|r.changed|, _ => true))
  }

  lemma ChangesAscend(r: Recorder, context: seq<nat>, n: nat)
    requires n <= |r.pending.context| && n <= |context| && n <= |r.changed|
    ensures Ascending(Changes(r, context, n))
  {
    if n > 0 {
      ChangesAscend(r, context, n - 1);
    }
  }

  lemma SnapshotSizes(s: Snapshot, arch: Arch)
    requires ValidSnapshot(s, arch)
    ensures |s.context| == RegisterWords(arch) && |s.opcode| < 16 && |s.memory| <= MAX_MEMORY_OPERANDS
  {
  }

  lemma BlockIsValid(r: Recorder, next: Snapshot, after: seq<nat>, arch: Arch)
    requires ValidRecorder(r, arch) && r.prevAvailable && ValidSnapshot(next, arch) && ValidReread(after, r, arch)
    ensures ValidBlock(BlockOf(r, next, after), arch)
  {
    ChangesAscend(r, next.context, |next.context|);
  }

  // ----- the recorder object -----

  /** memcpy into the write buffer. */
  method Put(buffer: array<Byte>, at: nat, bytes: seq<Byte>) returns (end: nat)
    requires at + |bytes| <= buffer.Length
    modifies buffer
    ensures end == at + |bytes|
    ensures buffer[..end] == old(buffer[..at]) + bytes
  {
    forall i | 0 <= i < |bytes| {
      buffer[at + i] := bytes[i];
    }
    end := at + |bytes|;
  }

  lemma DeltasAppend(changes: seq<Change>, c: Change)
    ensures Deltas(changes + [c]) == Deltas(changes) + [(c.position - LastPosition(changes) - 1) % 256]
  {
    assert (changes + [c])[..|changes|] == changes;
    assert forall i :: 0 <= i < |changes| ==> (changes + [c])[..i] == changes[..i];
  }

  lemma ChangeValuesAppend(changes: seq<Change>, c: Change, size: nat)
    ensures WordsBytes(ChangeValues(changes + [c]), size) == WordsBytes(ChangeValues(changes), size) + Bytes(c.value, size)
  {
    assert ChangeValues(changes + [c]) == ChangeValues(changes) + [c.value];
    WordsBytesAppend(ChangeValues(changes), c.value, size);
  }

  function ChangesOnly(changes: seq<Change>): Block {
    Block(None, [], changes, [])
  }

  lemma RegisterPartDependsOnChanges(b: Block, arch: Arch)
    ensures RegisterPart(ChangesOnly(b.changes), arch) == RegisterPart(b, arch)
  {
  }

  lemma MemoryPartDependsOnMemory(b: Block, arch: Arch)
    ensures MemoryPart(b, arch) == MemoryPart(Block(None, [], [], b.memory), arch)
  {
  }

  lemma NoWords(size: nat)
    ensures WordsBytes(ChangeValues([]), size) == []
  {
  }

  lemma NewContentsStep(memory: seq<MemoryAccess>, i: nat)
    requires i < |memory|
    ensures var soFar, m := NewContents(memory[..i]), memory[i];
      |soFar| <= i && NewContents(memory[..i + 1]) == if m.before == m.after then soFar else soFar + [m.after]
  {
    assert memory[..i + 1][..i] == memory[..i];
  }

  lemma ChangesStep(r: Recorder, context: seq<nat>, n: nat)
    requires n <= |r.pending.context| && n <= |context| && n <= |r.changed|
    ensures n == 0 ==> Changes(r, context, n) == []
    ensures n > 0 && Writes(r, context, n - 1) ==>
      Changes(r, context, n) == Changes(r, context, n - 1) + [Change(n - 1, r.pending.context[n - 1])]
    ensures n > 0 && !Writes(r, context, n - 1) ==> Changes(r, context, n) == Changes(r, context, n - 1)
  {
  }

  /** One more word still fits. */
  lemma Room(k: nat, n: nat, size: nat)
    ensures Span(k + 1, size) == Span(k, size) + size && Span(0, size) == 0
    ensures k < n ==> Span(k + 1, size) <= Span(n, size)
  {
    hide Span;
    OneSpan(size);
    if k < n {
      var more := n - k - 1;
      SpanOfSum(k + 1, more, size);
      assert n == k + 1 + more;
    }
    SpanOfSum(k, 1, size);
  }

  lemma Longer(written: seq<Byte>, head: seq<Byte>, middle: seq<Byte>, more: seq<Byte>)
    requires written == head + middle
    ensures written + more == head + (middle + more)
  {
  }

  class TraceRecordManager {
    const arch: Arch
    var rtEnabled: bool
    var rtPrevInstAvailable: bool
    var rtOld: Snapshot
    var rtOldContextChanged: array<bool>
    var rtNeedThreadId: bool
    var rtRecordedInstructions: nat
    /** The trace file behind its header. */
    var rtFile: seq<Byte>

    function State(): Recorder
      reads this, rtOldContextChanged
    {
      Recorder(rtEnabled, rtPrevInstAvailable, rtOld, rtOldContextChanged[..], rtNeedThreadId, rtRecordedInstructions)
    }

    ghost predicate Valid()
      reads this, rtOldContextChanged
    {
      ValidRecorder(State(), arch)
    }

    constructor (arch: Arch)
      ensures Valid() && this.arch == arch && !rtEnabled && fresh(rtOldContextChanged) && rtFile == []
    {
      this.arch := arch;
      rtEnabled, rtPrevInstAvailable, rtNeedThreadId, rtRecordedInstructions := false, false, false, 0;
      rtOld := Snapshot([], 0, [], []);
      rtOldContextChanged := new bool[RegisterWords(arch)](_ => false);
      rtFile := [];
    }

    /** The resets of enabling the recording. */
    method StartRecording()
      requires Valid()
      modifies this, rtOldContextChanged
      ensures Valid() && rtOldContextChanged == old(rtOldContextChanged)
      ensures State() == Reset(old(State())).(enabled := true, recorded := 0)
      ensures rtFile == old(rtFile)
    {
      rtPrevInstAvailable := false;
      rtEnabled := true;
      rtRecordedInstructions := 0;
      rtNeedThreadId := true;
      SetAllChanged();
    }

    /** The resets of disabling the recording. */
    method StopRecording()
      requires Valid()
      modifies this
      ensures Valid() && rtOldContextChanged == old(rtOldContextChanged) && rtFile == old(rtFile)
      ensures State() ==
        if old(rtEnabled) then old(State()).(enabled := false, prevAvailable := false) else old(State())
    {
      if rtEnabled {
        rtPrevInstAvailable := false;
        rtEnabled := false;
      }
    }

    method SetAllChanged()
      modifies rtOldContextChanged
      ensures rtOldContextChanged[..] == seq(rtOldContextChanged.Length, _ => true)
    {
      for i := 0 to rtOldContextChanged.Length
        invariant forall k :: 0 <= k < i ==> rtOldContextChanged[k]
      {
        rtOldContextChanged[i] := true;
      }
    }

    /** Writes the pending instruction, if there is one, and makes `next` the pending one.
        `written` bytes reach the disk; a short write ends the recording. */
    method TraceExecuteRecord(next: Snapshot, after: seq<nat>, written: nat)
      requires Valid() && ValidSnapshot(next, arch) && ValidReread(after, State(), arch)
      modifies this, rtOldContextChanged
      ensures Valid() && rtOldContextChanged == old(rtOldContextChanged)
      ensures !old(rtEnabled) ==> State() == old(State()) && rtFile == old(rtFile)
      ensures old(rtEnabled) && !old(rtPrevInstAvailable) ==>
        State() == Advance(old(State()), next) && rtFile == old(rtFile)
      ensures old(rtEnabled) && old(rtPrevInstAvailable) ==>
        var bytes := Encode(BlockOf(old(State()), next, after), arch);
        if written < |bytes| then
          rtFile == old(rtFile) + bytes[..written] && State() == Advance(old(State()), next).(enabled := false)
        else
          rtFile == old(rtFile) + bytes && State() == Advance(old(State()), next)
    {
      hide BlockOf, Encode, FullDumpDue, Limit, RegisterWords, Differences;
      if !rtEnabled {
        return;
      }
      ghost var r0 := State();
      var buffer := new Byte[BUFFER_SIZE];
      var ptr := 0;
      if rtPrevInstAvailable {
        ptr := WriteBlock(buffer, next, after);
      }
      rtOld := next;
      if rtPrevInstAvailable {
        var bytes := buffer[..ptr];
        if written < |bytes| {
          rtFile := rtFile + bytes[..written];
          rtEnabled := false;
        } else {
          rtFile := rtFile + bytes;
        }
      }
      rtPrevInstAvailable := true;
      rtRecordedInstructions := (rtRecordedInstructions + 1) % COUNTER;
      assert !r0.prevAvailable ==> rtOldContextChanged[..] == r0.changed;
    }

    /** Fills the buffer pass by pass; every store below is a checked array access. */
    method WriteBlock(buffer: array<Byte>, next: Snapshot, after: seq<nat>) returns (ptr: nat)
      requires Valid() && rtPrevInstAvailable && ValidSnapshot(next, arch) && ValidReread(after, State(), arch)
      requires buffer.Length == BUFFER_SIZE
      modifies buffer, rtOldContextChanged, this`rtNeedThreadId
      ensures ptr <= BUFFER_SIZE
      ensures buffer[..ptr] == Encode(BlockOf(old(State()), next, after), arch)
      ensures rtNeedThreadId == Advance(old(State()), next).needThreadId
      ensures rtOldContextChanged[..] == Advance(old(State()), next).changed
    {
      hide Changes, Limit, MemoryPart, FullDumpDue, Accessed, ValidSnapshot, Header, RegisterPart, WordsBytes, Bytes;
      SnapshotSizes(rtOld, arch);
      SnapshotSizes(next, arch);
      ghost var b := BlockOf(State(), next, after);
      var writeThreadId;
      ptr, writeThreadId := WriteHead(buffer, next);
      ghost var head := buffer[..ptr];
      ptr := WriteRegisters(buffer, ptr, next.context, head);
      if writeThreadId {
        rtNeedThreadId := next.threadId != rtOld.threadId;
      }
      ptr := WriteMemory(buffer, ptr, Accessed(rtOld.memory, after), buffer[..ptr]);
      MemoryPartDependsOnMemory(b, arch);
      RegisterPartDependsOnChanges(b, arch);
    }

    method WriteHead(buffer: array<Byte>, next: Snapshot) returns (ptr: nat, writeThreadId: bool)
      requires Valid() && rtPrevInstAvailable && |next.context| == RegisterWords(arch)
      requires buffer.Length == BUFFER_SIZE
      modifies buffer
      ensures writeThreadId == WritesThreadId(State(), next.threadId)
      ensures ptr <= 23
      ensures buffer[..ptr] == Header(|Changes(State(), next.context, |next.context|)|, |rtOld.memory|,
        if writeThreadId then Some(rtOld.threadId) else None, |rtOld.opcode|) + rtOld.opcode
    {
      hide Changes, Header, Limit;
      ptr, writeThreadId := WriteHeader(buffer, next);
      ptr := Put(buffer, ptr, rtOld.opcode);
    }

    /** The two passes over the registers that write to the buffer. */
    method WriteRegisters(buffer: array<Byte>, start: nat, context: seq<nat>, ghost head: seq<Byte>) returns (ptr: nat)
      requires Valid() && rtPrevInstAvailable && |context| == RegisterWords(arch)
      requires start + RegisterWords(arch) + Span(RegisterWords(arch), WordSize(arch)) <= buffer.Length && buffer[..start] == head
      modifies buffer, rtOldContextChanged
      ensures ptr <= start + RegisterWords(arch) + Span(RegisterWords(arch), WordSize(arch))
      ensures buffer[..ptr] == head + RegisterPart(ChangesOnly(Changes(old(State()), context, |context|)), arch)
      ensures rtOldContextChanged[..] == Differences(rtOld.context, context)
    {
      hide Changes, Deltas, WordsBytes, Bytes, Limit, FullDumpDue, Differences, ValidSnapshot, Span, RegisterWords;
      SnapshotSizes(rtOld, arch);
      ghost var r := State();
      ptr := WritePositions(buffer, start, context, r, head);
      ptr := WriteValues(buffer, ptr, context, r, buffer[..ptr]);
    }

    method WriteHeader(buffer: array<Byte>, next: Snapshot) returns (ptr: nat, writeThreadId: bool)
      requires Valid() && rtPrevInstAvailable && |next.context| == RegisterWords(arch)
      requires buffer.Length == BUFFER_SIZE
      modifies buffer
      ensures writeThreadId == WritesThreadId(State(), next.threadId)
      ensures ptr == (if writeThreadId then 8 else 4)
      ensures buffer[..ptr] == Header(|Changes(State(), next.context, |next.context|)|, |rtOld.memory|,
        if writeThreadId then Some(rtOld.threadId) else None, |rtOld.opcode|)
    {
      hide Changes, Bytes, Limit;
      var changed := CountChanges(next.context);
      writeThreadId := next.threadId != rtOld.threadId || rtNeedThreadId || FullDumpDue(rtRecordedInstructions);
      var blockFlags := (if writeThreadId then 0x80 else 0) + |rtOld.opcode|;
      ptr := Put(buffer, 0, [0, changed, |rtOld.memory|, blockFlags]);
      if writeThreadId {
        ptr := Put(buffer, ptr, Bytes(rtOld.threadId, 4));
      }
    }

    method CountChanges(context: seq<nat>) returns (changed: Byte)
      requires Valid() && rtPrevInstAvailable && |context| == RegisterWords(arch)
      ensures changed == |Changes(State(), context, |context|)|
    {
      changed := 0;
      for i := 0 to rtOldContextChanged.Length
        invariant changed == |Changes(State(), context, i)| <= i
      {
        if rtOld.context[i] != context[i] || rtOldContextChanged[i] || FullDumpDue(rtRecordedInstructions) {
          changed := changed + 1;
        }
      }
    }

    method WritePositions(buffer: array<Byte>, start: nat, context: seq<nat>, ghost r: Recorder, ghost head: seq<Byte>)
      returns (ptr: nat)
      requires Valid() && rtPrevInstAvailable && |context| == RegisterWords(arch) && r == State()
      requires start + RegisterWords(arch) <= buffer.Length && buffer[..start] == head
      modifies buffer
      ensures ptr <= start + RegisterWords(arch)
      ensures buffer[..ptr] == head + Deltas(Changes(r, context, |context|))
    {
      hide Changes, Deltas, RegisterWords, Limit, ValidSnapshot;
      SnapshotSizes(rtOld, arch);
      ptr := start;
      var lastChangedPosition := -1;
      ChangesStep(r, context, 0);
      assert head + Deltas([]) == head;
      for i := 0 to rtOldContextChanged.Length
        invariant start <= ptr <= start + i
        invariant lastChangedPosition == LastPosition(Changes(r, context, i)) < i
        invariant buffer[..ptr] == head + Deltas(Changes(r, context, i))
      {
        ghost var soFar := Changes(r, context, i);
        ChangesStep(r, context, i + 1);
        if rtOld.context[i] != context[i] || rtOldContextChanged[i] || FullDumpDue(rtRecordedInstructions) {
          ptr := WritePosition(buffer, ptr, Change(i, rtOld.context[i]), lastChangedPosition, soFar, head);
          lastChangedPosition := i;
        }
      }
    }

    method WritePosition(buffer: array<Byte>, start: nat, c: Change, last: int, ghost soFar: seq<Change>, ghost head: seq<Byte>)
      returns (ptr: nat)
      requires start < buffer.Length && last == LastPosition(soFar) < c.position
      requires buffer[..start] == head + Deltas(soFar)
      modifies buffer
      ensures ptr == start + 1
      ensures buffer[..ptr] == head + Deltas(soFar + [c])
    {
      hide Deltas;
      DeltasAppend(soFar, c);
      Longer(buffer[..start], head, Deltas(soFar), [(c.position - last - 1) % 256]);
      ptr := Put(buffer, start, [(c.position - last - 1) % 256]);
    }

    /** Writes the register values and replaces each change flag just after its last use. */
    method WriteValues(buffer: array<Byte>, start: nat, context: seq<nat>, ghost r: Recorder, ghost head: seq<Byte>)
      returns (ptr: nat)
      requires Valid() && rtPrevInstAvailable && |context| == RegisterWords(arch) && r == State()
      requires start + Span(RegisterWords(arch), WordSize(arch)) <= buffer.Length && buffer[..start] == head
      modifies buffer, rtOldContextChanged
      ensures ptr <= start + Span(RegisterWords(arch), WordSize(arch))
      ensures buffer[..ptr] == head + WordsBytes(ChangeValues(Changes(r, context, |context|)), WordSize(arch))
      ensures rtOldContextChanged[..] == Differences(r.pending.context, context)
    {
      hide Bytes, WordsBytes, WordSize, RegisterWords, Limit, Changes, ValidSnapshot, Span;
      SnapshotSizes(rtOld, arch);
      var size := WordSize(arch);
      ptr := start;
      ChangesStep(r, context, 0);
      NoWords(size);
      Room(0, 0, size);
      for i := 0 to rtOldContextChanged.Length
        invariant ptr == start + Span(|Changes(r, context, i)|, size)
        invariant ptr <= start + Span(RegisterWords(arch), size)
        invariant buffer[..ptr] == head + WordsBytes(ChangeValues(Changes(r, context, i)), size)
        invariant forall k :: 0 <= k < i ==> rtOldContextChanged[k] == (rtOld.context[k] != context[k])
        invariant forall k :: i <= k < rtOldContextChanged.Length ==> rtOldContextChanged[k] == r.changed[k]
      {
        ghost var soFar := Changes(r, context, i);
        ChangesStep(r, context, i + 1);
        if rtOld.context[i] != context[i] || rtOldContextChanged[i] || FullDumpDue(rtRecordedInstructions) {
          Room(|soFar|, RegisterWords(arch), size);
          ptr := WriteValue(buffer, ptr, Change(i, rtOld.context[i]), soFar, head);
        }
        rtOldContextChanged[i] := rtOld.context[i] != context[i];
      }
    }

    method WriteValue(buffer: array<Byte>, start: nat, c: Change, ghost soFar: seq<Change>, ghost head: seq<Byte>)
      returns (ptr: nat)
      requires start + WordSize(arch) <= buffer.Length
      requires buffer[..start] == head + WordsBytes(ChangeValues(soFar), WordSize(arch))
      modifies buffer
      ensures ptr == start + WordSize(arch)
      ensures buffer[..ptr] == head + WordsBytes(ChangeValues(soFar + [c]), WordSize(arch))
    {
      hide Bytes, WordsBytes, WordSize, ChangeValues;
      var size := WordSize(arch);
      ChangeValuesAppend(soFar, c, size);
      Longer(buffer[..start], head, WordsBytes(ChangeValues(soFar), size), Bytes(c.value, size));
      ptr := Put(buffer, start, Bytes(c.value, size));
    }

    /** Flags, addresses, old contents and the new contents that differ. */
    method WriteMemory(buffer: array<Byte>, start: nat, memory: seq<MemoryAccess>, ghost head: seq<Byte>) returns (ptr: nat)
      requires start + |memory| + 3 * Span(|memory|, WordSize(arch)) <= buffer.Length && buffer[..start] == head
      modifies buffer
      ensures ptr <= buffer.Length
      ensures buffer[..ptr] == head + MemoryPart(Block(None, [], [], memory), arch)
    {
      hide Bytes, WordsBytes, WordSize, Span, MemoryFlags, NewContents;
      var size := WordSize(arch);
      ptr := WriteFlags(buffer, start, memory, head);
      ghost var flags, addresses := MemoryFlags(memory), WordsBytes(Addresses(memory), size);
      ghost var olds, news := WordsBytes(OldContents(memory), size), WordsBytes(NewContents(memory), size);
      ptr := WriteWords(buffer, ptr, Addresses(memory), head + flags);
      ptr := WriteWords(buffer, ptr, OldContents(memory), head + flags + addresses);
      ptr := WriteNewContents(buffer, ptr, memory, head + flags + addresses + olds);
      assert head + flags + addresses + olds + news == head + (flags + addresses + olds + news);
    }

    method WriteFlags(buffer: array<Byte>, start: nat, memory: seq<MemoryAccess>, ghost head: seq<Byte>) returns (ptr: nat)
      requires start + |memory| <= buffer.Length && buffer[..start] == head
      modifies buffer
      ensures ptr == start + |memory|
      ensures buffer[..ptr] == head + MemoryFlags(memory)
    {
      ptr := start;
      for i := 0 to |memory|
        invariant ptr == start + i
        invariant buffer[..ptr] == head + MemoryFlags(memory)[..i]
      {
        ptr := Put(buffer, ptr, [if memory[i].before == memory[i].after then 1 else 0]);
      }
    }

    method WriteNewContents(buffer: array<Byte>, start: nat, memory: seq<MemoryAccess>, ghost head: seq<Byte>)
      returns (ptr: nat)
      requires start + Span(|memory|, WordSize(arch)) <= buffer.Length && buffer[..start] == head
      modifies buffer
      ensures ptr <= start + Span(|memory|, WordSize(arch))
      ensures buffer[..ptr] == head + WordsBytes(NewContents(memory), WordSize(arch))
    {
      hide Bytes, WordSize, WordsBytes, Span, NewContents;
      var size := WordSize(arch);
      ptr := start;
      assert memory[..0] == [];
      assert NewContents([]) == [] by { EmptyLists([]); }
      NoWords(size);
      Room(0, 0, size);
      for i := 0 to |memory|
        invariant ptr == start + Span(|NewContents(memory[..i])|, size)
        invariant start <= ptr <= start + Span(|memory|, size)
        invariant buffer[..ptr] == head + WordsBytes(NewContents(memory[..i]), size)
      {
        ghost var soFar := NewContents(memory[..i]);
        NewContentsStep(memory, i);
        if memory[i].before != memory[i].after {
          WordsBytesAppend(soFar, memory[i].after, size);
          Room(|soFar|, |memory|, size);
          Longer(buffer[..ptr], head, WordsBytes(soFar, size), Bytes(memory[i].after, size));
          ptr := Put(buffer, ptr, Bytes(memory[i].after, size));
        }
      }
      assert memory[..|memory|] == memory;
    }

    method WriteWords(buffer: array<Byte>, start: nat, words: seq<nat>, ghost head: seq<Byte>) returns (ptr: nat)
      requires start + Span(|words|, WordSize(arch)) <= buffer.Length && buffer[..start] == head
      modifies buffer
      ensures ptr == start + Span(|words|, WordSize(arch))
      ensures buffer[..ptr] == head + WordsBytes(words, WordSize(arch))
    {
      hide Bytes, WordSize, WordsBytes, Span;
      var size := WordSize(arch);
      ptr := start;
      assert words[..0] == [] && ChangeValues([]) == [];
      NoWords(size);
      Room(0, |words|, size);
      for i := 0 to |words|
        invariant ptr == start + Span(i, size) <= start + Span(|words|, size)
        invariant buffer[..ptr] == head + WordsBytes(words[..i], size)
      {
        assert words[..i + 1] == words[..i] + [words[i]];
        WordsBytesAppend(words[..i], words[i], size);
        Room(i, |words|, size);
        Longer(buffer[..ptr], head, WordsBytes(words[..i], size), Bytes(words[i], size));
        ptr := Put(buffer, ptr, Bytes(words[i], size));
      }
      assert words[..|words|] == words;
    }

    /** Writes the pending instruction now; the next one starts from a full dump. */
    method FlushTraceExecuteRecord(current: Snapshot, after: seq<nat>, written: nat)
      requires Valid() && ValidSnapshot(current, arch) && ValidReread(after, State(), arch)
      modifies this, rtOldContextChanged
      ensures Valid() && rtOldContextChanged == old(rtOldContextChanged)
      ensures !old(rtEnabled) || !old(rtPrevInstAvailable) ==> State() == old(State()) && rtFile == old(rtFile)
      ensures old(rtEnabled) && old(rtPrevInstAvailable) ==>
        var bytes := Encode(BlockOf(old(State()), current, after), arch);
        var r := Reset(Advance(old(State()), current));
        if written < |bytes| then rtFile == old(rtFile) + bytes[..written] && State() == r.(enabled := false)
        else rtFile == old(rtFile) + bytes && State() == r
    {
      hide BlockOf, Encode, FullDumpDue, Limit, RegisterWords, Differences;
      if !rtEnabled || !rtPrevInstAvailable {
        return;
      }
      TraceExecuteRecord(current, after, written);
      rtPrevInstAvailable := false;
      rtNeedThreadId := true;
      SetAllChanged();
    }
  }
}
