/** What the trace reader reconstructs from the file of any recording. */
module TraceReader {
  import opened Options
  import opened TraceBlocks
  import opened TraceRecorder
  import opened TraceReplay

  // ----- the reader -----

  /** The lists a trace page collects, one entry an instruction; `registers` only gets an
      entry from a block that changes a register. */
  datatype Page = Page(
    registers: seq<seq<nat>>,
    threadIds: seq<nat>,
    opcodes: seq<seq<Byte>>,
    memory: seq<seq<MemoryAccess>>,
    error: Option<ReadError>)

  function Cons(registers: seq<seq<nat>>, threadId: nat, opcode: seq<Byte>, memory: seq<MemoryAccess>, page: Page): Page {
    Page(registers + page.registers, [threadId] + page.threadIds, [opcode] + page.opcodes, [memory] + page.memory, page.error)
  }

  function ApplyChanges(registers: seq<nat>, changes: seq<Change>): (r: seq<nat>)
    requires forall i :: 0 <= i < |changes| ==> changes[i].position < |registers|
    ensures |r| == |registers|
    decreases |changes|
  {
    if changes == [] then registers
    else ApplyChanges(registers[changes[0].position := changes[0].value], changes[1..])
  }

  /** Reads up to `max` instructions from a file position, starting from known registers and thread. */
  function ReadPage(bytes: seq<Byte>, max: nat, registers: seq<nat>, threadId: nat, arch: Arch): Page
    requires |registers| == RegisterWords(arch)
    decreases |bytes|
  {
    if bytes == [] || max == 0 then Page([], [], [], [], None)
    else
      match DecodeBlock(bytes, arch)
      case Error(e) => Page([], [], [], [], Some(e))
      case Ok(None, rest) => ReadPage(rest, max, registers, threadId, arch)
      case Ok(Some(b), rest) =>
        var registers' := ApplyChanges(registers, b.changes);
        var threadId' := if b.threadId.Some? then b.threadId.value else threadId;
        Cons(if b.changes == [] then [] else [registers'], threadId', b.opcode, b.memory,
             ReadPage(rest, max - 1, registers', threadId', arch))
  }

  /** The page constructor's starting point: zeroed registers and thread id 0. */
  function OpenPage(bytes: seq<Byte>, max: nat, arch: Arch): Page {
    ReadPage(bytes, max, seq(RegisterWords(arch), _ => 0), 0, arch)
  }

  function Append(p: Page, q: Page): Page {
    Page(p.registers + q.registers, p.threadIds + q.threadIds, p.opcodes + q.opcodes, p.memory + q.memory, q.error)
  }

  class TraceFilePage {
    const arch: Arch
    var length: nat
    var mRegisters: seq<seq<nat>>
    var threadId: seq<nat>
    var opcodes: seq<seq<Byte>>
    var memory: seq<seq<MemoryAccess>>
    var error: Option<ReadError>

    ghost function View(): Page
      reads this
    {
      Page(mRegisters, threadId, opcodes, memory, error)
    }

    constructor (bytes: seq<Byte>, maxLength: nat, arch: Arch)
      ensures this.arch == arch && View() == OpenPage(bytes, maxLength, arch) && length == |opcodes|
    {
      this.arch := arch;
      length, mRegisters, threadId, opcodes, memory, error := 0, [], [], [], [], None;
      new;
      Fill(bytes, maxLength);
    }

    /** Reads block by block, keeping the registers and the last thread id, until the file or the page
        ends or a block cannot be read. */
    method Fill(bytes: seq<Byte>, maxLength: nat)
      requires length == 0 && View() == Page([], [], [], [], None)
      modifies this
      ensures View() == OpenPage(bytes, maxLength, arch) && length == |opcodes|
    {
      hide DecodeBlock, ApplyChanges, RegisterWords, ReadPage, Append;
      var regwords := new nat[RegisterWords(arch)](_ => 0);
      var lastThreadId, rest := 0, bytes;
      assert regwords[..] == seq(RegisterWords(arch), _ => 0);
      AppendNothing(ReadPage(bytes, maxLength, regwords[..], 0, arch));
      while rest != [] && length < maxLength
        invariant regwords.Length == RegisterWords(arch) && fresh(regwords)
        invariant length == |opcodes| <= maxLength && error.None?
        invariant Append(View(), ReadPage(rest, maxLength - length, regwords[..], lastThreadId, arch))
               == OpenPage(bytes, maxLength, arch)
        decreases |rest|
      {
        ReadStep(rest, maxLength - length, regwords[..], lastThreadId, arch);
        match DecodeBlock(rest, arch)
        case Error(e) =>
          FailPage(View(), e);
          error := Some(e);
          return;
        case Ok(None, more) => rest := more;
        case Ok(Some(b), more) =>
          ghost var before := View();
          SetRegisters(regwords, b.changes);
          if b.threadId.Some? {
            lastThreadId := b.threadId.value;
          }
          AppendBlock(before, if b.changes == [] then [] else [regwords[..]], lastThreadId, b.opcode, b.memory,
            ReadPage(more, maxLength - length - 1, regwords[..], lastThreadId, arch));
          AddInstruction(b, regwords[..], lastThreadId);
          rest := more;
      }
      ReadEnd(rest, maxLength - length, regwords[..], lastThreadId, arch);
      FinishPage(View());
    }

    /** Only a block that changes a register adds to the register list. */
    method AddInstruction(b: Block, registers: seq<nat>, lastThreadId: nat)
      modifies this
      ensures length == old(length) + 1
      ensures View() ==
        var p := old(View());
        Page(p.registers + (if b.changes == [] then [] else [registers]), p.threadIds + [lastThreadId],
             p.opcodes + [b.opcode], p.memory + [b.memory], p.error)
    {
      threadId, opcodes, memory := threadId + [lastThreadId], opcodes + [b.opcode], memory + [b.memory];
      if b.changes != [] {
        mRegisters := mRegisters + [registers];
      } else {
        assert mRegisters + [] == mRegisters;
      }
      length := length + 1;
    }
  }

  method SetRegisters(regwords: array<nat>, changes: seq<Change>)
    requires forall i :: 0 <= i < |changes| ==> changes[i].position < regwords.Length
    modifies regwords
    ensures regwords[..] == ApplyChanges(old(regwords[..]), changes)
  {
    assert changes[0..] == changes;
    for i := 0 to |changes|
      invariant ApplyChanges(regwords[..], changes[i..]) == ApplyChanges(old(regwords[..]), changes)
    {
      ghost var before := regwords[..];
      regwords[changes[i].position] := changes[i].value;
      assert regwords[..] == before[changes[i].position := changes[i].value];
      assert changes[i..][1..] == changes[i + 1..];
    }
  }

  lemma AppendNothing(q: Page)
    ensures Append(Page([], [], [], [], None), q) == q
  {
  }

  lemma FailPage(p: Page, e: ReadError)
    ensures Append(p, Page([], [], [], [], Some(e))) == p.(error := Some(e))
  {
  }

  lemma FinishPage(p: Page)
    ensures Append(p, Page([], [], [], [], None)) == p.(error := None)
  {
  }

  lemma AppendBlock(p: Page, registers: seq<seq<nat>>, threadId: nat, opcode: seq<Byte>, memory: seq<MemoryAccess>, q: Page)
    ensures Append(p, Cons(registers, threadId, opcode, memory, q)) ==
      Append(Page(p.registers + registers, p.threadIds + [threadId], p.opcodes + [opcode], p.memory + [memory], p.error), q)
  {
    assert p.registers + (registers + q.registers) == p.registers + registers + q.registers;
    assert p.threadIds + ([threadId] + q.threadIds) == p.threadIds + [threadId] + q.threadIds;
    assert p.opcodes + ([opcode] + q.opcodes) == p.opcodes + [opcode] + q.opcodes;
    assert p.memory + ([memory] + q.memory) == p.memory + [memory] + q.memory;
  }

  lemma ReadStep(bytes: seq<Byte>, max: nat, registers: seq<nat>, threadId: nat, arch: Arch)
    requires |registers| == RegisterWords(arch) && bytes != [] && max > 0
    ensures ReadPage(bytes, max, registers, threadId, arch) ==
      match DecodeBlock(bytes, arch)
      case Error(e) => Page([], [], [], [], Some(e))
      case Ok(None, rest) => ReadPage(rest, max, registers, threadId, arch)
      case Ok(Some(b), rest) =>
        var registers' := ApplyChanges(registers, b.changes);
        var threadId' := if b.threadId.Some? then b.threadId.value else threadId;
        Cons(if b.changes == [] then [] else [registers'], threadId', b.opcode, b.memory,
             ReadPage(rest, max - 1, registers', threadId', arch))
  {
    hide DecodeBlock, ApplyChanges, RegisterWords;
  }

  lemma ReadEnd(bytes: seq<Byte>, max: nat, registers: seq<nat>, threadId: nat, arch: Arch)
    requires |registers| == RegisterWords(arch) && (bytes == [] || max == 0)
    ensures ReadPage(bytes, max, registers, threadId, arch) == Page([], [], [], [], None)
  {
  }

  // ----- replay is exact -----

  lemma {:induction false} ApplyChangesAt(registers: seq<nat>, changes: seq<Change>, context: seq<nat>, i: nat)
    requires |registers| == |context| && i < |registers|
    requires forall k :: 0 <= k < |changes| ==> changes[k].position < |context| && changes[k].value == context[changes[k].position]
    ensures ApplyChanges(registers, changes)[i] ==
      if exists k :: 0 <= k < |changes| && changes[k].position == i then context[i] else registers[i]
    decreases |changes|
  {
    if changes != [] {
      var c := changes[0];
      ApplyChangesAt(registers[c.position := c.value], changes[1..], context, i);
      if exists k :: 0 <= k < |changes[1..]| && changes[1..][k].position == i {
        var k :| 0 <= k < |changes[1..]| && changes[1..][k].position == i;
        assert changes[k + 1].position == i;
      } else {
        assert forall k :: 1 <= k < |changes| ==> changes[k] == changes[1..][k - 1];
      }
    }
  }

  lemma ApplyIsExact(b: Block, i: Instruction, registers: seq<nat>, threadId: nat, arch: Arch)
    requires Describes(b, i, arch) && Suffices(b, i, registers, threadId)
    ensures ApplyChanges(registers, b.changes) == i.context
  {
    forall k | 0 <= k < |registers|
      ensures ApplyChanges(registers, b.changes)[k] == i.context[k]
    {
      ApplyChangesAt(registers, b.changes, i.context, k);
    }
  }

  /** What a reader of the blocks from `k` on should see: the truth, with the thread id that was written
      last, up to the first block without an opcode. */
  function Expected(blocks: seq<Block>, truth: seq<Instruction>, k: nat, max: nat, threadId: nat): (p: Page)
    requires k <= |blocks| == |truth|
    ensures |p.threadIds| == |p.opcodes| == |p.memory| <= max && |p.threadIds| <= |blocks| - k
    decreases |blocks| - k
  {
    if k == |blocks| || max == 0 then Page([], [], [], [], None)
    else if truth[k].opcode == [] then Page([], [], [], [], Some(NoOpcode))
    else
      var threadId' := if blocks[k].threadId.Some? then truth[k].threadId else threadId;
      Cons(if blocks[k].changes == [] then [] else [truth[k].context], threadId', truth[k].opcode, truth[k].memory,
           Expected(blocks, truth, k + 1, max - 1, threadId'))
  }

  lemma {:induction false} ReplayFrom(s: Session, k: nat, max: nat, registers: seq<nat>, threadId: nat, arch: Arch)
    requires Consistent(s, arch) && k <= |s.blocks| && |registers| == RegisterWords(arch)
    requires k < |s.blocks| ==> Suffices(s.blocks[k], s.truth[k], registers, s.truth[k].threadId)
    ensures ReadPage(EncodeAll(s.blocks[k..], arch), max, registers, threadId, arch)
         == Expected(s.blocks, s.truth, k, max, threadId)
    decreases |s.blocks| - k
  {
    hide Encode, DecodeBlock, Limit, Suffices, RegisterWords, ApplyChanges, ValidBlock;
    if k < |s.blocks| {
      var b, i := s.blocks[k], s.truth[k];
      assert Describes(b, i, arch);
      var rest := EncodeAll(s.blocks[k..][1..], arch);
      assert s.blocks[k..][1..] == s.blocks[k + 1..];
      DecodeInvertsEncode(b, arch, rest);
      ApplyIsExact(b, i, registers, i.threadId, arch);
      if max > 0 && i.opcode != [] {
        if k + 1 < |s.blocks| {
          SufficesThread(s.blocks[k + 1], s.truth[k + 1], i.context, i.threadId);
        }
        ReplayFrom(s, k + 1, max - 1, i.context, if b.threadId.Some? then i.threadId else threadId, arch);
      }
    }
  }

  lemma SufficesThread(b: Block, i: Instruction, registers: seq<nat>, threadId: nat)
    requires Suffices(b, i, registers, threadId)
    ensures Suffices(b, i, registers, i.threadId) && (b.threadId.Some? || threadId == i.threadId)
  {
  }

  /** A full dump leaves no register unwritten. */
  lemma FullDumpSuffices(b: Block, i: Instruction, registers: seq<nat>, arch: Arch)
    requires Describes(b, i, arch) && IsFullDump(b, arch) && |registers| == RegisterWords(arch)
    ensures Suffices(b, i, registers, i.threadId)
  {
    forall k | 0 <= k < |registers|
      ensures WritesRegister(b, k)
    {
      FullPositions(b, arch, k);
      assert b.changes[k].position == k;
    }
  }

  lemma {:induction false} FullPositions(b: Block, arch: Arch, k: nat)
    requires ValidBlock(b, arch) && IsFullDump(b, arch) && k < RegisterWords(arch)
    ensures b.changes[k].position == k
  {
    AtLeast(b.changes, k);
    AtMost(b.changes, k, RegisterWords(arch));
  }

  lemma {:induction false} AtLeast(changes: seq<Change>, k: nat)
    requires Ascending(changes) && k < |changes|
    ensures changes[k].position >= k
  {
    if k > 0 {
      AtLeast(changes, k - 1);
    }
  }

  lemma {:induction false} AtMost(changes: seq<Change>, k: nat, count: nat)
    requires Ascending(changes) && k < |changes| == count
    requires forall i :: 0 <= i < |changes| ==> changes[i].position < count
    ensures changes[k].position <= k
    decreases count - k
  {
    if k < count - 1 {
      AtMost(changes, k + 1, count);
    }
  }

  /** Replay is exact: over any recording, with flushes, thread switches and restarts, a reader that
      opens the file at any full dump sees the true registers, opcode and memory effects of every later
      instruction in the history of the events, with the thread id that was written last, and stops early only at a block without
      an opcode. */
  lemma ReplayIsExact(events: seq<Event>, s: Session, arch: Arch, start: nat, max: nat)
    requires Reaches(events, s, arch)
    requires start < |s.blocks| && IsFullDump(s.blocks[start], arch)
    ensures Consistent(s, arch) && s.truth == HistoryOf(events).finished
    ensures OpenPage(EncodeAll(s.blocks[start..], arch), max, arch)
         == Expected(s.blocks, HistoryOf(events).finished, start, max, 0)
  {
    hide Limit, RegisterWords, EncodeAll, ReadPage, Expected, Reaches, HistoryOf;
    SessionsAreConsistent(events, s, arch);
    TruthIsHistory(events, s, arch);
    var zeros := seq(RegisterWords(arch), _ => 0);
    FullDumpSuffices(s.blocks[start], s.truth[start], zeros, arch);
    ReplayFrom(s, start, max, zeros, 0, arch);
  }

  predicate ThreadWritten(blocks: seq<Block>, first: nat, last: nat)
    requires last < |blocks|
  {
    exists i :: first <= i <= last && blocks[i].threadId.Some?
  }

  lemma {:induction false} ThreadIdsFrom(s: Session, k: nat, max: nat, threadId: nat, j: nat, arch: Arch)
    requires Consistent(s, arch) && k <= |s.blocks|
    requires j < |Expected(s.blocks, s.truth, k, max, threadId).threadIds|
    ensures Expected(s.blocks, s.truth, k, max, threadId).threadIds[j] == s.truth[k + j].threadId
      <==> ThreadWritten(s.blocks, k, k + j) || threadId == s.truth[k].threadId
    decreases |s.blocks| - k
  {
    hide Describes, Suffices, Expected;
    ExpectedStep(s.blocks, s.truth, k, max, threadId);
    var written := s.blocks[k].threadId.Some?;
    if j > 0 {
      var threadId' := if written then s.truth[k].threadId else threadId;
      ThreadIdsFrom(s, k + 1, max - 1, threadId', j - 1, arch);
      SufficesThread(s.blocks[k + 1], s.truth[k + 1], s.truth[k].context, s.truth[k].threadId);
      if ThreadWritten(s.blocks, k + 1, k + j) {
        var i :| k + 1 <= i <= k + j && s.blocks[i].threadId.Some?;
        assert ThreadWritten(s.blocks, k, k + j);
      } else if written {
        assert ThreadWritten(s.blocks, k, k + j);
      } else {
        assert !s.blocks[k + 1].threadId.Some?;
        assert !ThreadWritten(s.blocks, k, k + j);
      }
    }
  }

  /** A thread id on a page is right if and only if one has been written since the page began, or the
      page began in a thread with id 0. */
  lemma ThreadIdsIff(events: seq<Event>, s: Session, arch: Arch, start: nat, max: nat, j: nat)
    requires Reaches(events, s, arch)
    requires start < |s.blocks| == |HistoryOf(events).finished| && IsFullDump(s.blocks[start], arch)
    requires j < |Expected(s.blocks, HistoryOf(events).finished, start, max, 0).threadIds|
    ensures var page, truth := OpenPage(EncodeAll(s.blocks[start..], arch), max, arch), HistoryOf(events).finished;
      && |page.threadIds| == |page.opcodes| > j
      && var right := page.threadIds[j] == truth[start + j].threadId;
         right <==> ThreadWritten(s.blocks, start, start + j) || truth[start].threadId == 0
  {
    hide Expected, OpenPage, Reaches, EncodeAll, HistoryOf;
    SessionsAreConsistent(events, s, arch);
    ReplayIsExact(events, s, arch, start, max);
    ThreadIdsFrom(s, start, max, 0, j, arch);
  }

  /** Without a read error a page holds as many instructions as were asked for and are there, with the
      true opcodes and memory effects. */
  lemma {:induction false} PageIsTrue(blocks: seq<Block>, truth: seq<Instruction>, k: nat, max: nat, threadId: nat)
    requires k <= |blocks| == |truth|
    ensures var page := Expected(blocks, truth, k, max, threadId);
      && (page.error.None? ==> |page.opcodes| == if max < |blocks| - k then max else |blocks| - k)
      && (forall j :: 0 <= j < |page.opcodes| ==>
            page.opcodes[j] == truth[k + j].opcode && page.memory[j] == truth[k + j].memory)
    decreases |blocks| - k
  {
    hide Expected;
    ExpectedStep(blocks, truth, k, max, threadId);
    if k < |blocks| && max > 0 && truth[k].opcode != [] {
      var threadId' := if blocks[k].threadId.Some? then truth[k].threadId else threadId;
      PageIsTrue(blocks, truth, k + 1, max - 1, threadId');
    }
  }

  lemma ExpectedStep(blocks: seq<Block>, truth: seq<Instruction>, k: nat, max: nat, threadId: nat)
    requires k <= |blocks| == |truth|
    ensures Expected(blocks, truth, k, max, threadId) ==
      if k == |blocks| || max == 0 then Page([], [], [], [], None)
      else if truth[k].opcode == [] then Page([], [], [], [], Some(NoOpcode))
      else
        var threadId' := if blocks[k].threadId.Some? then truth[k].threadId else threadId;
        Cons(if blocks[k].changes == [] then [] else [truth[k].context], threadId', truth[k].opcode, truth[k].memory,
             Expected(blocks, truth, k + 1, max - 1, threadId'))
  {
    hide Cons;
  }

  /** The register list stays aligned with the instructions exactly when every block read
      changes some register; an instruction that changes nothing shifts it. */
  lemma {:induction false} RegistersAligned(blocks: seq<Block>, truth: seq<Instruction>, k: nat, max: nat, threadId: nat)
    requires k <= |blocks| == |truth|
    ensures var page := Expected(blocks, truth, k, max, threadId);
      var n := |page.opcodes|;
      && |page.registers| <= n
      && (|page.registers| == n <==> forall j :: k <= j < k + n ==> blocks[j].changes != [])
      && (|page.registers| == n ==> forall j :: 0 <= j < n ==> page.registers[j] == truth[k + j].context)
    decreases |blocks| - k
  {
    hide Expected;
    ExpectedStep(blocks, truth, k, max, threadId);
    if k < |blocks| && max > 0 && truth[k].opcode != [] {
      var threadId' := if blocks[k].threadId.Some? then truth[k].threadId else threadId;
      RegistersAligned(blocks, truth, k + 1, max - 1, threadId');
      var page, tail := Expected(blocks, truth, k, max, threadId), Expected(blocks, truth, k + 1, max - 1, threadId');
      if |page.registers| == |page.opcodes| {
        assert page.registers == [truth[k].context] + tail.registers;
      }
    }
  }

  /** Such a block arises exactly when no register changed at this or the previous step and no dump was due. */
  lemma EmptyBlock(r: Recorder, next: Snapshot, after: seq<nat>)
    requires |next.context| == |r.pending.context| == |r.changed| > 0 && |after| == |r.pending.memory|
    ensures BlockOf(r, next, after).changes == [] <==>
      !FullDumpDue(r.recorded) && next.context == r.pending.context && forall i :: 0 <= i < |r.changed| ==> !r.changed[i]
  {
    hide FullDumpDue;
    var n := |next.context|;
    if BlockOf(r, next, after).changes == [] {
      forall i | 0 <= i < n
        ensures !FullDumpDue(r.recorded) && next.context[i] == r.pending.context[i] && !r.changed[i]
      {
        if Writes(r, next.context, i) {
          ChangesComplete(r, next.context, n, i);
        }
      }
      assert !r.changed[0];
    } else {
      var c := Changes(r, next.context, n)[0];
      WrittenReason(r, next.context, n, 0);
    }
  }

  lemma WrittenReason(r: Recorder, context: seq<nat>, n: nat, k: nat)
    requires n <= |r.pending.context| && n <= |context| && n <= |r.changed|
    requires k < |Changes(r, context, n)|
    ensures Writes(r, context, Changes(r, context, n)[k].position)
  {
    hide FullDumpDue;
    if n > 0 && k < |Changes(r, context, n - 1)| {
      WrittenReason(r, context, n - 1, k);
    }
  }

  // ----- both limits are reached -----

  /** An instruction whose registers all hold the same value. */
  function Plain(arch: Arch, value: nat): Snapshot {
    Snapshot(seq(RegisterWords(arch), _ => value), 7, [0x90], [])
  }

  /** Three instructions one after the other. */
  function ThreeInstructions(arch: Arch, middle: nat): seq<Event> {
    [Start] + [Execute(Plain(arch, 0), [])] + [Execute(Plain(arch, middle), [])] + [Execute(Plain(arch, 0), [])]
  }

  /** The recorder when it has started, when it has seen the first instruction, and when it has seen
      two and written one. */
  function Started(arch: Arch): Recorder {
    Recorder(true, false, Snapshot([], 0, [], []), seq(RegisterWords(arch), _ => true), true, 0)
  }

  function SeenOne(arch: Arch): Recorder {
    Started(arch).(prevAvailable := true, pending := Plain(arch, 0), recorded := 1)
  }

  function SeenTwo(arch: Arch, middle: nat): Recorder {
    SeenOne(arch).(pending := Plain(arch, middle), recorded := 2, needThreadId := false,
      changed := seq(RegisterWords(arch), _ => middle != 0))
  }

  function Done(p: Snapshot): Instruction {
    Instruction(p.context, p.threadId, p.opcode, [])
  }

  function FirstBlock(arch: Arch, middle: nat): Block {
    BlockOf(SeenOne(arch), Plain(arch, middle), [])
  }

  function SecondBlock(arch: Arch, middle: nat): Block {
    BlockOf(SeenTwo(arch, middle), Plain(arch, 0), [])
  }

  lemma PlainIsValid(arch: Arch, value: nat)
    requires value <= 1
    ensures ValidSnapshot(Plain(arch, value), arch)
  {
    hide Limit;
    LimitIsLarge(WordSize(arch));
    LimitIsLarge(4);
  }

  lemma LimitIsLarge(size: nat)
    requires size > 0
    ensures Limit(size) >= 256
  {
  }

  lemma FirstStep(arch: Arch)
    ensures Reaches([Start], Session(Started(arch), [], []), arch)
  {
    assert Reaches([], Initial(arch), arch);
    OneMoreEvent([], Initial(arch), Start, arch);
    assert [] + [Start] == [Start];
    assert Step(Initial(arch), Start, arch).recorder.changed == Started(arch).changed;
  }

  lemma SecondStep(arch: Arch)
    ensures Reaches([Start] + [Execute(Plain(arch, 0), [])], Session(SeenOne(arch), [], []), arch)
  {
    hide ValidSnapshot, RegisterWords, BlockOf, Accessed, Differences, Reaches;
    FirstStep(arch);
    PlainIsValid(arch, 0);
    OneMoreEvent([Start], Session(Started(arch), [], []), Execute(Plain(arch, 0), []), arch);
  }

  lemma ThirdStep(arch: Arch, middle: nat)
    requires middle <= 1
    ensures Reaches([Start] + [Execute(Plain(arch, 0), [])] + [Execute(Plain(arch, middle), [])],
      Session(SeenTwo(arch, middle), [FirstBlock(arch, middle)], [Done(Plain(arch, 0))]), arch)
  {
    hide ValidSnapshot, RegisterWords, BlockOf, Reaches;
    SecondStep(arch);
    PlainIsValid(arch, 0);
    PlainIsValid(arch, middle);
    var s, e := Session(SeenOne(arch), [], []), Execute(Plain(arch, middle), []);
    OneMoreEvent([Start] + [Execute(Plain(arch, 0), [])], s, e, arch);
    assert Differences(Plain(arch, 0).context, Plain(arch, middle).context) == SeenTwo(arch, middle).changed;
    assert Accessed([], []) == [];
    assert Step(s, e, arch) == Session(SeenTwo(arch, middle), [FirstBlock(arch, middle)], [Done(Plain(arch, 0))]);
  }

  lemma ThreeReached(arch: Arch, middle: nat)
    requires middle <= 1
    ensures exists s ::
      && Reaches(ThreeInstructions(arch, middle), s, arch)
      && s.blocks == [FirstBlock(arch, middle), SecondBlock(arch, middle)]
      && s.truth == [Done(Plain(arch, 0)), Done(Plain(arch, middle))]
  {
    hide ValidSnapshot, RegisterWords, BlockOf, Reaches;
    ThirdStep(arch, middle);
    PlainIsValid(arch, 0);
    PlainIsValid(arch, middle);
    var s := Session(SeenTwo(arch, middle), [FirstBlock(arch, middle)], [Done(Plain(arch, 0))]);
    var e := Execute(Plain(arch, 0), []);
    OneMoreEvent([Start] + [Execute(Plain(arch, 0), [])] + [Execute(Plain(arch, middle), [])], s, e, arch);
    assert Accessed([], []) == [];
    assert Step(s, e, arch).blocks == [FirstBlock(arch, middle), SecondBlock(arch, middle)];
  }

  lemma FirstIsDump(arch: Arch, middle: nat)
    ensures IsFullDump(FirstBlock(arch, middle), arch) && FirstBlock(arch, middle).threadId.Some?
  {
    hide Changes;
    CompleteChanges(SeenOne(arch), Plain(arch, middle).context, RegisterWords(arch));
  }

  lemma RegistersAreThere(arch: Arch)
    ensures RegisterWords(arch) > 0
  {
  }

  lemma SecondIsEmpty(arch: Arch)
    ensures SecondBlock(arch, 0).changes == []
  {
    hide Changes, RegisterWords;
    RegistersAreThere(arch);
    EmptyBlock(SeenTwo(arch, 0), Plain(arch, 0), []);
  }

  lemma SecondIsDump(arch: Arch)
    ensures IsFullDump(SecondBlock(arch, 1), arch) && SecondBlock(arch, 1).threadId.None?
  {
    hide Changes;
    CompleteChanges(SeenTwo(arch, 1), Plain(arch, 0).context, RegisterWords(arch));
  }

  /** Three instructions that change no register are enough to misalign the register list: the page
      holds two instructions and one register context. */
  lemma MisalignedRecording(arch: Arch)
    ensures exists s ::
      && Reaches(ThreeInstructions(arch, 0), s, arch) && |s.blocks| == 2 && IsFullDump(s.blocks[0], arch)
      && var page := OpenPage(EncodeAll(s.blocks[0..], arch), 2, arch);
         page.error.None? && |page.opcodes| == 2 && |page.registers| == 1
  {
    hide RegisterWords, EncodeAll, OpenPage, FirstBlock, SecondBlock, Plain, Reaches;
    ThreeReached(arch, 0);
    var s :| Reaches(ThreeInstructions(arch, 0), s, arch)
      && s.blocks == [FirstBlock(arch, 0), SecondBlock(arch, 0)] && s.truth == [Done(Plain(arch, 0)), Done(Plain(arch, 0))];
    FirstIsDump(arch, 0);
    SecondIsEmpty(arch);
    PlainOpcode(arch, 0);
    ReplayIsExact(ThreeInstructions(arch, 0), s, arch, 0, 2);
    RegistersAligned(s.blocks, s.truth, 0, 2, 0);
    FirstIsFull(arch, 0);
    var tail := Expected(s.blocks, s.truth, 1, 1, s.truth[0].threadId);
    assert Expected(s.blocks, s.truth, 2, 0, s.truth[0].threadId) == Page([], [], [], [], None);
    assert |tail.registers| == 0 && |tail.opcodes| == 1;
  }

  lemma PlainOpcode(arch: Arch, value: nat)
    ensures Done(Plain(arch, value)).opcode == [0x90] && Done(Plain(arch, value)).threadId == 7
  {
  }

  lemma FirstIsFull(arch: Arch, middle: nat)
    ensures FirstBlock(arch, middle).changes != []
  {
    FirstIsDump(arch, middle);
  }

  /** Three instructions that change every register: the second is a full dump without a thread id, and a
      page opened there shows thread 0 instead of thread 7. */
  lemma UnknownThread(arch: Arch)
    ensures exists s ::
      && Reaches(ThreeInstructions(arch, 1), s, arch) && |s.blocks| == |s.truth| == 2 && IsFullDump(s.blocks[1], arch)
      && var page := OpenPage(EncodeAll(s.blocks[1..], arch), 1, arch);
         page.threadIds == [0] && s.truth[1].threadId == 7
  {
    hide RegisterWords, EncodeAll, OpenPage, FirstBlock, SecondBlock, Plain, Reaches;
    ThreeReached(arch, 1);
    var s :| Reaches(ThreeInstructions(arch, 1), s, arch)
      && s.blocks == [FirstBlock(arch, 1), SecondBlock(arch, 1)] && s.truth == [Done(Plain(arch, 0)), Done(Plain(arch, 1))];
    SecondIsDump(arch);
    PlainOpcode(arch, 1);
    ReplayIsExact(ThreeInstructions(arch, 1), s, arch, 1, 1);
    assert Expected(s.blocks, s.truth, 2, 0, 0) == Page([], [], [], [], None);
    assert Expected(s.blocks, s.truth, 1, 1, 0).threadIds == [0];
  }
}
