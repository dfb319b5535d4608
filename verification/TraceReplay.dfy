/** Recordings: any sequence of starts, stops, executions and flushes, and what every one of them keeps. */
module TraceReplay {
  import opened Options
  import opened TraceBlocks
  import opened TraceRecorder

  // ----- recordings -----

  datatype Event =
    | Start
    | Stop
    | Execute(next: Snapshot, after: seq<nat>)
    | Flush(current: Snapshot, after: seq<nat>)

  /** An instruction as it really was: its registers, thread, opcode and memory effects. */
  datatype Instruction = Instruction(context: seq<nat>, threadId: nat, opcode: seq<Byte>, memory: seq<MemoryAccess>)

  /** A recorder, the blocks it has written and the instructions they stand for. */
  datatype Session = Session(recorder: Recorder, blocks: seq<Block>, truth: seq<Instruction>)

  function Initial(arch: Arch): Session {
    Session(Recorder(false, false, Snapshot([], 0, [], []), seq(RegisterWords(arch), _ => false), false, 0), [], [])
  }

  ghost predicate ValidEvent(e: Event, r: Recorder, arch: Arch) {
    match e
    case Start | Stop => true
    case Execute(next, after) => ValidSnapshot(next, arch) && ValidReread(after, r, arch)
    case Flush(current, after) => ValidSnapshot(current, arch) && ValidReread(after, r, arch)
  }

  function Write(s: Session, next: Snapshot, after: seq<nat>): Session
    requires |next.context| == |s.recorder.changed|
    requires s.recorder.prevAvailable ==>
      |next.context| == |s.recorder.pending.context| && |after| == |s.recorder.pending.memory|
  {
    var r := s.recorder;
    var s' := s.(recorder := Advance(r, next));
    if r.prevAvailable then
      s'.(blocks := s.blocks + [BlockOf(r, next, after)],
          truth := s.truth + [Instruction(r.pending.context, r.pending.threadId, r.pending.opcode,
                                          Accessed(r.pending.memory, after))])
    else s'
  }

  ghost function Step(s: Session, e: Event, arch: Arch): Session
    requires ValidRecorder(s.recorder, arch) && ValidEvent(e, s.recorder, arch)
  {
    var r := s.recorder;
    match e
    case Start => s.(recorder := Reset(r).(enabled := true, recorded := 0))
    case Stop => if r.enabled then s.(recorder := r.(enabled := false, prevAvailable := false)) else s
    case Execute(next, after) => if r.enabled then Write(s, next, after) else s
    case Flush(current, after) =>
      if r.enabled && r.prevAvailable then
        var s' := Write(s, current, after);
        s'.(recorder := Reset(s'.recorder))
      else s
  }

  /** Starting a recording counts anew and makes the next block a full dump with its thread id, and so does a
      flush, which ends the pending instruction; stopping forgets it. */
  lemma StartsAfresh(s: Session, e: Event, arch: Arch)
    requires ValidRecorder(s.recorder, arch) && ValidEvent(e, s.recorder, arch)
    ensures var r := Step(s, e, arch).recorder;
      && (e == Start ==> r.enabled && !r.prevAvailable && r.recorded == 0 && AllChanged(r))
      && (e == Stop && s.recorder.enabled ==> r == s.recorder.(enabled := false, prevAvailable := false))
      && (e.Flush? && s.recorder.enabled && s.recorder.prevAvailable ==>
           r.enabled && !r.prevAvailable && r.recorded == (s.recorder.recorded + 1) % 0x1_0000_0000 && AllChanged(r))
      && (e.Execute? && s.recorder.enabled ==>
           r.enabled && r.prevAvailable && r.pending == e.next && r.recorded == (s.recorder.recorded + 1) % 0x1_0000_0000)
      && (!s.recorder.enabled && e != Start ==> r == s.recorder)
    ensures !(e.Execute? || e.Flush?) || !s.recorder.enabled ==> Step(s, e, arch).blocks == s.blocks
  {
    hide BlockOf, Limit, RegisterWords;
  }

  /** The sessions that some sequence of events leads to. */
  ghost predicate Reaches(events: seq<Event>, s: Session, arch: Arch)
    decreases |events|
  {
    if events == [] then s == Initial(arch)
    else
      exists before: Session ::
        && Reaches(events[..|events| - 1], before, arch)
        && ValidRecorder(before.recorder, arch) && ValidEvent(events[|events| - 1], before.recorder, arch)
        && s == Step(before, events[|events| - 1], arch)
  }

  // ----- the history behind a recording -----

  /** What an onlooker notes who sees the events but no recorder: whether recording is on, the last
      instruction begun, and the instructions finished. */
  datatype History = History(on: bool, begun: Option<Snapshot>, finished: seq<Instruction>)

  /** The instruction that began with this snapshot and left its memory like this. */
  function Happened(begun: Snapshot, after: seq<nat>): (i: Instruction)
    ensures |after| == |begun.memory| ==>
      && |i.memory| == |begun.memory|
      && forall k :: 0 <= k < |i.memory| ==>
           && i.memory[k].address == begun.memory[k].address
           && i.memory[k].before == begun.memory[k].content
           && i.memory[k].after == after[k]
  {
    var n := if |after| < |begun.memory| then |after| else |begun.memory|;
    var effects := seq(n, k requires 0 <= k < n =>
      MemoryAccess(address := begun.memory[k].address, after := after[k], before := begun.memory[k].content));
    Instruction(context := begun.context, opcode := begun.opcode, threadId := begun.threadId, memory := effects)
  }

  /** An instruction is finished by the next one, or by a flush. */
  function HistoryOf(events: seq<Event>): History {
    if events == [] then History(false, None, [])
    else
      NextHistory(HistoryOf(events[..|events| - 1]), events[|events| - 1])
  }

  function NextHistory(h: History, e: Event): History {
    match e
    case Start => h.(on := true, begun := None)
    case Stop => h.(on := false, begun := None)
    case Execute(next, after) => if h.on then Finished(h, after).(begun := Some(next)) else h
    case Flush(_, after) => if h.on then Finished(h, after).(begun := None) else h
  }

  function Finished(h: History, after: seq<nat>): History {
    if h.begun.Some? then h.(finished := h.finished + [Happened(h.begun.value, after)]) else h
  }

  /** The session's account is the history. */
  ghost predicate Accounts(s: Session, h: History) {
    && s.truth == h.finished
    && h.on == s.recorder.enabled
    && (h.on ==> h.begun == if s.recorder.prevAvailable then Some(s.recorder.pending) else None)
  }

  lemma {:induction false} TruthIsHistory(events: seq<Event>, s: Session, arch: Arch)
    requires Reaches(events, s, arch)
    ensures Accounts(s, HistoryOf(events))
    decreases |events|
  {
    hide ValidRecorder, ValidEvent, Step;
    if events != [] {
      var n := |events| - 1;
      var before: Session :| Reaches(events[..n], before, arch)
        && ValidRecorder(before.recorder, arch) && ValidEvent(events[n], before.recorder, arch)
        && s == Step(before, events[n], arch);
      TruthIsHistory(events[..n], before, arch);
      StepAccounts(before, events[n], HistoryOf(events[..n]), arch);
    }
  }

  lemma StepAccounts(s: Session, e: Event, h: History, arch: Arch)
    requires ValidRecorder(s.recorder, arch) && ValidEvent(e, s.recorder, arch) && Accounts(s, h)
    ensures Accounts(Step(s, e, arch), NextHistory(h, e))
  {
    hide BlockOf, Limit;
    var p := s.recorder.pending;
    forall after | |after| == |p.memory|
      ensures Happened(p, after) == Instruction(p.context, p.threadId, p.opcode, Accessed(p.memory, after))
    {
      assert Happened(p, after).memory == Accessed(p.memory, after);
    }
  }

  // ----- what every session keeps -----

  /** The block carries its instruction: opcode, memory, and true values for the registers it writes. */
  ghost predicate Describes(b: Block, i: Instruction, arch: Arch) {
    && ValidBlock(b, arch)
    && |i.context| == RegisterWords(arch)
    && b.opcode == i.opcode && b.memory == i.memory
    && (b.threadId.Some? ==> b.threadId.value == i.threadId)
    && forall k :: 0 <= k < |b.changes| ==> b.changes[k].value == i.context[b.changes[k].position]
  }

  predicate WritesRegister(b: Block, i: nat) {
    exists k :: 0 <= k < |b.changes| && b.changes[k].position == i
  }

  /** The block suffices for a reader that knows the registers `context` and the thread `threadId`. */
  predicate Suffices(b: Block, i: Instruction, context: seq<nat>, threadId: nat) {
    && |context| == |i.context|
    && (forall k :: 0 <= k < |context| ==> context[k] == i.context[k] || WritesRegister(b, k))
    && (b.threadId.Some? || threadId == i.threadId)
  }

  predicate AllChanged(r: Recorder) {
    r.needThreadId && forall i :: 0 <= i < |r.changed| ==> r.changed[i]
  }

  ghost predicate Consistent(s: Session, arch: Arch) {
    && |s.blocks| == |s.truth|
    && (forall k :: 0 <= k < |s.blocks| ==> Describes(s.blocks[k], s.truth[k], arch))
    && (forall k :: 1 <= k < |s.blocks| ==>
          Suffices(s.blocks[k], s.truth[k], s.truth[k - 1].context, s.truth[k - 1].threadId))
  }

  /** The pending change flags and thread flag say enough about the block still to be written. */
  ghost predicate Ready(s: Session, arch: Arch) {
    var r := s.recorder;
    && ValidRecorder(r, arch)
    && (r.enabled && (!r.prevAvailable || s.blocks == []) ==> AllChanged(r))
    && (r.enabled && r.prevAvailable && s.blocks != [] && |s.blocks| == |s.truth| ==>
          var last := s.truth[|s.truth| - 1];
          && (forall i :: 0 <= i < RegisterWords(arch) && i < |last.context| ==>
                r.changed[i] || r.pending.context[i] == last.context[i])
          && (r.needThreadId || r.pending.threadId == last.threadId))
  }

  lemma ChangesComplete(r: Recorder, context: seq<nat>, n: nat, i: nat)
    requires i < n <= |r.pending.context| && n <= |context| && n <= |r.changed|
    requires Writes(r, context, i)
    ensures exists k :: 0 <= k < |Changes(r, context, n)| && Changes(r, context, n)[k].position == i
  {
    var c := Changes(r, context, n - 1);
    if i == n - 1 {
      assert Changes(r, context, n)[|c|].position == i;
    } else {
      ChangesComplete(r, context, n - 1, i);
      var k :| 0 <= k < |c| && c[k].position == i;
      assert Changes(r, context, n)[k] == c[k];
    }
  }

  /** A block written when everything counts as changed suffices for any reader. */
  lemma WriteSuffices(s: Session, next: Snapshot, after: seq<nat>, arch: Arch)
    requires Consistent(s, arch) && Ready(s, arch) && s.recorder.enabled && s.recorder.prevAvailable
    requires ValidSnapshot(next, arch) && ValidReread(after, s.recorder, arch)
    ensures var s' := Write(s, next, after);
      var b, i := s'.blocks[|s.blocks|], Instruction(s.recorder.pending.context, s.recorder.pending.threadId,
                                                     s.recorder.pending.opcode, Accessed(s.recorder.pending.memory, after));
      && Describes(b, i, arch)
      && (|s.blocks| == |s.truth| > 0 ==>
            var last := s.truth[|s.truth| - 1];
            Suffices(b, i, last.context, last.threadId))
  {
    hide Changes, Limit, RegisterWords;
    var r := s.recorder;
    BlockIsValid(r, next, after, arch);
    var b := BlockOf(r, next, after);
    if |s.blocks| == |s.truth| > 0 {
      var last := s.truth[|s.truth| - 1];
      assert Describes(s.blocks[|s.blocks| - 1], last, arch);
      forall k | 0 <= k < RegisterWords(arch)
        ensures last.context[k] == r.pending.context[k] || WritesRegister(b, k)
      {
        if last.context[k] != r.pending.context[k] {
          assert Writes(r, next.context, k);
          ChangesComplete(r, next.context, |next.context|, k);
        }
      }
    }
  }

  lemma {:induction false} StepKeepsConsistent(s: Session, e: Event, arch: Arch)
    requires Consistent(s, arch) && Ready(s, arch) && ValidEvent(e, s.recorder, arch)
    ensures Consistent(Step(s, e, arch), arch) && Ready(Step(s, e, arch), arch)
  {
    hide BlockOf, Describes, Suffices, Limit, RegisterWords, ValidSnapshot;
    match e
    case Start =>
    case Stop =>
    case Execute(next, after) =>
      if s.recorder.enabled {
        WriteKeeps(s, next, after, arch);
      }
    case Flush(current, after) =>
      if s.recorder.enabled && s.recorder.prevAvailable {
        WriteKeeps(s, current, after, arch);
      }
  }

  lemma WriteKeeps(s: Session, next: Snapshot, after: seq<nat>, arch: Arch)
    requires Consistent(s, arch) && Ready(s, arch) && s.recorder.enabled
    requires ValidSnapshot(next, arch) && ValidReread(after, s.recorder, arch)
    ensures Consistent(Write(s, next, after), arch) && Ready(Write(s, next, after), arch)
  {
    hide BlockOf, Describes, Suffices, Limit, Changes, Ready;
    WriteKeepsReady(s, next, after, arch);
    if s.recorder.prevAvailable {
      WriteSuffices(s, next, after, arch);
    }
  }

  lemma WriteKeepsReady(s: Session, next: Snapshot, after: seq<nat>, arch: Arch)
    requires Ready(s, arch) && s.recorder.enabled
    requires ValidSnapshot(next, arch) && ValidReread(after, s.recorder, arch)
    ensures Ready(Write(s, next, after), arch)
  {
    hide BlockOf, Limit, Changes, FullDumpDue;
    var r, s' := s.recorder, Write(s, next, after);
    if r.prevAvailable {
      assert s'.truth[|s.truth|].context == r.pending.context;
    }
  }

  lemma {:induction false} SessionsAreConsistent(events: seq<Event>, s: Session, arch: Arch)
    requires Reaches(events, s, arch)
    ensures Consistent(s, arch) && Ready(s, arch)
    decreases |events|
  {
    if events != [] {
      var n := |events| - 1;
      var before: Session :| Reaches(events[..n], before, arch)
        && ValidRecorder(before.recorder, arch) && ValidEvent(events[n], before.recorder, arch)
        && s == Step(before, events[n], arch);
      SessionsAreConsistent(events[..n], before, arch);
      StepKeepsConsistent(before, events[n], arch);
    }
  }

  // ----- full dumps -----

  /** The reader's test for a block it may start at. */
  predicate IsFullDump(b: Block, arch: Arch) {
    |b.changes| == RegisterWords(arch)
  }

  /** Index of the last block that is a full dump with a thread id; -1 when there is none. */
  function LastDump(blocks: seq<Block>, arch: Arch): (f: int)
    ensures -1 <= f < |blocks|
    ensures f >= 0 ==> IsFullDump(blocks[f], arch) && blocks[f].threadId.Some?
  {
    if blocks == [] then -1
    else
      var n := |blocks| - 1;
      if IsFullDump(blocks[n], arch) && blocks[n].threadId.Some? then n else LastDump(blocks[..n], arch)
  }

  /** Calls since the last scheduled dump: 1 to 512. */
  function Phase(recorded: nat): nat {
    if FullDumpDue(recorded) then DUMP_INTERVAL else (recorded + COUNTER - 1) % COUNTER % DUMP_INTERVAL
  }

  /** Every prefix of the blocks has a dump among its last 512. */
  ghost predicate DumpNearby(blocks: seq<Block>, arch: Arch) {
    forall n :: 1 <= n <= |blocks| ==>
      var f := LastDump(blocks[..n], arch);
      0 <= f && n - f <= DUMP_INTERVAL
  }

  /** How far back the last dump may lie when the next block is written. */
  ghost predicate Scheduled(s: Session, arch: Arch) {
    && DumpNearby(s.blocks, arch)
    && (s.recorder.enabled && s.recorder.prevAvailable && !AllChanged(s.recorder) ==>
          s.blocks != [] && |s.blocks| - LastDump(s.blocks, arch) <= Phase(s.recorder.recorded))
  }

  lemma CompleteChanges(r: Recorder, context: seq<nat>, n: nat)
    requires n <= |r.pending.context| && n <= |context| && n <= |r.changed|
    requires forall i :: 0 <= i < n ==> Writes(r, context, i)
    ensures |Changes(r, context, n)| == n
  {
  }

  lemma PhaseAdvances(recorded: nat)
    requires recorded < COUNTER
    ensures Phase((recorded + 1) % COUNTER) == if FullDumpDue(recorded) then 1 else Phase(recorded) + 1
    ensures 1 <= Phase(recorded) <= DUMP_INTERVAL
    ensures FullDumpDue(recorded) <==> Phase(recorded) == DUMP_INTERVAL
  {
    var x := (recorded + COUNTER - 1) % COUNTER;
    assert ((recorded + 1) % COUNTER + COUNTER - 1) % COUNTER == recorded;
    if recorded == 0 {
      assert x == COUNTER - 1 && x % DUMP_INTERVAL == 511;
    } else {
      assert x == recorded - 1;
    }
  }

  lemma WriteKeepsSchedule(s: Session, next: Snapshot, after: seq<nat>, arch: Arch)
    requires Ready(s, arch) && Scheduled(s, arch) && s.recorder.enabled
    requires ValidSnapshot(next, arch) && ValidReread(after, s.recorder, arch)
    ensures Scheduled(Write(s, next, after), arch)
  {
    hide BlockOf, Limit, FullDumpDue, Phase, LastDump, ValidSnapshot, RegisterWords, DumpNearby;
    var r := s.recorder;
    PhaseAdvances(r.recorded);
    if r.prevAvailable {
      SnapshotSizes(r.pending, arch);
      SnapshotSizes(next, arch);
      var b := BlockOf(r, next, after);
      NextDump(s.blocks, b, arch);
      if AllChanged(r) || FullDumpDue(r.recorded) {
        DumpIsFull(r, next, after, arch);
      } else {
        DumpExists(s.blocks, arch);
      }
      DumpStaysNearby(s.blocks, b, arch);
    }
  }

  lemma DumpExists(blocks: seq<Block>, arch: Arch)
    requires DumpNearby(blocks, arch) && blocks != []
    ensures 0 <= LastDump(blocks, arch)
  {
    assert blocks[..|blocks|] == blocks;
  }

  lemma DumpStaysNearby(blocks: seq<Block>, b: Block, arch: Arch)
    requires DumpNearby(blocks, arch)
    requires 0 <= LastDump(blocks + [b], arch) && |blocks| + 1 - LastDump(blocks + [b], arch) <= DUMP_INTERVAL
    ensures DumpNearby(blocks + [b], arch)
  {
    hide LastDump;
    var more := blocks + [b];
    assert more[..|more|] == more;
    assert forall n :: 1 <= n <= |blocks| ==> more[..n] == blocks[..n];
  }

  lemma NextDump(blocks: seq<Block>, b: Block, arch: Arch)
    ensures LastDump(blocks + [b], arch) ==
      if IsFullDump(b, arch) && b.threadId.Some? then |blocks| else LastDump(blocks, arch)
  {
    assert (blocks + [b])[..|blocks|] == blocks;
  }

  lemma DumpIsFull(r: Recorder, next: Snapshot, after: seq<nat>, arch: Arch)
    requires ValidRecorder(r, arch) && r.prevAvailable && ValidSnapshot(next, arch) && ValidReread(after, r, arch)
    requires AllChanged(r) || FullDumpDue(r.recorded)
    ensures IsFullDump(BlockOf(r, next, after), arch) && BlockOf(r, next, after).threadId.Some?
  {
    hide Limit, FullDumpDue, Changes;
    CompleteChanges(r, next.context, |next.context|);
  }

  lemma {:induction false} SessionsAreScheduled(events: seq<Event>, s: Session, arch: Arch)
    requires Reaches(events, s, arch)
    ensures Scheduled(s, arch)
    decreases |events|
  {
    hide Write, LastDump, Phase, Consistent;
    if events != [] {
      var n := |events| - 1;
      var before: Session :| Reaches(events[..n], before, arch)
        && ValidRecorder(before.recorder, arch) && ValidEvent(events[n], before.recorder, arch)
        && s == Step(before, events[n], arch);
      SessionsAreScheduled(events[..n], before, arch);
      SessionsAreConsistent(events[..n], before, arch);
      match events[n] {
        case Start =>
        case Stop =>
        case Execute(next, after) =>
          if before.recorder.enabled {
            WriteKeepsSchedule(before, next, after, arch);
          }
        case Flush(current, after) =>
          if before.recorder.enabled && before.recorder.prevAvailable {
            WriteKeepsSchedule(before, current, after, arch);
          }
      }
    }
  }

  /** Any 512 consecutive blocks of any recording contain a full dump with its thread id. */
  lemma DumpInEveryWindow(events: seq<Event>, s: Session, arch: Arch, start: nat)
    requires Reaches(events, s, arch) && start + 512 <= |s.blocks|
    ensures exists f :: start <= f < start + 512 && IsFullDump(s.blocks[f], arch) && s.blocks[f].threadId.Some?
  {
    SessionsAreScheduled(events, s, arch);
    var prefix := s.blocks[..start + DUMP_INTERVAL];
    var f := LastDump(prefix, arch);
    assert prefix[f] == s.blocks[f];
  }

  // ----- the file -----

  /** The written form of a list of blocks. */
  function EncodeAll(blocks: seq<Block>, arch: Arch): seq<Byte> {
    if blocks == [] then [] else Encode(blocks[0], arch) + EncodeAll(blocks[1..], arch)
  }

  lemma {:induction false} EncodeOneMore(blocks: seq<Block>, b: Block, arch: Arch)
    ensures EncodeAll(blocks + [b], arch) == EncodeAll(blocks, arch) + Encode(b, arch)
    decreases |blocks|
  {
    hide Encode;
    if blocks == [] {
      assert [b][1..] == [] && Encode(b, arch) + [] == Encode(b, arch) && blocks + [b] == [b];
    } else {
      assert (blocks + [b])[1..] == blocks[1..] + [b];
      EncodeOneMore(blocks[1..], b, arch);
    }
  }

  /** The session that one more event leads to. */
  lemma OneMoreEvent(events: seq<Event>, s: Session, e: Event, arch: Arch)
    requires Reaches(events, s, arch) && ValidRecorder(s.recorder, arch) && ValidEvent(e, s.recorder, arch)
    ensures Reaches(events + [e], Step(s, e, arch), arch)
  {
    hide Step, ValidEvent, ValidRecorder;
    assert (events + [e])[..|events|] == events;
  }

  /** Whole recordings on the recorder object, with complete writes: the recorder's fields and the file
      are those of the session that the events lead to. */
  method RunRecording(m: TraceRecordManager, events: seq<Event>, ghost s: Session)
    requires m.Valid() && m.State() == Initial(m.arch).recorder && m.rtFile == []
    requires Reaches(events, s, m.arch)
    modifies m, m.rtOldContextChanged
    ensures m.Valid() && m.rtOldContextChanged == old(m.rtOldContextChanged)
    ensures m.State() == s.recorder && m.rtFile == EncodeAll(s.blocks, m.arch)
    decreases |events|
  {
    hide ValidEvent, ValidRecorder, EncodeAll, Step;
    if events != [] {
      var n := |events| - 1;
      ghost var before: Session :| Reaches(events[..n], before, m.arch)
        && ValidRecorder(before.recorder, m.arch) && ValidEvent(events[n], before.recorder, m.arch)
        && s == Step(before, events[n], m.arch);
      RunRecording(m, events[..n], before);
      RunEvent(m, events[n], before);
    } else {
      assert EncodeAll([], m.arch) == [] by { NothingEncoded(m.arch); }
    }
  }

  lemma NothingEncoded(arch: Arch)
    ensures EncodeAll([], arch) == []
  {
  }

  lemma BlockIsSmall(r: Recorder, next: Snapshot, after: seq<nat>, arch: Arch)
    requires ValidRecorder(r, arch) && r.prevAvailable && ValidSnapshot(next, arch) && ValidReread(after, r, arch)
    ensures |Encode(BlockOf(r, next, after), arch)| <= BUFFER_SIZE
  {
    hide Encode, Changes, Limit;
    SnapshotSizes(r.pending, arch);
    SnapshotSizes(next, arch);
    BlockFitsBuffer(BlockOf(r, next, after), arch);
  }

  method RunEvent(m: TraceRecordManager, e: Event, ghost s: Session)
    requires m.Valid() && m.State() == s.recorder && m.rtFile == EncodeAll(s.blocks, m.arch)
    requires ValidRecorder(s.recorder, m.arch) && ValidEvent(e, s.recorder, m.arch)
    modifies m, m.rtOldContextChanged
    ensures m.Valid() && m.rtOldContextChanged == old(m.rtOldContextChanged)
    ensures m.State() == Step(s, e, m.arch).recorder && m.rtFile == EncodeAll(Step(s, e, m.arch).blocks, m.arch)
  {
    hide EncodeAll, BlockOf, Encode, Limit, RegisterWords, Differences, WritesThreadId;
    match e
    case Start => m.StartRecording();
    case Stop => m.StopRecording();
    case Execute(next, after) =>
      if s.recorder.enabled && s.recorder.prevAvailable {
        BlockIsSmall(s.recorder, next, after, m.arch);
        EncodeOneMore(s.blocks, BlockOf(s.recorder, next, after), m.arch);
      }
      m.TraceExecuteRecord(next, after, BUFFER_SIZE);
    case Flush(current, after) =>
      if s.recorder.enabled && s.recorder.prevAvailable {
        BlockIsSmall(s.recorder, current, after, m.arch);
        EncodeOneMore(s.blocks, BlockOf(s.recorder, current, after), m.arch);
      }
      m.FlushTraceExecuteRecord(current, after, BUFFER_SIZE);
  }
}
