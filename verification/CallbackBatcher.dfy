/** Batching of database callbacks. One thread runs a program of additions, writes to its own text
    buffers and batcher scopes; every callback may run such a program again, from inside the delivery. */
module CallbackBatcher {
  import opened Options

  const THRESHOLD := 8096

  datatype Kind = Label | Comment | Other

  /** An operation as a callback sees it. */
  datatype Operation = Operation(kind: Kind, payload: nat, text: Option<string>)

  /** What a thread can do. `Add` names the caller's text buffer, if any; `Scope` is the lifetime of a
      batcher on the stack; `Register` is a plugin registering its callback for one flag or removing it. */
  datatype Action =
    | Register(loading: bool, on: bool)
    | Add(kind: Kind, payload: nat, buffer: Option<nat>, loading: bool)
    | Write(target: nat, text: string)
    | Scope(loading: bool, body: seq<Action>)

  /** One call of the registered callbacks; the number is zero outside batches. */
  datatype Delivery = Delivery(loading: bool, operations: seq<Operation>, batchId: nat)

  datatype Batcher = Batcher(loading: bool, active: bool, flushing: bool, pending: seq<Operation>, batchId: nat)

  /** What becomes of an addition. It is dropped if no callback is registered when it reaches them, alone
      or with its batch, or when its batcher was opened. */
  datatype Fate = Queued | Delivered | Dropped

  datatype Addition = Addition(loading: bool, operation: Operation, fate: Fate)

  /** The thread's state. `script` lists what successive callbacks will do, so that a finite script is a
      run in which every flush ends; `added` records every addition with its text at that moment, `initial`
      and `changed` which flags had callbacks at the start and for which that was touched since. */
  datatype World = World(
    listening: set<bool>,
    texts: seq<string>,
    script: seq<seq<Action>>,
    batcher: Option<Batcher>,
    nextId: nat,
    log: seq<Delivery>,
    added: seq<Addition>,
    initial: set<bool>,
    changed: set<bool>)

  // ----- one thread, step by step -----

  function TextAt(texts: seq<string>, kind: Kind, buffer: Option<nat>): Option<string> {
    if kind != Other && buffer.Some? && buffer.value < |texts| then Some(texts[buffer.value]) else None
  }

  function WithBatcher(w: World, b: Batcher): World {
    w.(batcher := Some(b))
  }

  ghost predicate Runs(w: World, r: World) {
    |r.script| <= |w.script| && (r.batcher.Some? <==> w.batcher.Some?)
  }

  function PerformAll(w: World, actions: seq<Action>): (r: World)
    ensures Runs(w, r)
    decreases |w.script|, 4, actions
  {
    if actions == [] then w else PerformAll(Perform(w, actions[0]), actions[1..])
  }

  function Perform(w: World, action: Action): (r: World)
    ensures Runs(w, r)
    decreases |w.script|, 4, action
  {
    match action
    case Register(loading, on) => SetRegistered(w, loading, on)
    case Add(kind, payload, buffer, loading) =>
      AddOperation(w, Operation(kind, payload, TextAt(w.texts, kind, buffer)), loading)
    case Write(target, text) =>
      if target < |w.texts| then w.(texts := w.texts[target := text]) else w
    case Scope(loading, body) =>
      if w.batcher.Some? then PerformAll(w, body)
      else Close(PerformAll(Open(w, loading), body))
  }

  function SetRegistered(w: World, loading: bool, on: bool): World {
    w.(listening := if on then w.listening + {loading} else w.listening - {loading}, changed := w.changed + {loading})
  }

  function Record(w: World, loading: bool, op: Operation, fate: Fate): World {
    w.(added := w.added + [Addition(loading, op, fate)])
  }

  /** What becomes of operations that reach the callbacks now. */
  function FateNow(w: World, loading: bool): Fate {
    if loading in w.listening then Delivered else Dropped
  }

  function Settled(added: seq<Addition>, loading: bool, fate: Fate): (r: seq<Addition>)
    ensures |r| == |added|
  {
    seq(|added|, i requires 0 <= i < |added| =>
      if added[i].loading == loading && added[i].fate == Queued then added[i].(fate := fate) else added[i])
  }

  /** Only the outermost batcher collects. */
  function Open(w: World, loading: bool): World
    requires w.batcher.None?
  {
    WithBatcher(w, Batcher(loading, loading in w.listening, false, [], w.nextId)).(nextId := w.nextId + 1)
  }

  function Close(w: World): (r: World)
    requires w.batcher.Some?
    ensures |r.script| <= |w.script| && r.batcher.None?
    decreases |w.script|, 3
  {
    Flush(w).(batcher := None)
  }

  function AddOperation(w: World, op: Operation, loading: bool): (r: World)
    ensures Runs(w, r)
    decreases |w.script|, 3
  {
    if w.batcher.Some? && w.batcher.value.loading == loading then Enqueue(w, op)
    else Deliver(Record(w, loading, op, FateNow(w, loading)), loading, [op], 0)
  }

  function Enqueue(w: World, op: Operation): (r: World)
    requires w.batcher.Some?
    ensures Runs(w, r)
    decreases |w.script|, 2
  {
    var b := w.batcher.value;
    if !b.active then Record(w, b.loading, op, Dropped)
    else
      var queued := WithBatcher(Record(w, b.loading, op, Queued), b.(pending := b.pending + [op]));
      if |b.pending| + 1 >= THRESHOLD then Flush(queued) else queued
  }

  function SetFlushing(w: World, flushing: bool): World
    requires w.batcher.Some?
  {
    WithBatcher(w, w.batcher.value.(flushing := flushing))
  }

  /** An outer flush drains what its callbacks add, so an inner one does nothing. */
  function Flush(w: World): (r: World)
    requires w.batcher.Some?
    ensures Runs(w, r)
    decreases |w.script|, 1
  {
    if w.batcher.value.flushing then w else SetFlushing(Drain(SetFlushing(w, true)), false)
  }

  function Drain(w: World): (r: World)
    requires w.batcher.Some?
    ensures Runs(w, r) && r.batcher.value.pending == []
    decreases |w.script|, 0, 1 + |w.batcher.value.pending|
  {
    if w.batcher.value.pending == [] then w else Drain(DrainRound(w))
  }

  function DrainRound(w: World): (r: World)
    requires w.batcher.Some? && w.batcher.value.pending != []
    ensures Runs(w, r)
    ensures |r.script| < |w.script| || r.batcher.value.pending == []
    decreases |w.script|, 0, 1
  {
    var b := w.batcher.value;
    Deliver(Taken(w), b.loading, b.pending, b.batchId)
  }

  /** The queue is swapped out; whether anyone hears of it is settled now. */
  function Taken(w: World): World
    requires w.batcher.Some?
  {
    var b := w.batcher.value;
    WithBatcher(w, b.(pending := [])).(added := Settled(w.added, b.loading, FateNow(w, b.loading)))
  }

  /** The callbacks run only if some are registered. */
  function Deliver(w: World, loading: bool, operations: seq<Operation>, batchId: nat): (r: World)
    ensures Runs(w, r)
    ensures w.script == [] ==> r.batcher == w.batcher
    ensures loading !in w.listening ==> r == w
    ensures loading in w.listening && w.script != [] ==> |r.script| < |w.script|
    decreases |w.script|, 0, 0
  {
    if loading !in w.listening then w
    else
      var called := w.(log := w.log + [Delivery(loading, operations, batchId)]);
      if w.script == [] then called
      else PerformAll(called.(script := w.script[1..]), w.script[0])
  }

  // ----- what every run keeps -----

  function DeliveredOps(log: seq<Delivery>, loading: bool): seq<Operation> {
    if log == [] then []
    else
      var last := log[|log| - 1];
      DeliveredOps(log[..|log| - 1], loading) + (if last.loading == loading then last.operations else [])
  }

  function AddedOps(added: seq<Addition>, loading: bool): seq<Operation> {
    if added == [] then []
    else
      var last := added[|added| - 1];
      AddedOps(added[..|added| - 1], loading) + (if last.loading == loading then [last.operation] else [])
  }

  /** The additions with this fate, in order. */
  function OpsOf(added: seq<Addition>, loading: bool, fate: Fate): seq<Operation> {
    if added == [] then []
    else
      var last := added[|added| - 1];
      OpsOf(added[..|added| - 1], loading, fate)
      + if last.loading == loading && last.fate == fate then [last.operation] else []
  }

  function PendingOps(w: World, loading: bool): seq<Operation> {
    if w.batcher.Some? && w.batcher.value.loading == loading then w.batcher.value.pending else []
  }

  /** What is queued came after everything that was delivered. */
  predicate Ordered(added: seq<Addition>, loading: bool) {
    forall i, j :: 0 <= i < j < |added| && added[i].loading == loading && added[j].loading == loading ==>
      added[i].fate == Queued ==> added[j].fate != Delivered
  }

  /** The callbacks with this flag have seen exactly the additions marked as delivered, in order, and exactly
      those marked as queued are in the queue. */
  predicate Accounted(w: World, loading: bool) {
    && DeliveredOps(w.log, loading) == OpsOf(w.added, loading, Delivered)
    && PendingOps(w, loading) == OpsOf(w.added, loading, Queued)
    && Ordered(w.added, loading)
  }

  /** While no callback with this flag is registered or removed, all of its additions have the same fate. */
  predicate Steady(w: World, loading: bool) {
    loading !in w.changed ==>
      && (loading in w.listening <==> loading in w.initial)
      && (w.batcher.Some? && w.batcher.value.loading == loading ==> (w.batcher.value.active <==> loading in w.initial))
      && forall i :: 0 <= i < |w.added| && w.added[i].loading == loading ==>
           (w.added[i].fate == Dropped <==> loading !in w.initial)
  }

  predicate BatcherOk(w: World) {
    w.batcher.Some? ==>
      var b := w.batcher.value;
      && (b.flushing || |b.pending| < THRESHOLD)
      && b.batchId > 0
  }

  /** A batch has a number and is never empty; a single delivery has none. */
  predicate BatchesOk(log: seq<Delivery>) {
    forall i :: 0 <= i < |log| ==> |log[i].operations| > 0 && (log[i].batchId == 0 ==> |log[i].operations| == 1)
  }

  /** Every number in use is smaller than the next one. */
  predicate Numbered(w: World) {
    && 0 < w.nextId
    && (w.batcher.Some? ==> w.batcher.value.batchId < w.nextId)
    && forall i :: 0 <= i < |w.log| ==> w.log[i].batchId < w.nextId
  }

  predicate Sound(w: World) {
    && Numbered(w) && BatcherOk(w) && BatchesOk(w.log)
    && Accounted(w, false) && Accounted(w, true) && Steady(w, false) && Steady(w, true)
  }

  /** What was added stays, except that its fate may be settled. */
  predicate Extends(added: seq<Addition>, more: seq<Addition>) {
    && |added| <= |more|
    && forall i :: 0 <= i < |added| ==> more[i].loading == added[i].loading && more[i].operation == added[i].operation
  }

  /** The callbacks cannot replace, reconfigure or end the batcher they run under. */
  predicate SameBatcher(w: World, r: World) {
    && Extends(w.added, r.added) && w.log <= r.log
    && r.initial == w.initial
    && |r.texts| == |w.texts|
    && (r.batcher.Some? <==> w.batcher.Some?)
    && (r.batcher.Some? ==>
      var x, y := w.batcher.value, r.batcher.value;
      x.loading == y.loading && x.active == y.active && x.flushing == y.flushing && x.batchId == y.batchId)
  }

  lemma {:induction false} PerformAllSound(w: World, actions: seq<Action>)
    requires Sound(w)
    ensures Sound(PerformAll(w, actions)) && SameBatcher(w, PerformAll(w, actions))
    decreases |w.script|, 4, actions
  {
    hide Sound, SameBatcher, Perform;
    if actions != [] {
      PerformSound(w, actions[0]);
      var next := Perform(w, actions[0]);
      PerformAllSound(next, actions[1..]);
      SameBatcherChains(w, next, PerformAll(next, actions[1..]));
    } else {
      SameBatcherChains(w, w, w);
    }
  }

  lemma SameBatcherChains(w: World, x: World, y: World)
    ensures SameBatcher(w, w)
    ensures SameBatcher(w, x) && SameBatcher(x, y) ==> SameBatcher(w, y)
  {
  }

  lemma {:induction false} PerformSound(w: World, action: Action)
    requires Sound(w)
    ensures Sound(Perform(w, action)) && SameBatcher(w, Perform(w, action))
    decreases |w.script|, 4, action
  {
    hide PerformAll, AddOperation, Close, Flush, Sound, SameBatcher, Open;
    match action
    case Register(loading, on) => RegisterSound(w, loading, on);
    case Add(kind, payload, buffer, loading) =>
      AddSound(w, Operation(kind, payload, TextAt(w.texts, kind, buffer)), loading);
    case Write(target, text) =>
      WriteSound(w, target, text);
    case Scope(loading, body) =>
      if w.batcher.Some? {
        PerformAllSound(w, body);
      } else {
        OpenSound(w, loading);
        var inside := PerformAll(Open(w, loading), body);
        PerformAllSound(Open(w, loading), body);
        NotFlushing(w, loading, inside);
        FlushSound(inside);
        CloseSound(w, loading, inside);
      }
  }

  lemma RegisterSound(w: World, loading: bool, on: bool)
    requires Sound(w)
    ensures Sound(SetRegistered(w, loading, on)) && SameBatcher(w, SetRegistered(w, loading, on))
  {
    hide DeliveredOps, OpsOf, Ordered;
  }

  lemma WriteSound(w: World, target: nat, text: string)
    requires Sound(w)
    ensures Sound(Perform(w, Write(target, text))) && SameBatcher(w, Perform(w, Write(target, text)))
  {
  }

  lemma OpenSound(w: World, loading: bool)
    requires Sound(w) && w.batcher.None?
    ensures Sound(Open(w, loading)) && Open(w, loading).script == w.script
  {
  }

  lemma NotFlushing(w: World, loading: bool, inside: World)
    requires w.batcher.None? && SameBatcher(Open(w, loading), inside) && Sound(inside)
    ensures inside.batcher.Some? && !inside.batcher.value.flushing && Sound(SetFlushing(inside, true))
  {
  }

  lemma CloseSound(w: World, loading: bool, inside: World)
    requires w.batcher.None? && SameBatcher(Open(w, loading), inside) && inside.batcher.Some?
    requires Sound(Flush(inside)) && SameBatcher(inside, Flush(inside)) && Flush(inside).batcher.value.pending == []
    ensures Sound(Close(inside)) && SameBatcher(w, Close(inside))
  {
    hide Flush, DeliveredOps, OpsOf, Ordered;
    var r := Flush(inside);
    assert DeliveredOps(r.log, false) + [] == DeliveredOps(r.log, false);
    assert DeliveredOps(r.log, true) + [] == DeliveredOps(r.log, true);
  }

  lemma {:induction false} AddSound(w: World, op: Operation, loading: bool)
    requires Sound(w)
    ensures Sound(AddOperation(w, op, loading)) && SameBatcher(w, AddOperation(w, op, loading))
    decreases |w.script|, 3
  {
    hide Enqueue, Deliver, Sound, SameBatcher;
    if w.batcher.Some? && w.batcher.value.loading == loading {
      EnqueueSound(w, op);
    } else {
      var recorded := Record(w, loading, op, FateNow(w, loading));
      DirectSound(w, op, loading);
      DeliverSound(recorded, loading, [op], 0);
      SameBatcherIgnoresAdded(w, recorded, Deliver(recorded, loading, [op], 0));
    }
  }

  lemma SameBatcherIgnoresAdded(w: World, recorded: World, r: World)
    requires recorded == w.(added := recorded.added) && Extends(w.added, recorded.added) && SameBatcher(recorded, r)
    ensures SameBatcher(w, r)
  {
  }

  lemma {:induction false} DeliveredOne(log: seq<Delivery>, last: Delivery, loading: bool)
    ensures DeliveredOps(log + [last], loading)
         == DeliveredOps(log, loading) + (if last.loading == loading then last.operations else [])
  {
    assert (log + [last])[..|log|] == log;
  }

  /** One more addition; it may not be delivered while others are still queued. */
  lemma RecordedOne(added: seq<Addition>, a: Addition, loading: bool)
    requires Ordered(added, loading)
    requires a.loading == loading && a.fate == Delivered ==> OpsOf(added, loading, Queued) == []
    ensures Ordered(added + [a], loading)
    ensures forall fate ::
      var one := if a.loading == loading && a.fate == fate then [a.operation] else [];
      OpsOf(added + [a], loading, fate) == OpsOf(added, loading, fate) + one
  {
    assert (added + [a])[..|added|] == added;
    hide OpsOf;
    if a.loading == loading && a.fate == Delivered {
      NothingQueued(added, loading);
    }
  }

  lemma {:induction false} NothingQueued(added: seq<Addition>, loading: bool)
    ensures OpsOf(added, loading, Queued) == [] <==>
      forall i :: 0 <= i < |added| && added[i].loading == loading ==> added[i].fate != Queued
  {
    if added != [] {
      NothingQueued(added[..|added| - 1], loading);
    }
  }

  lemma OpsStep(added: seq<Addition>, loading: bool, fate: Fate)
    requires added != []
    ensures var n := |added| - 1;
      var one := if added[n].loading == loading && added[n].fate == fate then [added[n].operation] else [];
      OpsOf(added, loading, fate) == OpsOf(added[..n], loading, fate) + one
  {
  }

  lemma OrderedFront(added: seq<Addition>, loading: bool)
    requires added != [] && Ordered(added, loading)
    ensures var n := |added| - 1;
      && Ordered(added[..n], loading)
      && (added[n].loading == loading && added[n].fate == Delivered ==> OpsOf(added[..n], loading, Queued) == [])
  {
    hide OpsOf;
    NothingQueued(added[..|added| - 1], loading);
  }

  lemma {:induction false} SettledOps(added: seq<Addition>, loading: bool, fate: Fate)
    requires fate != Queued && Ordered(added, loading)
    ensures OpsOf(Settled(added, loading, fate), loading, Queued) == []
    ensures OpsOf(Settled(added, loading, fate), loading, Delivered)
         == OpsOf(added, loading, Delivered) + if fate == Delivered then OpsOf(added, loading, Queued) else []
  {
    if added != [] {
      hide OpsOf, Ordered;
      var n := |added| - 1;
      var r := Settled(added, loading, fate);
      OrderedFront(added, loading);
      SettledOps(added[..n], loading, fate);
      assert r[..n] == Settled(added[..n], loading, fate);
      OpsStep(added, loading, Delivered);
      OpsStep(added, loading, Queued);
      OpsStep(r, loading, Delivered);
      OpsStep(r, loading, Queued);
      SettledLast(OpsOf(added[..n], loading, Delivered), OpsOf(added[..n], loading, Queued), added[n], loading, fate);
    }
  }

  /** The last addition joins the delivered ones, or the queued ones, or neither. */
  lemma SettledLast(delivered: seq<Operation>, queued: seq<Operation>, last: Addition, loading: bool, fate: Fate)
    requires last.loading == loading && last.fate == Delivered ==> queued == []
    ensures
      var taken := (q: seq<Operation>) => if fate == Delivered then q else [];
      var one := (f: Fate) => if last.loading == loading && last.fate == f then [last.operation] else [];
      var after := if last.loading == loading && last.fate == Queued then fate else last.fate;
      delivered + taken(queued) + (if last.loading == loading && after == Delivered then [last.operation] else [])
      == delivered + one(Delivered) + taken(queued + one(Queued))
  {
  }

  lemma {:induction false} SettledOthers(added: seq<Addition>, loading: bool, fate: Fate, other: bool, f: Fate)
    requires other != loading
    ensures OpsOf(Settled(added, loading, fate), other, f) == OpsOf(added, other, f)
  {
    if added != [] {
      var n := |added| - 1;
      SettledOthers(added[..n], loading, fate, other, f);
      assert Settled(added, loading, fate)[..n] == Settled(added[..n], loading, fate);
    }
  }

  /** The state in which the callbacks start. */
  function Called(w: World, loading: bool, operations: seq<Operation>, batchId: nat): World {
    if loading in w.listening then w.(log := w.log + [Delivery(loading, operations, batchId)]) else w
  }

  lemma DirectSound(w: World, op: Operation, loading: bool)
    requires Sound(w) && !(w.batcher.Some? && w.batcher.value.loading == loading)
    ensures Sound(Called(Record(w, loading, op, FateNow(w, loading)), loading, [op], 0))
  {
    hide DeliveredOps, OpsOf, Ordered;
    var d := Delivery(loading, [op], 0);
    forall l: bool
      ensures DeliveredOps(w.log + [d], l) == DeliveredOps(w.log, l) + (if loading == l then [op] else [])
    {
      DeliveredOne(w.log, d, l);
    }
    RecordedOne(w.added, Addition(loading, op, FateNow(w, loading)), true);
    RecordedOne(w.added, Addition(loading, op, FateNow(w, loading)), false);
  }

  lemma {:induction false} EnqueueSound(w: World, op: Operation)
    requires Sound(w) && w.batcher.Some?
    ensures Sound(Enqueue(w, op)) && SameBatcher(w, Enqueue(w, op))
    decreases |w.script|, 2
  {
    hide Flush, Sound, SameBatcher;
    var b := w.batcher.value;
    if b.active {
      var queued := WithBatcher(Record(w, b.loading, op, Queued), b.(pending := b.pending + [op]));
      QueuedSound(w, op);
      if |b.pending| + 1 >= THRESHOLD {
        FlushSound(queued);
        SameBatcherChains(w, queued, Flush(queued));
      }
    } else {
      IgnoredSound(w, op);
    }
  }

  lemma QueuedSound(w: World, op: Operation)
    requires Sound(w) && w.batcher.Some? && w.batcher.value.active
    ensures var b := w.batcher.value;
      var queued := WithBatcher(Record(w, b.loading, op, Queued), b.(pending := b.pending + [op]));
      && SameBatcher(w, queued) && Sound(SetFlushing(queued, true))
      && (|b.pending| + 1 < THRESHOLD ==> Sound(queued))
  {
    hide DeliveredOps, OpsOf, Ordered;
    RecordedOne(w.added, Addition(w.batcher.value.loading, op, Queued), true);
    RecordedOne(w.added, Addition(w.batcher.value.loading, op, Queued), false);
  }

  lemma IgnoredSound(w: World, op: Operation)
    requires Sound(w) && w.batcher.Some? && !w.batcher.value.active
    ensures var r := Record(w, w.batcher.value.loading, op, Dropped); Sound(r) && SameBatcher(w, r)
  {
    hide DeliveredOps, OpsOf, Ordered;
    RecordedOne(w.added, Addition(w.batcher.value.loading, op, Dropped), true);
    RecordedOne(w.added, Addition(w.batcher.value.loading, op, Dropped), false);
  }

  lemma {:induction false} FlushSound(w: World)
    requires w.batcher.Some? && Sound(SetFlushing(w, true))
    ensures Sound(Flush(w)) && SameBatcher(w, Flush(w))
    ensures !w.batcher.value.flushing ==> Flush(w).batcher.value.pending == []
    decreases |w.script|, 1
  {
    hide Drain, DeliveredOps, OpsOf, Ordered;
    if !w.batcher.value.flushing {
      DrainSound(SetFlushing(w, true));
    } else {
      assert SetFlushing(w, true) == w;
    }
  }

  lemma {:induction false} DrainSound(w: World)
    requires w.batcher.Some? && w.batcher.value.flushing && Sound(w)
    ensures Sound(Drain(w)) && SameBatcher(w, Drain(w))
    decreases |w.script|, 0, 1 + |w.batcher.value.pending|
  {
    hide Deliver, Sound, SameBatcher;
    var b := w.batcher.value;
    SameBatcherChains(w, w, w);
    if b.pending != [] {
      TakenSound(w);
      DeliverSound(Taken(w), b.loading, b.pending, b.batchId);
      var next := Deliver(Taken(w), b.loading, b.pending, b.batchId);
      StillFlushing(w, next);
      DrainSound(next);
      SameBatcherChains(w, next, Drain(next));
    }
  }

  lemma StillFlushing(w: World, next: World)
    requires w.batcher.Some? && w.batcher.value.flushing
    requires SameBatcher(Taken(w), next)
    ensures SameBatcher(w, next) && next.batcher.Some? && next.batcher.value.flushing
  {
  }

  lemma TakenSound(w: World)
    requires w.batcher.Some? && w.batcher.value.flushing && Sound(w) && w.batcher.value.pending != []
    ensures var b := w.batcher.value; Sound(Called(Taken(w), b.loading, b.pending, b.batchId))
  {
    hide DeliveredOps, OpsOf;
    var b := w.batcher.value;
    var d := Delivery(b.loading, b.pending, b.batchId);
    forall l: bool
      ensures DeliveredOps(w.log + [d], l) == DeliveredOps(w.log, l) + (if b.loading == l then b.pending else [])
    {
      DeliveredOne(w.log, d, l);
    }
    SettledOps(w.added, b.loading, FateNow(w, b.loading));
    SettledOthers(w.added, b.loading, FateNow(w, b.loading), !b.loading, Delivered);
    SettledOthers(w.added, b.loading, FateNow(w, b.loading), !b.loading, Queued);
  }

  lemma {:induction false} DeliverSound(w: World, loading: bool, operations: seq<Operation>, batchId: nat)
    requires Sound(Called(w, loading, operations, batchId))
    ensures var r := Deliver(w, loading, operations, batchId);
      Sound(r) && SameBatcher(w, r) && Called(w, loading, operations, batchId).log <= r.log
    decreases |w.script|, 0, 0
  {
    hide PerformAll, Sound, SameBatcher;
    var called := Called(w, loading, operations, batchId);
    SameBatcherIgnoresLog(w, called);
    SameBatcherChains(w, w, w);
    if loading in w.listening && w.script != [] {
      var next := called.(script := w.script[1..]);
      ScriptIsNotState(called, next);
      PerformAllSound(next, w.script[0]);
      SameBatcherChains(w, next, PerformAll(next, w.script[0]));
      LogGrows(next, PerformAll(next, w.script[0]));
    }
  }

  lemma LogGrows(w: World, r: World)
    requires SameBatcher(w, r)
    ensures w.log <= r.log
  {
  }

  lemma SameBatcherIgnoresLog(w: World, called: World)
    requires called == w.(log := called.log) && w.log <= called.log
    ensures SameBatcher(w, called)
  {
  }

  lemma ScriptIsNotState(w: World, next: World)
    requires next == w.(script := next.script) && Sound(w)
    ensures Sound(next) && (forall x: World :: SameBatcher(x, w) ==> SameBatcher(x, next))
  {
  }

  /** A thread before it has done anything. */
  function Start(listening: set<bool>, texts: seq<string>, script: seq<seq<Action>>): World {
    World(listening, texts, script, None, 1, [], [], listening, {})
  }

  /** Whatever a thread and its callbacks do, and whenever callbacks are registered or removed: outside every
      batcher scope nothing is queued, and what was delivered are exactly the additions that were not dropped,
      once and in order, with the text they had when they were added. */
  lemma EverythingDelivered(listening: set<bool>, texts: seq<string>, script: seq<seq<Action>>, actions: seq<Action>)
    ensures var r := PerformAll(Start(listening, texts, script), actions);
      && r.batcher.None?
      && (forall i :: 0 <= i < |r.log| ==>
            |r.log[i].operations| > 0 && (r.log[i].batchId == 0 ==> |r.log[i].operations| == 1))
      && forall loading ::
        && DeliveredOps(r.log, loading) == OpsOf(r.added, loading, Delivered)
        && OpsOf(r.added, loading, Queued) == []
  {
    hide PerformAll;
    PerformAllSound(Start(listening, texts, script), actions);
  }

  lemma {:induction false} OpsAreFewer(added: seq<Addition>, loading: bool)
    requires OpsOf(added, loading, Queued) == []
    ensures |OpsOf(added, loading, Delivered)| <= |AddedOps(added, loading)|
    ensures OpsOf(added, loading, Delivered) == AddedOps(added, loading) <==> |OpsOf(added, loading, Delivered)| == |AddedOps(added, loading)|
    ensures OpsOf(added, loading, Delivered) == AddedOps(added, loading) <==> OpsOf(added, loading, Dropped) == []
  {
    if added != [] {
      OpsAreFewer(added[..|added| - 1], loading);
    }
  }

  /** Nothing is lost for a flag exactly if no addition was dropped. */
  lemma NothingLostIff(listening: set<bool>, texts: seq<string>, script: seq<seq<Action>>, actions: seq<Action>, loading: bool)
    ensures var r := PerformAll(Start(listening, texts, script), actions);
      DeliveredOps(r.log, loading) == AddedOps(r.added, loading) <==> OpsOf(r.added, loading, Dropped) == []
  {
    hide PerformAll, Start;
    EverythingDelivered(listening, texts, script, actions);
    OpsAreFewer(PerformAll(Start(listening, texts, script), actions).added, loading);
  }

  /** For a flag whose callbacks are not touched during the run, everything is delivered if some were
      registered at the start, and nothing otherwise. */
  lemma UntouchedFlags(listening: set<bool>, texts: seq<string>, script: seq<seq<Action>>, actions: seq<Action>, loading: bool)
    requires loading !in PerformAll(Start(listening, texts, script), actions).changed
    ensures var r := PerformAll(Start(listening, texts, script), actions);
      DeliveredOps(r.log, loading) == if loading in listening then AddedOps(r.added, loading) else []
  {
    hide PerformAll;
    PerformAllSound(Start(listening, texts, script), actions);
    var r := PerformAll(Start(listening, texts, script), actions);
    AllOrNothing(r.added, loading, loading in listening);
  }

  lemma {:induction false} AllOrNothing(added: seq<Addition>, loading: bool, all: bool)
    requires OpsOf(added, loading, Queued) == []
    requires forall i :: 0 <= i < |added| && added[i].loading == loading ==> (added[i].fate == Dropped <==> !all)
    ensures OpsOf(added, loading, Delivered) == if all then AddedOps(added, loading) else []
  {
    if added != [] {
      AllOrNothing(added[..|added| - 1], loading, all);
    }
  }

  /** A new batcher has a number that no batch has had before; the first one is number one. */
  lemma NumbersAreNew(w: World, loading: bool)
    requires Sound(w) && w.batcher.None?
    ensures var b := Open(w, loading).batcher.value;
      && b.batchId > 0 && Open(w, loading).nextId == b.batchId + 1
      && forall i :: 0 <= i < |w.log| ==> w.log[i].batchId < b.batchId
    ensures forall listening, texts, script :: Open(Start(listening, texts, script), loading).batcher.value.batchId == 1
  {
  }

  /** An operation waits in its batcher until there are 8096; then all are shown at once. */
  lemma WaitsUntilThreshold(w: World, op: Operation)
    requires Sound(w) && w.batcher.Some? && w.batcher.value.active && !w.batcher.value.flushing
    ensures var b, r := w.batcher.value, AddOperation(w, op, w.batcher.value.loading);
      && |b.pending| < 8096
      && r.batcher.Some?
      && (|b.pending| < 8095 ==> r.batcher.value.pending == b.pending + [op] && r.log == w.log)
      && (|b.pending| == 8095 ==> r.batcher.value.pending == [])
      && (|b.pending| == 8095 && b.loading in w.listening ==>
           w.log + [Delivery(b.loading, b.pending + [op], b.batchId)] <= r.log)
  {
    hide Sound, Flush, PerformAll;
    var b := w.batcher.value;
    var queued := WithBatcher(Record(w, b.loading, op, Queued), b.(pending := b.pending + [op]));
    QueuedSound(w, op);
    PendingBound(w);
    if |b.pending| == 8095 {
      FlushSound(queued);
      if b.loading in w.listening {
        FlushShows(queued);
      }
    }
  }

  lemma PendingBound(w: World)
    requires Sound(w) && w.batcher.Some? && !w.batcher.value.flushing
    ensures |w.batcher.value.pending| < THRESHOLD
  {
  }

  /** A flush begins with what is queued. */
  lemma FlushShows(w: World)
    requires w.batcher.Some? && !w.batcher.value.flushing && w.batcher.value.pending != []
    requires Sound(SetFlushing(w, true)) && w.batcher.value.loading in w.listening
    ensures var b := w.batcher.value; w.log + [Delivery(b.loading, b.pending, b.batchId)] <= Flush(w).log
  {
    hide Sound, PerformAll, Deliver, SameBatcher;
    var f := SetFlushing(w, true);
    var b := f.batcher.value;
    TakenSound(f);
    DeliverSound(Taken(f), b.loading, b.pending, b.batchId);
    var next := Deliver(Taken(f), b.loading, b.pending, b.batchId);
    StillFlushing(f, next);
    DrainSound(next);
    LogGrows(next, Drain(next));
    assert Called(Taken(f), b.loading, b.pending, b.batchId).log == w.log + [Delivery(b.loading, b.pending, b.batchId)];
    assert Drain(f) == Drain(DrainRound(f)) && DrainRound(f) == next;
    assert Flush(w) == SetFlushing(Drain(f), false) by { FlushIs(w); }
  }

  lemma FlushIs(w: World)
    requires w.batcher.Some? && !w.batcher.value.flushing
    ensures Flush(w) == SetFlushing(Drain(SetFlushing(w, true)), false)
  {
  }

  /** Writing to a buffer changes its text and nothing else. */
  lemma WritesTakeEffect(w: World, target: nat, text: string)
    requires target < |w.texts|
    ensures var r := Perform(w, Write(target, text));
      && |r.texts| == |w.texts| && r.texts[target] == text
      && (forall i :: 0 <= i < |w.texts| && i != target ==> r.texts[i] == w.texts[i])
      && r == w.(texts := r.texts)
  {
  }

  /** An addition is recorded with what the caller gave: a comment or a label with the text that its buffer
      holds at that moment, anything else without a text. */
  lemma AddedAsGiven(w: World, kind: Kind, payload: nat, buffer: Option<nat>, loading: bool)
    requires Sound(w)
    ensures var r := Perform(w, Add(kind, payload, buffer, loading));
      && |r.added| > |w.added|
      && var a := r.added[|w.added|];
      && a.loading == loading && a.operation.kind == kind && a.operation.payload == payload
      && (kind != Other && buffer.Some? && buffer.value < |w.texts| ==> a.operation.text == Some(w.texts[buffer.value]))
      && (kind == Other || buffer.None? ==> a.operation.text == None)
  {
    hide Sound, Flush, PerformAll, Deliver, SameBatcher;
    var op := Operation(kind, payload, TextAt(w.texts, kind, buffer));
    AddedFirst(w, op, loading);
  }

  lemma AddedFirst(w: World, op: Operation, loading: bool)
    requires Sound(w)
    ensures var r := AddOperation(w, op, loading);
      |r.added| > |w.added| && r.added[|w.added|].loading == loading && r.added[|w.added|].operation == op
  {
    hide Sound, Flush, PerformAll, Deliver;
    if w.batcher.Some? && w.batcher.value.loading == loading {
      var b := w.batcher.value;
      if b.active {
        var queued := WithBatcher(Record(w, b.loading, op, Queued), b.(pending := b.pending + [op]));
        QueuedSound(w, op);
        if |b.pending| + 1 >= THRESHOLD {
          FlushSound(queued);
        }
      }
    } else {
      DirectSound(w, op, loading);
      DeliverSound(Record(w, loading, op, FateNow(w, loading)), loading, [op], 0);
    }
  }

  /** A batcher opened before any callback was registered drops what is added until it closes, although a
      callback is there by then. */
  lemma LateCallbackMisses(loading: bool, payload: nat)
    ensures var add := Add(Other, payload, None, loading);
      var r := PerformAll(Start({}, [], []), [Scope(loading, [Register(loading, true), add])]);
      r.log == [] && loading in r.listening && r.added == [Addition(loading, Operation(Other, payload, None), Dropped)]
  {
    var add := Add(Other, payload, None, loading);
    var inside := Open(Start({}, [], []), loading);
    var heard := SetRegistered(inside, loading, true);
    var r := Record(heard, loading, Operation(Other, payload, None), Dropped);
    OneAction(heard, add);
    TwoActions(inside, Register(loading, true), add);
    assert PerformAll(inside, [Register(loading, true), add]) == r;
    assert Flush(r) == r;
    OneAction(Start({}, [], []), Scope(loading, [Register(loading, true), add]));
  }

  lemma OneAction(w: World, action: Action)
    ensures PerformAll(w, [action]) == Perform(w, action)
  {
    hide Perform;
    assert [action][1..] == [];
    assert PerformAll(Perform(w, action), []) == Perform(w, action);
  }

  lemma TwoActions(w: World, first: Action, second: Action)
    ensures PerformAll(w, [first, second]) == Perform(Perform(w, first), second)
  {
    hide Perform;
    assert [first, second][1..] == [second];
    OneAction(Perform(w, first), second);
  }
}
