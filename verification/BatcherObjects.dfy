/** The batcher as objects: text is held in buffers that their owner may overwrite at any time, so
    the batcher copies what it keeps. */
module BatcherObjects {
  import opened Options
  import opened CallbackBatcher

  class TextBuffer {
    var text: string

    constructor (text: string)
      ensures this.text == text
    {
      this.text := text;
    }
  }

  datatype DbOperation =
    | LabelOp(payload: nat, text: TextBuffer?)
    | CommentOp(payload: nat, text: TextBuffer?)
    | OtherOp(payload: nat)

  function TextOf(op: DbOperation): TextBuffer? {
    if op.OtherOp? then null else op.text
  }

  function KindOf(op: DbOperation): Kind {
    if op.LabelOp? then Label else if op.CommentOp? then Comment else Other
  }

  function Read(op: DbOperation): Operation
    reads if TextOf(op) != null then {TextOf(op)} else {}
  {
    Operation(KindOf(op), op.payload, if TextOf(op) != null then Some(TextOf(op).text) else None)
  }

  predicate OwnedBy(operations: seq<DbOperation>, strings: set<TextBuffer>) {
    forall i :: 0 <= i < |operations| && TextOf(operations[i]) != null ==> TextOf(operations[i]) in strings
  }

  function ReadAll(operations: seq<DbOperation>, ghost strings: set<TextBuffer>): (r: seq<Operation>)
    requires OwnedBy(operations, strings)
    reads strings
    ensures |r| == |operations|
  {
    if operations == [] then []
    else ReadAll(operations[..|operations| - 1], strings) + [Read(operations[|operations| - 1])]
  }

  function TextsOf(buffers: seq<TextBuffer>): (r: seq<string>)
    reads buffers
    ensures |r| == |buffers| && forall i :: 0 <= i < |r| ==> r[i] == buffers[i].text
  {
    if buffers == [] then [] else TextsOf(buffers[..|buffers| - 1]) + [buffers[|buffers| - 1].text]
  }

  function SetOf<T>(s: seq<T>): set<T> {
    set x | x in s
  }

  class DebugThread {
    var listening: set<bool>
    const buffers: seq<TextBuffer>
    var script: seq<seq<Action>>
    var tActiveBatcher: DbCallbackBatcher?
    var gBatchId: nat
    var log: seq<Delivery>
    ghost var added: seq<Addition>
    ghost const initial: set<bool>
    ghost var changed: set<bool>

    ghost predicate Valid()
      reads this, if tActiveBatcher != null then {tActiveBatcher} else {}
    {
      && (forall i, j :: 0 <= i < j < |buffers| ==> buffers[i] != buffers[j])
      && (tActiveBatcher != null ==>
        && OwnedBy(tActiveBatcher.mOperations, SetOf(tActiveBatcher.mStrings))
        && SetOf(tActiveBatcher.mStrings) !! SetOf(buffers))
    }

    ghost function ViewOf(b: DbCallbackBatcher): Batcher
      requires OwnedBy(b.mOperations, SetOf(b.mStrings))
      reads b, b.mStrings
    {
      Batcher(b.mLoading, b.mActive, b.mFlushing, ReadAll(b.mOperations, SetOf(b.mStrings)), b.mBatchId)
    }

    ghost function View(): World
      requires Valid()
      reads this, buffers
      reads if tActiveBatcher != null then {tActiveBatcher} + SetOf(tActiveBatcher.mStrings) else {}
    {
      World(listening, TextsOf(buffers), script, if tActiveBatcher != null then Some(ViewOf(tActiveBatcher)) else None,
        gBatchId, log, added, initial, changed)
    }

    ghost function Reach(): set<object>
      reads this
    {
      {this} + SetOf(buffers) + if tActiveBatcher != null then {tActiveBatcher} else {}
    }

    constructor (listening: set<bool>, buffers: seq<TextBuffer>, script: seq<seq<Action>>)
      requires forall i, j :: 0 <= i < j < |buffers| ==> buffers[i] != buffers[j]
      ensures Valid() && View() == Start(listening, TextsOf(buffers), script) && this.buffers == buffers
    {
      this.listening := listening;
      this.buffers := buffers;
      this.script := script;
      tActiveBatcher := null;
      gBatchId := 1;
      log := [];
      added := [];
      initial := listening;
      changed := {};
    }

    predicate IsActive(loading: bool)
      reads this, if tActiveBatcher != null then {tActiveBatcher} else {}
    {
      if tActiveBatcher != null && loading == tActiveBatcher.mLoading then tActiveBatcher.mActive
      else loading in listening
    }

    /** Runs the registered callbacks; each does what the script says. */
    method Call(loading: bool, operations: seq<DbOperation>, ghost strings: set<TextBuffer>, batchId: nat)
      requires Valid() && OwnedBy(operations, strings)
      modifies Reach()
      ensures Valid() && tActiveBatcher == old(tActiveBatcher)
      ensures View() == Deliver(old(View()), loading, old(ReadAll(operations, strings)), batchId)
      decreases |script|, 0, 0
    {
      hide CallbackBatcher.PerformAll, ReadAll, TextsOf;
      if loading !in listening {
        return;
      }
      log := log + [Delivery(loading, ReadAll(operations, strings), batchId)];
      if script != [] {
        var body := script[0];
        script := script[1..];
        PerformAll(body);
      }
    }

    method PerformAll(actions: seq<Action>)
      requires Valid()
      modifies Reach()
      ensures Valid() && tActiveBatcher == old(tActiveBatcher)
      ensures View() == CallbackBatcher.PerformAll(old(View()), actions)
      decreases |script|, 4, actions
    {
      hide CallbackBatcher.Perform, ReadAll, TextsOf;
      if actions != [] {
        Perform(actions[0]);
        PerformAll(actions[1..]);
      }
    }

    method Perform(action: Action)
      requires Valid()
      modifies Reach()
      ensures Valid() && tActiveBatcher == old(tActiveBatcher)
      ensures View() == CallbackBatcher.Perform(old(View()), action)
      decreases |script|, 4, action
    {
      hide CallbackBatcher.AddOperation, CallbackBatcher.PerformAll, CallbackBatcher.Flush, ReadAll, TextsOf;
      match action
      case Register(loading, on) =>
        listening := if on then listening + {loading} else listening - {loading};
        changed := changed + {loading};
      case Add(kind, payload, buffer, loading) =>
        var text: TextBuffer? := null;
        if buffer.Some? && buffer.value < |buffers| {
          text := buffers[buffer.value];
        }
        var op := if kind == Label then LabelOp(payload, text) else if kind == Comment then CommentOp(payload, text) else OtherOp(payload);
        AddOperation(op, loading);
      case Write(target, text) =>
        if target < |buffers| {
          Overwrite(target, text);
        }
      case Scope(loading, body) =>
        var batcher := new DbCallbackBatcher(this, loading);
        PerformAll(body);
        batcher.Destroy(this);
    }

    method Overwrite(target: nat, text: string)
      requires Valid() && target < |buffers|
      modifies buffers[target]
      ensures Valid() && View() == old(View()).(texts := old(View()).texts[target := text])
    {
      hide ReadAll, TextsOf;
      buffers[target].text := text;
      assert TextsOf(buffers) == old(TextsOf(buffers))[target := text];
    }

    method AddOperation(op: DbOperation, loading: bool)
      requires Valid() && OwnedBy([op], SetOf(buffers))
      modifies Reach()
      ensures Valid() && tActiveBatcher == old(tActiveBatcher)
      ensures View() == CallbackBatcher.AddOperation(old(View()), old(Read(op)), loading)
      decreases |script|, 3
    {
      hide CallbackBatcher.Enqueue, CallbackBatcher.Deliver, ReadAll, TextsOf;
      if tActiveBatcher != null && loading == tActiveBatcher.mLoading {
        tActiveBatcher.Enqueue(this, op);
      } else {
        ReadOne(op, SetOf(buffers));
        added := added + [Addition(loading, Read(op), FateNow(View(), loading))];
        Call(loading, [op], SetOf(buffers), 0);
      }
    }
  }

  lemma ReadOne(op: DbOperation, strings: set<TextBuffer>)
    requires OwnedBy([op], strings)
    ensures [op][0] == op && ReadAll([op], strings) == [Read(op)]
  {
    assert [op][..0] == [];
  }

  lemma ReadMore(operations: seq<DbOperation>, op: DbOperation, strings: set<TextBuffer>, more: set<TextBuffer>)
    requires OwnedBy(operations, strings) && OwnedBy([op], more) && strings <= more
    ensures OwnedBy(operations + [op], more)
    ensures ReadAll(operations + [op], more) == ReadAll(operations, strings) + [Read(op)]
  {
    assert [op][0] == op;
    assert (operations + [op])[..|operations|] == operations;
    ReadWithin(operations, strings, more);
  }

  lemma {:induction false} ReadWithin(operations: seq<DbOperation>, strings: set<TextBuffer>, more: set<TextBuffer>)
    requires OwnedBy(operations, strings) && strings <= more
    ensures OwnedBy(operations, more) && ReadAll(operations, more) == ReadAll(operations, strings)
  {
    if operations != [] {
      ReadWithin(operations[..|operations| - 1], strings, more);
    }
  }

  class DbCallbackBatcher {
    const mLoading: bool
    const mActive: bool
    const mOwner: bool
    const mBatchId: nat
    const mPrevious: DbCallbackBatcher?
    var mOperations: seq<DbOperation>
    var mStrings: seq<TextBuffer>
    var mFlushing: bool

    constructor (thread: DebugThread, loading: bool)
      requires thread.Valid()
      modifies thread`tActiveBatcher, thread`gBatchId
      ensures thread.Valid()
      ensures mOwner == (old(thread.tActiveBatcher) == null) && mPrevious == old(thread.tActiveBatcher)
      ensures thread.tActiveBatcher == if mOwner then this else mPrevious
      ensures thread.View() == if mOwner then Open(old(thread.View()), loading) else old(thread.View())
    {
      mLoading := loading;
      mPrevious := thread.tActiveBatcher;
      mOwner := thread.tActiveBatcher == null;
      mActive := thread.tActiveBatcher == null && thread.IsActive(loading);
      mBatchId := if thread.tActiveBatcher == null then thread.gBatchId else 0;
      mOperations := [];
      mStrings := [];
      mFlushing := false;
      new;
      if mOwner {
        thread.gBatchId := thread.gBatchId + 1;
        thread.tActiveBatcher := this;
      }
    }

    /** The destructor. */
    method Destroy(thread: DebugThread)
      requires thread.Valid() && (mOwner ==> thread.tActiveBatcher == this && mPrevious == null)
      modifies thread.Reach()
      ensures thread.Valid() && thread.tActiveBatcher == if mOwner then mPrevious else old(thread.tActiveBatcher)
      ensures thread.View() == if mOwner then Close(old(thread.View())) else old(thread.View())
      decreases |thread.script|, 3
    {
      hide CallbackBatcher.Flush, ReadAll, TextsOf;
      if mOwner {
        Flush(thread);
        thread.tActiveBatcher := mPrevious;
      }
    }

    /** The operation with its own copy of a comment or label text. */
    method Keep(thread: DebugThread, op: DbOperation) returns (kept: DbOperation)
      requires thread.Valid() && thread.tActiveBatcher == this && OwnedBy([op], SetOf(thread.buffers))
      modifies this`mStrings
      ensures thread.Valid() && SetOf(old(mStrings)) <= SetOf(mStrings) && OwnedBy([kept], SetOf(mStrings))
      ensures Read(kept) == old(Read(op))
    {
      kept := op;
      if op.CommentOp? && op.text != null {
        var copy := new TextBuffer(op.text.text);
        mStrings := mStrings + [copy];
        kept := op.(text := copy);
      } else if op.LabelOp? && op.text != null {
        var copy := new TextBuffer(op.text.text);
        mStrings := mStrings + [copy];
        kept := op.(text := copy);
      }
    }

    method Enqueue(thread: DebugThread, op: DbOperation)
      requires thread.Valid() && thread.tActiveBatcher == this && OwnedBy([op], SetOf(thread.buffers))
      modifies thread.Reach()
      ensures thread.Valid() && thread.tActiveBatcher == this
      ensures thread.View() == CallbackBatcher.Enqueue(old(thread.View()), old(Read(op)))
      decreases |thread.script|, 2
    {
      hide CallbackBatcher.Flush, ReadAll, TextsOf, Read;
      if !mActive {
        thread.added := thread.added + [Addition(mLoading, Read(op), Dropped)];
        return;
      }
      var kept := Keep(thread, op);
      ReadMore(mOperations, kept, old(SetOf(mStrings)), SetOf(mStrings));
      mOperations := mOperations + [kept];
      thread.added := thread.added + [Addition(mLoading, old(Read(op)), Queued)];
      assert ReadAll(mOperations, SetOf(mStrings)) == old(ReadAll(mOperations, SetOf(mStrings))) + [old(Read(op))];
      if |mOperations| >= THRESHOLD {
        Flush(thread);
      }
    }

    /** One round of a flush: the queue is swapped out, so what the callbacks add goes to the next
        round, and the operations stay as they are while the callbacks look at them. */
    method DeliverBatch(thread: DebugThread)
      requires thread.Valid() && thread.tActiveBatcher == this && mOperations != []
      modifies thread.Reach()
      ensures thread.Valid() && thread.tActiveBatcher == this
      ensures thread.View() == DrainRound(old(thread.View()))
      decreases |thread.script|, 0, 1
    {
      hide ReadAll, TextsOf, Deliver;
      var operations, strings := mOperations, mStrings;
      mOperations, mStrings := [], [];
      thread.added := Settled(thread.added, mLoading, FateNow(thread.View(), mLoading));
      ghost var shown := ReadAll(operations, SetOf(strings));
      thread.Call(mLoading, operations, SetOf(strings), mBatchId);
      assert ReadAll(operations, SetOf(strings)) == shown;
    }

    method Flush(thread: DebugThread)
      requires thread.Valid() && thread.tActiveBatcher == this
      modifies thread.Reach()
      ensures thread.Valid() && thread.tActiveBatcher == this
      ensures thread.View() == CallbackBatcher.Flush(old(thread.View()))
      decreases |thread.script|, 1
    {
      hide ReadAll, TextsOf, DrainRound;
      if mFlushing {
        return;
      }
      mFlushing := true;
      ghost var drained := Drain(thread.View());
      while mOperations != []
        invariant thread.Valid() && thread.tActiveBatcher == this && thread.Reach() == old(thread.Reach())
        invariant Drain(thread.View()) == drained
        invariant |thread.script| <= old(|thread.script|)
        decreases |thread.script|, |mOperations|
      {
        DeliverBatch(thread);
      }
      mFlushing := false;
    }
  }

  /** A whole run of a thread: what the callbacks read from memory, in order, is what was added, however
      the text buffers were overwritten in between. */
  method RunThread(thread: DebugThread, actions: seq<Action>)
    requires thread.Valid()
    requires thread.View() == Start(thread.listening, TextsOf(thread.buffers), thread.script)
    modifies thread.Reach()
    ensures forall loading :: DeliveredOps(thread.log, loading) == OpsOf(thread.added, loading, Delivered)
    ensures forall loading :: OpsOf(thread.added, loading, Queued) == []
    ensures forall loading :: loading !in thread.changed ==>
      DeliveredOps(thread.log, loading) == if loading in thread.initial then AddedOps(thread.added, loading) else []
  {
    hide CallbackBatcher.PerformAll, TextsOf, ReadAll, DeliveredOps, AddedOps, OpsOf;
    var listening, texts, script := thread.listening, TextsOf(thread.buffers), thread.script;
    EverythingDelivered(listening, texts, script, actions);
    thread.PerformAll(actions);
    forall loading | loading !in thread.changed
      ensures DeliveredOps(thread.log, loading) == if loading in thread.initial then AddedOps(thread.added, loading) else []
    {
      UntouchedFlags(listening, texts, script, actions, loading);
    }
  }
}
