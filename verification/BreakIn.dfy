/** The break-in protocol: pause commands on any number of threads and the debug loop share three
    atomic variables. Every step is one atomic access. */
module BreakIn {
  // ----- the protocol -----

  /** Where a thread is in the pause command; each state names the access that comes next. */
  datatype CommandPc = Ready | StoreStart | ClearThread | CreateThread | DropExpected | DropStart

  datatype DebugEvent =
    | ThreadCreated(id: nat, start: nat)
    | ThreadExited(id: nat)
    | Raised(id: nat, firstChanceBreakpoint: bool)
    | LoopReset

  /** Where the debug loop is in handling an event. */
  datatype DebugPc =
    | Waiting
    | CreateReadExpected(id: nat, start: nat)
    | CreateReadStart(id: nat, start: nat)
    | CreateCompareStart(id: nat, start: nat)
    | CreateStoreThread(id: nat, start: nat)
    | ExitReadThread(id: nat)
    | RaisedReadExpected(id: nat, firstChanceBreakpoint: bool)
    | RaisedReadThread(id: nat, firstChanceBreakpoint: bool)
    | RaisedCompareThread(id: nat, firstChanceBreakpoint: bool)
    | ResetExpected(why: Reason)
    | ResetThread(why: Reason)
    | ResetStart(why: Reason)

  datatype Reason = Swallowing | Exiting(id: nat) | Restarting

  /** A breakpoint exception that was reported as a pause. */
  datatype Pause = Pause(id: nat, start: nat)

  /** The three shared variables, the position of every thread, and for the statements below: the live
      threads with their start addresses, the addresses recorded by requests, the number of requests that
      found no other pending, and the pauses. */
  datatype State = State(
    expected: bool,
    threadId: nat,
    startAddress: nat,
    commands: seq<CommandPc>,
    debug: DebugPc,
    threads: map<nat, nat>,
    recorded: set<nat>,
    accepted: nat,
    pauses: seq<Pause>)

  /** `address` and `created` are what the lookup of the entry point and the creation of the thread
      return, where a step needs them. */
  datatype Action = Command(i: nat, address: nat, created: bool) | Event(event: DebugEvent) | Debug

  function Start(commandThreads: nat): State {
    State(false, 0, 0, seq(commandThreads, i => Ready), Waiting, map[], {}, 0, [])
  }

  function CommandStep(s: State, i: nat, address: nat, created: bool): State
    requires i < |s.commands|
  {
    var at := (pc: CommandPc) => s.(commands := s.commands[i := pc]);
    match s.commands[i]
    case Ready => if s.expected then s else at(StoreStart).(expected := true, accepted := s.accepted + 1)
    case StoreStart => at(ClearThread).(startAddress := address, recorded := s.recorded + {address})
    case ClearThread => at(CreateThread).(threadId := 0)
    case CreateThread => at(if created then Ready else DropExpected)
    case DropExpected => at(DropStart).(expected := false)
    case DropStart => at(Ready).(startAddress := 0)
  }

  /** The debugger is told of a new thread under an unused identifier, and threads have nonzero identifiers. */
  function EventStep(s: State, e: DebugEvent): State
    requires s.debug == Waiting
  {
    match e
    case ThreadCreated(id, start) =>
      if id == 0 || id in s.threads then s
      else s.(debug := CreateReadExpected(id, start), threads := s.threads[id := start])
    case ThreadExited(id) => if id in s.threads then s.(debug := ExitReadThread(id)) else s
    case Raised(id, b) => if id != 0 then s.(debug := RaisedReadExpected(id, b)) else s
    case LoopReset => s.(debug := ResetExpected(Restarting))
  }

  function DebugStep(s: State): State {
    match s.debug
    case Waiting => s
    case CreateReadExpected(id, start) => s.(debug := if s.expected then CreateReadStart(id, start) else Waiting)
    case CreateReadStart(id, start) =>
      s.(debug := if s.startAddress != 0 then CreateCompareStart(id, start) else Waiting)
    case CreateCompareStart(id, start) =>
      s.(debug := if start == s.startAddress then CreateStoreThread(id, start) else Waiting)
    case CreateStoreThread(id, start) => s.(debug := Waiting, threadId := id)
    case ExitReadThread(id) =>
      if id == s.threadId then s.(debug := ResetExpected(Exiting(id)))
      else s.(debug := Waiting, threads := s.threads - {id})
    case RaisedReadExpected(id, b) => s.(debug := if s.expected then RaisedReadThread(id, b) else Waiting)
    case RaisedReadThread(id, b) => s.(debug := if s.threadId != 0 then RaisedCompareThread(id, b) else Waiting)
    case RaisedCompareThread(id, b) =>
      if id == s.threadId && b then
        s.(debug := ResetExpected(Swallowing),
           pauses := s.pauses + [Pause(id, if id in s.threads then s.threads[id] else 0)])
      else s.(debug := Waiting)
    case ResetExpected(why) => s.(debug := ResetThread(why), expected := false)
    case ResetThread(why) => s.(debug := ResetStart(why), threadId := 0)
    case ResetStart(why) =>
      var left := if why.Exiting? then s.threads - {why.id} else if why.Restarting? then map[] else s.threads;
      s.(debug := Waiting, startAddress := 0, threads := left)
  }

  function Next(s: State, a: Action): State {
    match a
    case Command(i, address, created) => if i < |s.commands| then CommandStep(s, i, address, created) else s
    case Event(e) => if s.debug == Waiting then EventStep(s, e) else s
    case Debug => DebugStep(s)
  }

  function Run(s: State, actions: seq<Action>): State
    decreases |actions|
  {
    if actions == [] then s else Run(Next(s, actions[0]), actions[1..])
  }

  // ----- safety under every interleaving -----

  /** The debug loop has seen a pending request and not yet taken it back. */
  predicate Taking(d: DebugPc) {
    d.RaisedReadThread? || d.RaisedCompareThread? || d == ResetExpected(Swallowing)
  }

  function Untaken(s: State): nat {
    if s.expected || Taking(s.debug) then 1 else 0
  }

  function Undone(d: DebugPc): nat {
    if d == ResetExpected(Swallowing) then 1 else 0
  }

  predicate PausesOk(s: State) {
    |s.pauses| + Untaken(s) <= s.accepted + Undone(s.debug)
  }

  /** The recorded thread is alive and was created with a recorded start address, or with none. */
  predicate Known(s: State, id: nat) {
    id in s.threads && (s.threads[id] == 0 || s.threads[id] in s.recorded)
  }

  predicate ThreadsOk(s: State) {
    && 0 !in s.threads
    && (s.startAddress == 0 || s.startAddress in s.recorded)
    && (s.threadId != 0 ==> Known(s, s.threadId))
    && (match s.debug
        case CreateReadExpected(id, start) => id in s.threads && s.threads[id] == start
        case CreateReadStart(id, start) => id in s.threads && s.threads[id] == start
        case CreateCompareStart(id, start) => id in s.threads && s.threads[id] == start
        case CreateStoreThread(id, start) => Known(s, id)
        case ExitReadThread(id) => id in s.threads
        case RaisedReadExpected(id, _) => id != 0
        case RaisedReadThread(id, _) => id != 0
        case RaisedCompareThread(id, _) => id != 0
        case ResetStart(why) => s.threadId == 0
        case _ => true)
  }

  predicate PausedOk(s: State) {
    forall k :: 0 <= k < |s.pauses| ==> s.pauses[k].start == 0 || s.pauses[k].start in s.recorded
  }

  predicate Safe(s: State) {
    PausesOk(s) && ThreadsOk(s) && PausedOk(s)
  }

  lemma CommandKeepsPauses(s: State, i: nat, address: nat, created: bool)
    requires PausesOk(s) && i < |s.commands|
    ensures PausesOk(CommandStep(s, i, address, created))
  {
  }

  lemma CommandKeepsThreads(s: State, i: nat, address: nat, created: bool)
    requires ThreadsOk(s) && i < |s.commands|
    ensures ThreadsOk(CommandStep(s, i, address, created))
  {
    var r := CommandStep(s, i, address, created);
    assert forall id :: Known(s, id) ==> Known(r, id);
    assert r.debug == s.debug && r.threads == s.threads && (r.threadId == s.threadId || r.threadId == 0);
    hide CommandStep, Known;
  }

  lemma CommandKeepsPaused(s: State, i: nat, address: nat, created: bool)
    requires PausedOk(s) && i < |s.commands|
    ensures PausedOk(CommandStep(s, i, address, created))
  {
  }

  lemma EventKeepsSafe(s: State, e: DebugEvent)
    requires Safe(s) && s.debug == Waiting
    ensures Safe(EventStep(s, e))
  {
  }

  lemma DebugKeepsPauses(s: State)
    requires PausesOk(s)
    ensures PausesOk(DebugStep(s))
  {
  }

  lemma DebugKeepsThreads(s: State)
    requires ThreadsOk(s)
    ensures ThreadsOk(DebugStep(s))
  {
  }

  lemma DebugKeepsPaused(s: State)
    requires PausedOk(s) && ThreadsOk(s)
    ensures PausedOk(DebugStep(s))
  {
  }

  lemma NextKeepsSafe(s: State, a: Action)
    requires Safe(s)
    ensures Safe(Next(s, a))
  {
    hide CommandStep, EventStep, DebugStep, PausesOk, ThreadsOk, PausedOk;
    match a
    case Command(i, address, created) =>
      if i < |s.commands| {
        CommandKeepsPauses(s, i, address, created);
        CommandKeepsThreads(s, i, address, created);
        CommandKeepsPaused(s, i, address, created);
      }
    case Event(e) =>
      if s.debug == Waiting {
        EventKeepsSafe(s, e);
      }
    case Debug =>
      DebugKeepsPauses(s);
      DebugKeepsThreads(s);
      DebugKeepsPaused(s);
  }

  lemma {:induction false} RunKeepsSafe(s: State, actions: seq<Action>)
    requires Safe(s)
    ensures Safe(Run(s, actions))
    decreases |actions|
  {
    hide Next, Safe;
    if actions != [] {
      NextKeepsSafe(s, actions[0]);
      RunKeepsSafe(Next(s, actions[0]), actions[1..]);
    }
  }

  /** However the accesses interleave, there are never more pauses than accepted requests, and a pause
      is reported only on a thread whose start address a request recorded, or whose start address is null. */
  lemma PausesAreRequested(commandThreads: nat, actions: seq<Action>)
    ensures var r := Run(Start(commandThreads), actions);
      && |r.pauses| <= r.accepted
      && forall k :: 0 <= k < |r.pauses| ==> r.pauses[k].start == 0 || r.pauses[k].start in r.recorded
  {
    hide Run;
    RunKeepsSafe(Start(commandThreads), actions);
  }

  lemma {:induction false} RunParts(s: State, first: seq<Action>, more: seq<Action>)
    ensures Run(s, first + more) == Run(Run(s, first), more)
    decreases |first|
  {
    hide Next;
    if first == [] {
      assert first + more == more;
    } else {
      assert (first + more)[1..] == first[1..] + more;
      RunParts(Next(s, first[0]), first[1..], more);
    }
  }

  // ----- uninterrupted callbacks -----

  function StepsLeft(d: DebugPc): nat {
    match d
    case Waiting => 0
    case CreateStoreThread(_, _) | ResetStart(_) => 1
    case CreateCompareStart(_, _) | ResetThread(_) => 2
    case CreateReadStart(_, _) | ResetExpected(_) => 3
    case CreateReadExpected(_, _) | ExitReadThread(_) | RaisedCompareThread(_, _) => 4
    case RaisedReadThread(_, _) => 5
    case RaisedReadExpected(_, _) => 6
  }

  function Finish(s: State): (r: State)
    ensures r.debug == Waiting
    decreases StepsLeft(s.debug)
  {
    if s.debug == Waiting then s else Finish(DebugStep(s))
  }

  /** A callback that runs without anything in between. */
  function Handle(s: State, e: DebugEvent): State
    requires s.debug == Waiting
  {
    Finish(EventStep(s, e))
  }

  predicate Clean(s: State) {
    !s.expected && s.threadId == 0 && s.startAddress == 0
  }

  lemma FinishStep(s: State)
    ensures Finish(s) == if s.debug == Waiting then s else Finish(DebugStep(s))
  {
  }

  /** Uninterrupted, a pause leaves all three variables reset, and so does the exit of the recorded thread. */
  lemma PauseOrExitCleans(s: State, e: DebugEvent)
    requires s.debug == Waiting
    ensures |Handle(s, e).pauses| > |s.pauses| ==> Clean(Handle(s, e))
    ensures e == ThreadExited(s.threadId) && s.threadId in s.threads ==> Clean(Handle(s, e))
  {
    hide Finish;
    var t := EventStep(s, e);
    FinishStep(t);
    match e
    case ThreadCreated(id, start) => CreatingEnds(t);
    case ThreadExited(id) =>
      if id in s.threads {
        if id == s.threadId {
          ResettingEnds(DebugStep(t));
        } else {
          FinishStep(DebugStep(t));
        }
      }
    case Raised(id, b) =>
      if id != 0 {
        RaisingEnds(t);
      }
    case LoopReset => ResettingEnds(t);
  }

  lemma CreatingEnds(s: State)
    requires s.debug == Waiting || s.debug.CreateReadExpected?
    ensures Finish(s).pauses == s.pauses
    ensures s.debug.CreateReadExpected? && s.expected && s.startAddress == s.debug.start != 0 ==>
      Finish(s) == s.(debug := Waiting, threadId := s.debug.id)
  {
    hide Finish;
    var t := DebugStep(s);
    var u := DebugStep(t);
    var v := DebugStep(u);
    FinishStep(s);
    FinishStep(t);
    FinishStep(u);
    FinishStep(v);
    FinishStep(DebugStep(v));
  }

  lemma ResettingEnds(s: State)
    requires s.debug.ResetExpected?
    ensures Clean(Finish(s)) && Finish(s).pauses == s.pauses && Finish(s).commands == s.commands
  {
    hide Finish;
    var t := DebugStep(s);
    var u := DebugStep(t);
    FinishStep(s);
    FinishStep(t);
    FinishStep(u);
    FinishStep(DebugStep(u));
  }

  lemma RaisingEnds(s: State)
    requires s.debug.RaisedReadExpected?
    ensures var paused := s.expected && s.threadId != 0 && s.debug.id == s.threadId && s.debug.firstChanceBreakpoint;
      && (paused ==>
        && Clean(Finish(s)) && Finish(s).commands == s.commands
        && Finish(s).pauses == s.pauses + [Pause(s.threadId, if s.threadId in s.threads then s.threads[s.threadId] else 0)])
      && (!paused ==> Finish(s).pauses == s.pauses)
  {
    hide Finish;
    var t := DebugStep(s);
    var u := DebugStep(t);
    var v := DebugStep(u);
    FinishStep(s);
    FinishStep(t);
    FinishStep(u);
    FinishStep(v);
    if v.debug.ResetExpected? {
      ResettingEnds(v);
    }
  }

  /** One pause command from start to end, with nothing in between. */
  function Request(address: nat, i: nat): seq<Action> {
    [Command(i, address, true), Command(i, address, true), Command(i, address, true), Command(i, address, true)]
  }

  lemma RequestRuns(s: State, i: nat, address: nat)
    requires i < |s.commands| && s.commands[i] == Ready && !s.expected
    ensures Run(s, Request(address, i)) ==
      s.(expected := true, threadId := 0, startAddress := address, recorded := s.recorded + {address}, accepted := s.accepted + 1)
  {
    hide Run;
    var a := Command(i, address, true);
    RunFour(s, a, a, a, a);
    var t := s.(expected := true, startAddress := address, recorded := s.recorded + {address}, accepted := s.accepted + 1);
    assert Next(Next(s, a), a) == t.(commands := s.commands[i := ClearThread]);
    assert Next(Next(Next(s, a), a), a) == t.(commands := s.commands[i := CreateThread], threadId := 0);
    assert s.commands[i := Ready] == s.commands;
  }

  lemma RunFour(s: State, a: Action, b: Action, c: Action, d: Action)
    ensures Run(s, [a, b, c, d]) == Next(Next(Next(Next(s, a), b), c), d)
  {
    hide Next;
    assert [a, b, c, d][1..] == [b, c, d] && [b, c, d][1..] == [c, d] && [c, d][1..] == [d] && [d][1..] == [];
    var t := Next(Next(Next(s, a), b), c);
    assert Run(t, [d]) == Next(t, d);
    assert Run(Next(Next(s, a), b), [c, d]) == Next(t, d);
    assert Run(Next(s, a), [b, c, d]) == Next(t, d);
  }

  // ----- when a request survives -----

  /** The debug loop is taking an earlier request back. */
  predicate Resetting(d: DebugPc) {
    d.ResetExpected? || d.ResetThread? || d.ResetStart?
  }

  predicate Creating(d: DebugPc) {
    d.CreateReadExpected? || d.CreateReadStart? || d.CreateCompareStart? || d.CreateStoreThread?
  }

  /** The debug loop goes on to record this thread even if the start address is null from now on. */
  predicate Recording(d: DebugPc) {
    d.CreateStoreThread? || (d.CreateCompareStart? && d.start == 0)
  }

  /** The request is pending with its start address, so that its thread can be told by it. */
  predicate Served(r: State, address: nat) {
    r.expected && r.startAddress == address != 0
  }

  /** The state right behind an uninterrupted request. */
  predicate Requested(s: State, address: nat) {
    s.expected && s.threadId == 0 && s.startAddress == address && ThreadsOk(s)
  }

  /** What is left of a request when the debug loop has finished what it was at. */
  predicate Left(s: State, r: State, address: nat) {
    && r.threads.Keys <= s.threads.Keys && r.pauses == s.pauses && r.commands == s.commands
    && r.expected == !s.debug.ResetExpected?
    && r.startAddress == (if Resetting(s.debug) then 0 else address)
    && (Resetting(s.debug) || !Creating(s.debug) ==> r.threadId == 0)
    && (Creating(s.debug) && address == 0 ==> r.threadId == if Recording(s.debug) then s.debug.id else 0)
  }

  lemma CreatingLeaves(s: State, address: nat)
    requires Requested(s, address) && Creating(s.debug)
    ensures Left(s, Finish(s), address)
  {
    hide Finish, ThreadsOk;
    var t := DebugStep(s);
    var u := DebugStep(t);
    var v := DebugStep(u);
    FinishStep(s);
    FinishStep(t);
    FinishStep(u);
    FinishStep(v);
    FinishStep(DebugStep(v));
  }

  lemma RaisingLeaves(s: State, address: nat)
    requires Requested(s, address)
    requires s.debug.RaisedReadExpected? || s.debug.RaisedReadThread? || s.debug.RaisedCompareThread?
    ensures Left(s, Finish(s), address)
  {
    hide Finish, Known;
    var t := DebugStep(s);
    var u := DebugStep(t);
    FinishStep(s);
    FinishStep(t);
    FinishStep(u);
  }

  lemma OthersLeave(s: State, address: nat)
    requires Requested(s, address) && (s.debug.Waiting? || s.debug.ExitReadThread?)
    ensures Left(s, Finish(s), address)
  {
    hide Finish, Known;
    FinishStep(s);
    FinishStep(DebugStep(s));
  }

  /** A reset that is under way drops the request, or leaves it pending without a start address. */
  lemma ResettingLeaves(s: State, address: nat)
    requires Requested(s, address) && Resetting(s.debug)
    ensures Left(s, Finish(s), address)
  {
    hide Finish, ThreadsOk;
    var t := DebugStep(s);
    var u := DebugStep(t);
    FinishStep(s);
    FinishStep(t);
    FinishStep(u);
    FinishStep(DebugStep(u));
  }

  lemma RequestLeaves(s: State, address: nat)
    requires Requested(s, address)
    ensures Left(s, Finish(s), address)
  {
    hide Finish, Requested, Left;
    if Resetting(s.debug) {
      ResettingLeaves(s, address);
    } else if s.debug.Waiting? || s.debug.ExitReadThread? {
      OthersLeave(s, address);
    } else if Creating(s.debug) {
      CreatingLeaves(s, address);
    } else {
      RaisingLeaves(s, address);
    }
  }

  lemma RequestIsRequested(s: State, i: nat, address: nat)
    requires ThreadsOk(s) && i < |s.commands| && s.commands[i] == Ready && !s.expected
    ensures var r := Run(s, Request(address, i));
      Requested(r, address) && r.debug == s.debug && r.threads == s.threads && r.commands == s.commands && r.pauses == s.pauses
  {
    hide Run;
    RequestRuns(s, i, address);
  }

  /** Exactly when a request that runs uninterrupted survives. The debug loop may be anywhere in its
      callbacks at that moment; once it has finished, the request is still pending with its address if
      and only if it has one and the loop was not resetting the variables. A reset that had not yet stored
      its first variable drops the request and leaves everything clean; a later one leaves the protocol
      stuck, and so does a request without an address, unless the loop was about to record a thread. */
  lemma RequestSurvivesIff(s: State, i: nat, address: nat)
    requires ThreadsOk(s) && i < |s.commands| && s.commands[i] == Ready && !s.expected
    ensures var r := Finish(Run(s, Request(address, i)));
      && (Served(r, address) <==> address != 0 && !Resetting(s.debug))
      && (Clean(r) <==> s.debug.ResetExpected?)
      && (Stuck(r) <==>
           && (forall k :: 0 <= k < |s.commands| ==> s.commands[k] == Ready)
           && (s.debug.ResetThread? || s.debug.ResetStart?
               || (address == 0 && !s.debug.ResetExpected? && !Recording(s.debug))))
  {
    hide Run, Finish, Known;
    if Recording(s.debug) {
      RecordsAThread(s);
    }
    RequestIsRequested(s, i, address);
    RequestLeaves(Run(s, Request(address, i)), address);
  }

  lemma RecordsAThread(s: State)
    requires ThreadsOk(s) && Recording(s.debug)
    ensures s.debug.id != 0
  {
  }

  /** A thread that the debugger learns of, and that raises the breakpoint exception, is paused exactly if a
      request is pending with the thread's start address. */
  lemma PauseFollows(r: State, address: nat, id: nat)
    requires r.debug == Waiting && id != 0 && id !in r.threads && r.threadId != id
    ensures var p := Handle(Handle(r, ThreadCreated(id, address)), Raised(id, true));
      && p.pauses == (if Served(r, address) then r.pauses + [Pause(id, address)] else r.pauses)
      && (Served(r, address) ==> Clean(p) && p.commands == r.commands)
  {
    hide Finish;
    var created := EventStep(r, ThreadCreated(id, address));
    CreatingEnds(created);
    CreatingStays(created);
    var seen := Finish(created);
    RaisingEnds(EventStep(seen, Raised(id, true)));
  }

  /** A thread is not noticed unless a request is pending with its start address. */
  lemma CreatingStays(s: State)
    requires s.debug.CreateReadExpected?
    ensures !(s.expected && s.startAddress == s.debug.start != 0) ==> Finish(s).threadId == s.threadId
  {
    hide Finish;
    var t := DebugStep(s);
    var u := DebugStep(t);
    FinishStep(s);
    FinishStep(t);
    FinishStep(u);
    FinishStep(DebugStep(u));
  }

  /** Over every run: at any reachable point a request that finds no other pending and runs uninterrupted
      leads to a pause on the thread it creates if and only if it has a start address and the debug loop is
      not resetting the variables at that point. */
  lemma RequestPausesIff(commandThreads: nat, actions: seq<Action>, i: nat, address: nat, id: nat)
    requires var s := Run(Start(commandThreads), actions);
      i < |s.commands| && s.commands[i] == Ready && !s.expected && id !in s.threads
    requires id != 0
    ensures var s := Run(Start(commandThreads), actions);
      var r := Finish(Run(s, Request(address, i)));
      var p := Handle(Handle(r, ThreadCreated(id, address)), Raised(id, true));
      && p.pauses == (if address != 0 && !Resetting(s.debug) then s.pauses + [Pause(id, address)] else s.pauses)
      && (address != 0 && !Resetting(s.debug) ==> Clean(p) && p.commands == s.commands)
  {
    hide Run, Finish, Handle;
    var s := Run(Start(commandThreads), actions);
    RunKeepsSafe(Start(commandThreads), actions);
    RequestIsRequested(s, i, address);
    var spawned := Run(s, Request(address, i));
    RequestLeaves(spawned, address);
    FinishKeepsThreads(spawned);
    PauseFollows(Finish(spawned), address, id);
  }

  lemma {:induction false} FinishKeepsThreads(s: State)
    requires ThreadsOk(s)
    ensures ThreadsOk(Finish(s))
    decreases StepsLeft(s.debug)
  {
    hide ThreadsOk;
    if s.debug != Waiting {
      DebugKeepsThreads(s);
      FinishKeepsThreads(DebugStep(s));
    }
  }

  /** A pause command whose thread cannot be created takes its request back: everything is reset, and the
      next request is accepted. */
  lemma FailedRequestWithdraws(s: State, i: nat, address: nat)
    requires i < |s.commands| && s.commands[i] == Ready && !s.expected
    ensures var c, failed := Command(i, address, true), Command(i, address, false);
      var r := Run(s, [c, c, c, failed] + [c, c]);
      && Clean(r) && r.commands == s.commands && r.debug == s.debug && r.pauses == s.pauses && r.threads == s.threads
      && r.accepted == s.accepted + 1
  {
    hide Run, Next;
    var c, failed := Command(i, address, true), Command(i, address, false);
    RunParts(s, [c, c, c, failed], [c, c]);
    CreationFails(s, i, address);
    RequestIsTakenBack(Run(s, [c, c, c, failed]), i, address);
    assert s.commands[i := Ready] == s.commands;
  }

  lemma CreationFails(s: State, i: nat, address: nat)
    requires i < |s.commands| && s.commands[i] == Ready && !s.expected
    ensures var c, failed := Command(i, address, true), Command(i, address, false);
      Run(s, [c, c, c, failed]) ==
        s.(expected := true, startAddress := address, threadId := 0, recorded := s.recorded + {address},
           accepted := s.accepted + 1, commands := s.commands[i := DropExpected])
  {
    hide Run;
    var c, failed := Command(i, address, true), Command(i, address, false);
    RunFour(s, c, c, c, failed);
    var t := s.(expected := true, startAddress := address, recorded := s.recorded + {address}, accepted := s.accepted + 1);
    assert Next(Next(s, c), c) == t.(commands := s.commands[i := ClearThread]);
    assert Next(Next(Next(s, c), c), c) == t.(commands := s.commands[i := CreateThread], threadId := 0);
  }

  lemma RequestIsTakenBack(s: State, i: nat, address: nat)
    requires i < |s.commands| && s.commands[i] == DropExpected
    ensures var c := Command(i, address, true);
      Run(s, [c, c]) == s.(expected := false, startAddress := 0, commands := s.commands[i := Ready])
  {
    hide Run;
    var c := Command(i, address, true);
    RunTwo(s, c, c);
    assert Next(s, c) == s.(commands := s.commands[i := DropStart], expected := false);
    assert s.commands[i := DropStart][i := Ready] == s.commands[i := Ready];
  }

  lemma RunTwo(s: State, a: Action, b: Action)
    ensures Run(s, [a, b]) == Next(Next(s, a), b)
  {
    hide Next;
    assert [a, b][1..] == [b] && [b][1..] == [];
    assert Run(Next(s, a), [b]) == Next(Next(s, a), b);
  }

  /** Whenever no request is pending and the debug loop is between callbacks, the next request spawns
      a thread, its breakpoint is reported as a pause, and everything is reset for the request after it. */
  lemma NextRequestPauses(s: State, i: nat, address: nat, id: nat)
    requires i < |s.commands| && s.commands[i] == Ready && !s.expected && s.debug == Waiting
    requires address != 0 && id != 0 && id !in s.threads
    ensures var spawned := Run(s, Request(address, i));
      && spawned.debug == Waiting
      && var r := Handle(Handle(spawned, ThreadCreated(id, address)), Raised(id, true));
      && r.pauses == s.pauses + [Pause(id, address)] && Clean(r) && r.commands == s.commands
  {
    hide Run, Handle;
    RequestRuns(s, i, address);
    PauseFollows(Run(s, Request(address, i)), address, id);
  }

  // ----- requests that are interrupted -----

  /** Only the debug loop and its events take part. */
  predicate Quiet(actions: seq<Action>) {
    forall k :: 0 <= k < |actions| ==> !actions[k].Command?
  }

  /** On the way the debug loop stores the first variable of a reset. */
  predicate Drops(s: State, actions: seq<Action>)
    decreases |actions|
  {
    actions != [] && ((actions[0] == Debug && s.debug.ResetExpected?) || Drops(Next(s, actions[0]), actions[1..]))
  }

  /** On the way the debug loop stores the last variable of a reset. */
  predicate Wipes(s: State, actions: seq<Action>)
    decreases |actions|
  {
    actions != [] && ((actions[0] == Debug && s.debug.ResetStart?) || Wipes(Next(s, actions[0]), actions[1..]))
  }

  lemma {:induction false} DropsParts(s: State, first: seq<Action>, more: seq<Action>)
    ensures Drops(s, first + more) <==> Drops(s, first) || Drops(Run(s, first), more)
    ensures Wipes(s, first + more) <==> Wipes(s, first) || Wipes(Run(s, first), more)
    decreases |first|
  {
    hide Next;
    if first == [] {
      assert first + more == more;
    } else {
      assert (first + more)[1..] == first[1..] + more;
      DropsParts(Next(s, first[0]), first[1..], more);
    }
  }

  lemma QuietStep(s: State, a: Action)
    requires !a.Command?
    ensures var r := Next(s, a);
      && r.commands == s.commands
      && r.expected == (s.expected && !(a == Debug && s.debug.ResetExpected?))
      && r.startAddress == if a == Debug && s.debug.ResetStart? then 0 else s.startAddress
  {
  }

  /** While no command thread runs, only a reset changes the request, and each of its stores for good. */
  lemma {:induction false} QuietRun(s: State, actions: seq<Action>)
    requires Quiet(actions)
    ensures var r := Run(s, actions);
      && r.commands == s.commands
      && r.expected == (s.expected && !Drops(s, actions))
      && r.startAddress == if Wipes(s, actions) then 0 else s.startAddress
    decreases |actions|
  {
    hide Next;
    if actions != [] {
      QuietStep(s, actions[0]);
      QuietRun(Next(s, actions[0]), actions[1..]);
    }
  }

  /** The four accesses of a request, with anything the debug loop does between and behind them. */
  function Interrupted(c: Action, a: seq<Action>, b: seq<Action>, d: seq<Action>, e: seq<Action>): seq<Action> {
    [c] + BehindFirst(c, a, b, d, e)
  }

  function BehindFirst(c: Action, a: seq<Action>, b: seq<Action>, d: seq<Action>, e: seq<Action>): seq<Action> {
    a + ([c] + BehindSecond(c, b, d, e))
  }

  function BehindSecond(c: Action, b: seq<Action>, d: seq<Action>, e: seq<Action>): seq<Action> {
    b + ([c] + (d + ([c] + e)))
  }

  lemma RunStep(s: State, a: Action, more: seq<Action>)
    ensures Run(s, [a] + more) == Run(Next(s, a), more) && Run(s, [a]) == Next(s, a)
    ensures Drops(s, [a] + more) <==> (a == Debug && s.debug.ResetExpected?) || Drops(Next(s, a), more)
    ensures Wipes(s, [a] + more) <==> (a == Debug && s.debug.ResetStart?) || Wipes(Next(s, a), more)
  {
    hide Next;
    assert ([a] + more)[1..] == more;
    assert Run(Next(s, a), []) == Next(s, a);
  }

  lemma RunNothing(s: State)
    ensures Run(s, []) == s && !Drops(s, []) && !Wipes(s, [])
  {
  }

  /** One access of the command thread and what the debug loop does behind it. */
  lemma AccessRuns(s: State, c: Action, between: seq<Action>, more: seq<Action>)
    requires c.Command? && c.created && c.i < |s.commands| && Quiet(between)
    requires s.commands[c.i] == StoreStart || s.commands[c.i] == ClearThread || s.commands[c.i] == CreateThread
    ensures var t := Next(s, c);
      var r := Run(t, between);
      && r.commands == s.commands[c.i :=
           if s.commands[c.i] == StoreStart then ClearThread else if s.commands[c.i] == ClearThread then CreateThread else Ready]
      && r.expected == (s.expected && !Drops(t, between))
      && (s.commands[c.i] == StoreStart ==> r.startAddress == if Wipes(t, between) then 0 else c.address)
      && (s.commands[c.i] != StoreStart ==> r.startAddress == if Wipes(t, between) then 0 else s.startAddress)
      && Run(s, [c] + (between + more)) == Run(r, more)
      && (Drops(t, between + more) <==> Drops(t, between) || Drops(r, more))
      && (Wipes(t, between + more) <==> Wipes(t, between) || Wipes(r, more))
      && (forall x :: Drops(s, [c] + x) <==> Drops(t, x))
      && (forall x :: Wipes(s, [c] + x) <==> Wipes(t, x))
  {
    hide Run, Drops, Wipes, Quiet;
    var t := Next(s, c);
    forall x
      ensures Run(s, [c] + x) == Run(t, x) && (Drops(s, [c] + x) <==> Drops(t, x)) && (Wipes(s, [c] + x) <==> Wipes(t, x))
    {
      RunStep(s, c, x);
    }
    QuietRun(t, between);
    RunParts(t, between, more);
    DropsParts(t, between, more);
  }

  /** Exactly when a request survives that the debug loop interrupts anywhere: it has a start address, no
      reset stores its first variable behind the first access, and none its last behind the second. */
  lemma InterruptedSurvivesIff(s: State, c: Action, a: seq<Action>, b: seq<Action>, d: seq<Action>, e: seq<Action>)
    requires c.Command? && c.created && c.i < |s.commands| && s.commands[c.i] == Ready && !s.expected
    requires Quiet(a) && Quiet(b) && Quiet(d) && Quiet(e)
    ensures var first := Next(s, c);
      var second := Next(Run(first, a), c);
      var r := Run(s, Interrupted(c, a, b, d, e));
      && r.commands == s.commands
      && (Served(r, c.address) <==>
           c.address != 0 && !Drops(first, BehindFirst(c, a, b, d, e)) && !Wipes(second, BehindSecond(c, b, d, e)))
  {
    hide Run, Drops, Wipes, Quiet;
    var first := Next(s, c);
    RunStep(s, c, BehindFirst(c, a, b, d, e));
    QuietRun(first, a);
    RunParts(first, a, [c] + BehindSecond(c, b, d, e));
    DropsParts(first, a, [c] + BehindSecond(c, b, d, e));
    var s1 := Run(first, a);
    assert s1.commands == s.commands[c.i := StoreStart];
    AccessRuns(s1, c, b, [c] + (d + ([c] + e)));
    var s2 := Run(Next(s1, c), b);
    AccessRuns(s2, c, d, [c] + e);
    var s3 := Run(Next(s2, c), d);
    assert e + [] == e;
    AccessRuns(s3, c, e, []);
    RunNothing(Run(Next(s3, c), e));
    assert s3.commands[c.i := Ready] == s.commands;
  }

  /** A reset that stores its last variable between the first two accesses does no harm, although an
      uninterrupted request at the same point is wiped out. */
  lemma LateResetIsHarmless(s: State, c: Action)
    requires c.Command? && c.created && c.i < |s.commands| && s.commands[c.i] == Ready && !s.expected
    requires s.debug.ResetStart? && c.address != 0
    ensures Served(Run(s, Interrupted(c, [Debug], [], [], [])), c.address)
    ensures ThreadsOk(s) ==> !Served(Finish(Run(s, Request(c.address, c.i))), c.address)
  {
    hide Run, Drops, Wipes, Served, Request, ThreadsOk, Interrupted;
    var first := Next(s, c);
    var r := Next(first, Debug);
    RunStep(first, Debug, []);
    RunNothing(r);
    var more := [c] + BehindSecond(c, [], [], []);
    assert [Debug] + more == BehindFirst(c, [Debug], [], [], []);
    InterruptedSurvivesIff(s, c, [Debug], [], [], []);
    IdleRun(Next(r, c), BehindSecond(c, [], [], []));
    IdleRun(r, more);
    RunStep(first, Debug, more);
    if ThreadsOk(s) {
      RequestSurvivesIff(s, c.i, c.address);
    }
  }

  /** Without a step of the debug loop nothing is reset. */
  lemma {:induction false} IdleRun(s: State, actions: seq<Action>)
    requires forall k :: 0 <= k < |actions| ==> actions[k].Command?
    ensures !Drops(s, actions) && !Wipes(s, actions)
    decreases |actions|
  {
    hide Next;
    if actions != [] {
      IdleRun(Next(s, actions[0]), actions[1..]);
    }
  }

  /** So at any reachable point an accepted request leads to a pause on the thread it creates, or to none, by
      what the debug loop did between its accesses and behind them. */
  lemma InterruptedPausesIff(commandThreads: nat, actions: seq<Action>, c: Action, a: seq<Action>, b: seq<Action>,
                             d: seq<Action>, e: seq<Action>, id: nat)
    requires var s := Run(Start(commandThreads), actions);
      c.Command? && c.created && c.i < |s.commands| && s.commands[c.i] == Ready && !s.expected
    requires Quiet(a) && Quiet(b) && Quiet(d) && Quiet(e)
    requires var r := Run(Run(Start(commandThreads), actions), Interrupted(c, a, b, d, e));
      r.debug == Waiting && id != 0 && id !in r.threads
    ensures var s := Run(Start(commandThreads), actions);
      var first := Next(s, c);
      var second := Next(Run(first, a), c);
      var r := Run(s, Interrupted(c, a, b, d, e));
      var p := Handle(Handle(r, ThreadCreated(id, c.address)), Raised(id, true));
      var survives :=
        c.address != 0 && !Drops(first, BehindFirst(c, a, b, d, e)) && !Wipes(second, BehindSecond(c, b, d, e));
      p.pauses == if survives then r.pauses + [Pause(id, c.address)] else r.pauses
  {
    hide Run, Drops, Wipes, Quiet, Handle, Interrupted, BehindFirst, BehindSecond;
    var s := Run(Start(commandThreads), actions);
    InterruptedSurvivesIff(s, c, a, b, d, e);
    RunParts(Start(commandThreads), actions, Interrupted(c, a, b, d, e));
    RunKeepsSafe(Start(commandThreads), actions + Interrupted(c, a, b, d, e));
    PauseFollows(Run(s, Interrupted(c, a, b, d, e)), c.address, id);
  }

  // ----- what goes wrong between the accesses -----

  /** A request is pending that no thread can serve. */
  predicate Stuck(s: State) {
    && s.expected && s.startAddress == 0 && s.threadId == 0 && 0 !in s.threads
    && (forall i :: 0 <= i < |s.commands| ==> s.commands[i] == Ready)
    && match s.debug
       case Waiting => true
       case CreateReadExpected(_, _) | CreateReadStart(_, _) | RaisedReadExpected(_, _) | RaisedReadThread(_, _) => true
       case ExitReadThread(id) => id != 0
       case _ => false
  }

  lemma NextKeepsStuck(s: State, a: Action)
    requires Stuck(s) && a != Event(LoopReset)
    ensures Stuck(Next(s, a)) && Next(s, a).pauses == s.pauses && Next(s, a).accepted == s.accepted
  {
  }

  /** Once stuck, no pause and no new request happens until the session ends. */
  lemma {:induction false} StuckForever(s: State, actions: seq<Action>)
    requires Stuck(s) && Event(LoopReset) !in actions
    ensures var r := Run(s, actions); Stuck(r) && r.pauses == s.pauses && r.accepted == s.accepted
    decreases |actions|
  {
    hide Next, Stuck;
    if actions != [] {
      NextKeepsStuck(s, actions[0]);
      StuckForever(Next(s, actions[0]), actions[1..]);
    }
  }

  /** A pause, and a second request that begins between the first and the second store of its reset. */
  function LostPauseRun(address: nat, id: nat): seq<Action> {
    var c := Command(0, address, true);
    Request(address, 0)
    + [Event(ThreadCreated(id, address)), Debug, Debug, Debug]
    + [Debug, Event(Raised(id, true)), Debug, Debug]
    + [Debug, Debug, c, c]
    + [c, c, Debug, Debug]
  }

  lemma RunFive(s: State, a: seq<Action>, b: seq<Action>, c: seq<Action>, d: seq<Action>, e: seq<Action>)
    ensures Run(s, a + b + c + d + e) == Run(Run(Run(Run(Run(s, a), b), c), d), e)
  {
    hide Run;
    RunParts(s, a + b + c + d, e);
    RunParts(s, a + b + c, d);
    RunParts(s, a + b, c);
    RunParts(s, a, b);
  }

  /** The late stores of a reset wipe out the second request: it was accepted and its thread was
      created, but it is never served. */
  lemma LostPause(address: nat, id: nat)
    requires address != 0 && id != 0
    ensures var r := Run(Start(1), LostPauseRun(address, id));
      r.accepted == 2 && r.pauses == [Pause(id, address)] && Stuck(r)
  {
    hide Run, Next;
    var c := Command(0, address, true);
    var p1 := [Event(ThreadCreated(id, address)), Debug, Debug, Debug];
    var p2 := [Debug, Event(Raised(id, true)), Debug, Debug];
    RunFive(Start(1), Request(address, 0), p1, p2, [Debug, Debug, c, c], [c, c, Debug, Debug]);
    var s := Start(1);
    RequestRuns(s, 0, address);
    var s0 := State(true, 0, address, [Ready], Waiting, map[], {address}, 1, []);
    assert Run(s, Request(address, 0)) == s0;
    ThreadIsNoticed(s0, address, id);
    BreakpointIsTaken(s0.(debug := CreateStoreThread(id, address), threads := map[id := address]), address, id);
    ResetIsOvertaken(address, id);
    RequestIsWiped(address, id);
  }

  /** Without an entry point the request itself leaves the protocol stuck, with the debug loop idle. */
  lemma NullAddressSticks()
    ensures var r := Run(Start(1), Request(0, 0)); r.accepted == 1 && r.pauses == [] && Stuck(r)
  {
    hide Run;
    RequestRuns(Start(1), 0, 0);
  }

  /** A request accepted while the debug loop is idle can be dropped by a reset that begins behind its
      second access. */
  lemma DroppedByRestart(address: nat)
    requires address != 0
    ensures var c := Command(0, address, true);
      var r := Run(Start(1), [c, c, Event(LoopReset), Debug] + [Debug, Debug, c, c]);
      r.accepted == 1 && Clean(r) && r.debug == Waiting && r.commands == [Ready]
  {
    hide Run, Next;
    var c := Command(0, address, true);
    RunParts(Start(1), [c, c, Event(LoopReset), Debug], [Debug, Debug, c, c]);
    ResetBegins(address);
    ResetEnds(address);
  }

  lemma ResetBegins(address: nat)
    ensures var c := Command(0, address, true);
      Run(Start(1), [c, c, Event(LoopReset), Debug])
      == State(false, 0, address, [ClearThread], ResetThread(Restarting), map[], {address}, 1, [])
  {
    hide Run;
    var c := Command(0, address, true);
    RunFour(Start(1), c, c, Event(LoopReset), Debug);
    assert Next(Next(Start(1), c), c) == State(true, 0, address, [ClearThread], Waiting, map[], {address}, 1, []);
  }

  lemma ResetEnds(address: nat)
    ensures var c := Command(0, address, true);
      Run(State(false, 0, address, [ClearThread], ResetThread(Restarting), map[], {address}, 1, []), [Debug, Debug, c, c])
      == State(false, 0, 0, [Ready], Waiting, map[], {address}, 1, [])
  {
    hide Run;
    var c := Command(0, address, true);
    var s := State(false, 0, address, [ClearThread], ResetThread(Restarting), map[], {address}, 1, []);
    RunFour(s, Debug, Debug, c, c);
    assert Next(Next(s, Debug), Debug) == State(false, 0, 0, [ClearThread], Waiting, map[], {address}, 1, []);
  }

  lemma ThreadIsNoticed(s: State, address: nat, id: nat)
    requires address != 0 && id != 0 && s == State(true, 0, address, [Ready], Waiting, map[], {address}, 1, [])
    ensures Run(s, [Event(ThreadCreated(id, address)), Debug, Debug, Debug])
         == s.(debug := CreateStoreThread(id, address), threads := map[id := address])
  {
    hide Run;
    RunFour(s, Event(ThreadCreated(id, address)), Debug, Debug, Debug);
  }

  lemma BreakpointIsTaken(s: State, address: nat, id: nat)
    requires id != 0 && s.debug == CreateStoreThread(id, address) && s.expected
    ensures Run(s, [Debug, Event(Raised(id, true)), Debug, Debug])
         == s.(debug := RaisedCompareThread(id, true), threadId := id)
  {
    hide Run;
    RunFour(s, Debug, Event(Raised(id, true)), Debug, Debug);
  }

  lemma ResetIsOvertaken(address: nat, id: nat)
    requires address != 0 && id != 0
    ensures var c := Command(0, address, true);
      Run(State(true, id, address, [Ready], RaisedCompareThread(id, true), map[id := address], {address}, 1, []), [Debug, Debug, c, c])
      == State(true, id, address, [ClearThread], ResetThread(Swallowing), map[id := address], {address}, 2, [Pause(id, address)])
  {
    hide Run;
    var s := State(true, id, address, [Ready], RaisedCompareThread(id, true), map[id := address], {address}, 1, []);
    var c := Command(0, address, true);
    RunFour(s, Debug, Debug, c, c);
    var t := State(false, id, address, [Ready], ResetThread(Swallowing), map[id := address], {address}, 1, [Pause(id, address)]);
    assert Next(Next(s, Debug), Debug) == t;
  }

  lemma RequestIsWiped(address: nat, id: nat)
    requires address != 0 && id != 0
    ensures var c := Command(0, address, true);
      var r := Run(
        State(true, id, address, [ClearThread], ResetThread(Swallowing), map[id := address], {address}, 2, [Pause(id, address)]),
        [c, c, Debug, Debug]);
      r == State(true, 0, 0, [Ready], Waiting, map[id := address], {address}, 2, [Pause(id, address)]) && Stuck(r)
  {
    hide Run;
    var s := State(true, id, address, [ClearThread], ResetThread(Swallowing), map[id := address], {address}, 2, [Pause(id, address)]);
    var c := Command(0, address, true);
    RunFour(s, c, c, Debug, Debug);
    assert Next(Next(s, c), c) == s.(threadId := 0, commands := [Ready]);
  }

  /** A thread without a start address, created while a request fails. */
  function NullStartRun(address: nat, id: nat): seq<Action> {
    var c := Command(0, address, true);
    [c, c, c, Event(ThreadCreated(id, 0))]
    + [Debug, Debug, Command(0, address, false), c]
    + [c, Debug, Debug, c]
    + [Event(Raised(id, true)), Debug, Debug, Debug]
  }

  /** The exception for null start addresses is needed: the address is read twice, and the second
      read can see the reset of a failed request. */
  lemma NullStartPauses(address: nat, id: nat)
    requires address != 0 && id != 0
    ensures Run(Start(1), NullStartRun(address, id)).pauses == [Pause(id, 0)]
  {
    hide Run, Next;
    var c := Command(0, address, true);
    var p1 := [c, c, c, Event(ThreadCreated(id, 0))];
    var p2, p3 := [Debug, Debug, Command(0, address, false), c], [c, Debug, Debug, c];
    var p4 := [Event(Raised(id, true)), Debug, Debug, Debug];
    RunParts(Start(1), p1 + p2 + p3, p4);
    RunParts(Start(1), p1 + p2, p3);
    RunParts(Start(1), p1, p2);
    NullStartBegins(address, id);
    NullStartFails(address, id);
    NullStartReturns(address, id);
    NullStartEnds(address, id);
  }

  lemma NullStartBegins(address: nat, id: nat)
    requires address != 0 && id != 0
    ensures var c := Command(0, address, true);
      Run(Start(1), [c, c, c, Event(ThreadCreated(id, 0))])
      == State(true, 0, address, [CreateThread], CreateReadExpected(id, 0), map[id := 0], {address}, 1, [])
  {
    hide Run;
    var c := Command(0, address, true);
    RunFour(Start(1), c, c, c, Event(ThreadCreated(id, 0)));
    var t := State(true, 0, address, [ClearThread], Waiting, map[], {address}, 1, []);
    assert Next(Next(Start(1), c), c) == t;
  }

  lemma NullStartFails(address: nat, id: nat)
    requires address != 0 && id != 0
    ensures
      Run(State(true, 0, address, [CreateThread], CreateReadExpected(id, 0), map[id := 0], {address}, 1, []),
        [Debug, Debug, Command(0, address, false), Command(0, address, true)])
      == State(false, 0, address, [DropStart], CreateCompareStart(id, 0), map[id := 0], {address}, 1, [])
  {
    hide Run;
    var s := State(true, 0, address, [CreateThread], CreateReadExpected(id, 0), map[id := 0], {address}, 1, []);
    RunFour(s, Debug, Debug, Command(0, address, false), Command(0, address, true));
    assert Next(Next(s, Debug), Debug) == s.(debug := CreateCompareStart(id, 0));
  }

  lemma NullStartReturns(address: nat, id: nat)
    requires address != 0 && id != 0
    ensures var c := Command(0, address, true);
      Run(State(false, 0, address, [DropStart], CreateCompareStart(id, 0), map[id := 0], {address}, 1, []), [c, Debug, Debug, c])
      == State(true, id, 0, [StoreStart], Waiting, map[id := 0], {address}, 2, [])
  {
    hide Run;
    var s := State(false, 0, address, [DropStart], CreateCompareStart(id, 0), map[id := 0], {address}, 1, []);
    var c := Command(0, address, true);
    RunFour(s, c, Debug, Debug, c);
    assert Next(Next(s, c), Debug) == s.(startAddress := 0, commands := [Ready], debug := CreateStoreThread(id, 0));
  }

  lemma NullStartEnds(address: nat, id: nat)
    requires address != 0 && id != 0
    ensures var s := State(true, id, 0, [StoreStart], Waiting, map[id := 0], {address}, 2, []);
      Run(s, [Event(Raised(id, true)), Debug, Debug, Debug]).pauses == [Pause(id, 0)]
  {
    hide Run;
    var s := State(true, id, 0, [StoreStart], Waiting, map[id := 0], {address}, 2, []);
    RunFour(s, Event(Raised(id, true)), Debug, Debug, Debug);
  }
}
