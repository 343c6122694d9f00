/** The process lifecycle loop. */
module ProcessLoop {
  import opened Options
  import opened Collections

  // A transition system: the loop, the start goroutine with its progress reports, the reaping of children and the
  // requests of clients, interleaved step by step.

  datatype ProcessState = Stopped | Starting | Ready | Stopping | Shutdown

  /** One published status object; id is its address. */
  datatype Status = Status(id: nat, state: ProcessState, readySince: Option<nat>, loading: Option<string>)

  type Request = nat
  type Child = nat

  /** Where the loop is: at its select, inside a start, or blocked on a start's result or a child's exit. */
  datatype Pc =
    | Head
    | InStart(req: Request, block: bool)
    | StopAwaitsStart(req: Request, stop: Request)
    | StopKillsStart(req: Request, stop: Request, child: Child)
    | ShutdownAwaitsStart(req: Request)
    | ShutdownKillsStart(req: Request, child: Child)
    | StopKills(stop: Request)
    | ShutdownKills
    | Exited

  /** Where doStart is. */
  datatype Starter =
    | NoStart
    | Launching
    | Launched(child: Child)
    | Waiting(child: Child)                                  // at the selects between health checks
    | Probing(child: Child)                                  // a health check is in flight
    | Answered(child: Child)                                 // it failed, and the start goes on
    | Reporting(child: Child, seen: Status, report: string)  // between Load and CompareAndSwap
    | Aborting(child: Child)
    | Finished(result: Option<Child>)                        // waiting in resultCh

  /** What a caller is told: no error, that its start was aborted, or another error. */
  datatype Answer = Fine | Aborted | Failed

  datatype Change = Change(before: ProcessState, after: ProcessState)

  datatype State = State(
    pc: Pc,
    state: ProcessState,
    status: Status,
    nextId: nat,
    cmd: Option<Child>,
    handler: Option<Child>,
    waiters: seq<Request>,
    runResp: Option<Request>,
    starter: Starter,
    cancelled: bool,           // the start's context
    parentDone: bool,
    started: set<Child>,       // every child ever started
    reaped: set<Child>,        // children whose cmdDone is closed
    accepted: set<Request>,    // every request the loop has received
    starts: set<Request>,      // those of Run and EnsureReady callers
    replies: multiset<Request>,
    answers: map<Request, Answer>,
    abandoned: Option<Request>,
    changes: seq<Change>)      // emitted state-change events

  const INITIAL := State(Head, Stopped, Status(0, Stopped, None, None), 1, None, None, [], None, NoStart, false, false,
                         {}, {}, {}, {}, multiset{}, map[], None, [])

  // ----- the loop's helpers

  /** setState: stores a new status object and emits a change. */
  function SetState(s: State, to: ProcessState, now: nat): State {
    var since := if to != Ready then None else if s.state == Ready then s.status.readySince else Some(now);
    s.(state := to,
       status := Status(s.nextId, to, since, None),
       nextId := s.nextId + 1,
       changes := if s.state == to then s.changes else s.changes + [Change(s.state, to)])
  }

  function Reply(s: State, r: Request, a: Answer): State {
    s.(replies := s.replies + multiset{r}, answers := s.answers[r := a])
  }

  /** notifyWaiters: every parked WaitReady caller is answered. */
  function NotifyWaiters(s: State, a: Answer): State {
    s.(replies := s.replies + multiset(s.waiters), answers := s.answers + (map r | r in s.waiters :: a), waiters := [])
  }

  /** respondRun: the parked Run caller, if any, is answered. */
  function RespondRun(s: State, a: Answer): State {
    match s.runResp
    case None => s
    case Some(r) => Reply(s, r, a).(runResp := None)
  }

  function Accept(s: State, r: Request): State {
    s.(accepted := s.accepted + {r})
  }

  // ----- the steps

  datatype Action =
    // the environment
    | CancelParent
    | Reap(child: Child)
    // the loop's select
    | ParentDone
    | UpstreamExit
    | WaitReady(req: Request)
    | Start(req: Request, block: bool)
    | Stop(stop: Request)
    // the loop inside a start
    | StartResult(now: nat)
    | StopDuringStart(stop: Request)
    | ParentDoneDuringStart
    // the loop behind a blocking wait
    | AbortedStart
    | ChildGone
    // the start goroutine
    | LaunchFails
    | Launch(child: Child)
    | Inspect(unchecked: bool)
    | Probe
    | Healthy
    | Unhealthy
    | NoReport
    | LoadStatus(report: string)
    | CompareAndSwap
    | ExitedEarly
    | GiveUp
    | AbortDone

  /** killProcess has returned: the child is reaped. */
  predicate Gone(s: State, c: Child) {
    c in s.reaped
  }

  predicate Enabled(s: State, a: Action) {
    match a
    case CancelParent => !s.parentDone
    case Reap(c) => c in s.started && c !in s.reaped
    case ParentDone => s.pc == Head && s.parentDone
    case UpstreamExit => s.pc == Head && s.cmd.Some? && Gone(s, s.cmd.value)
    case WaitReady(r) => s.pc == Head && r !in s.accepted
    case Start(r, _) => s.pc == Head && r !in s.accepted
    case Stop(r) => s.pc == Head && r !in s.accepted
    case StartResult(_) => s.pc.InStart? && s.starter.Finished?
    case StopDuringStart(r) => s.pc.InStart? && r !in s.accepted
    case ParentDoneDuringStart => s.pc.InStart? && s.parentDone
    case AbortedStart => (s.pc.StopAwaitsStart? || s.pc.ShutdownAwaitsStart?) && s.starter.Finished?
    case ChildGone =>
      (match s.pc
       case StopKillsStart(_, _, c) => Gone(s, c)
       case ShutdownKillsStart(_, c) => Gone(s, c)
       case StopKills(_) => s.cmd.Some? && Gone(s, s.cmd.value)
       case ShutdownKills => s.cmd.Some? && Gone(s, s.cmd.value)
       case _ => false)
    case LaunchFails => s.starter == Launching
    case Launch(c) => s.starter == Launching && c !in s.started
    case Inspect(_) => s.starter.Launched?
    case Probe => s.starter.Waiting? && !s.cancelled
    case Healthy => s.starter.Probing?
    case Unhealthy => s.starter.Probing?
    case NoReport => s.starter.Answered?
    case LoadStatus(_) => s.starter.Answered?
    case CompareAndSwap => s.starter.Reporting?
    case ExitedEarly => s.starter.Waiting? && Gone(s, s.starter.child)
    case GiveUp => s.starter.Waiting?
    case AbortDone => s.starter.Aborting? && Gone(s, s.starter.child)
  }

  function Next(s: State, a: Action): State
    requires Enabled(s, a)
  {
    match a
    case CancelParent => s.(parentDone := true)
    case Reap(c) => s.(reaped := s.reaped + {c})
    case ParentDone => OnParentDone(s)
    case UpstreamExit => OnUpstreamExit(s)
    case WaitReady(r) => OnWaitReady(s, r)
    case Start(r, block) => OnStart(s, r, block)
    case Stop(r) => OnStop(s, r)
    case StartResult(now) => OnStartResult(s, now)
    case StopDuringStart(r) => OnStopDuringStart(s, r)
    case ParentDoneDuringStart => OnParentDoneDuringStart(s)
    case AbortedStart => OnAbortedStart(s)
    case ChildGone => OnChildGone(s)
    case LaunchFails => s.(starter := Finished(None))
    case Launch(c) => s.(starter := Launched(c), started := s.started + {c})
    case Inspect(unchecked) => OnInspect(s, unchecked)
    case Probe => s.(starter := Probing(s.starter.child))
    case Healthy => s.(starter := Finished(Some(s.starter.child)))
    case Unhealthy => s.(starter := if s.cancelled then Aborting(s.starter.child) else Answered(s.starter.child))
    case NoReport => s.(starter := Waiting(s.starter.child))
    case LoadStatus(report) => Load(s, s.starter.child, report)
    case CompareAndSwap => OnCompareAndSwap(s)
    case ExitedEarly => s.(starter := Finished(None))
    case GiveUp => s.(starter := Aborting(s.starter.child))
    case AbortDone => s.(starter := Finished(None))
  }

  function OnParentDone(s: State): State {
    var t := SetState(s, Shutdown, 0);
    if s.cmd.Some? then t.(handler := None, pc := ShutdownKills) else Leave(t)
  }

  function OnUpstreamExit(s: State): State {
    RespondRun(NotifyWaiters(SetState(s.(cmd := None, handler := None), Stopped, 0), Failed), Failed)
  }

  function OnWaitReady(s: State, r: Request): State {
    var t := Accept(s, r);
    if s.state == Ready then Reply(t, r, Fine)
    else if s.state == Shutdown then Reply(t, r, Failed)
    else t.(waiters := s.waiters + [r])
  }

  function OnStart(s: State, r: Request, block: bool): State {
    var t := Accept(s, r).(starts := s.starts + {r});
    if !block && s.state == Ready then Reply(t, r, Fine)
    else if !block && s.state == Shutdown then Reply(t, r, Failed)
    else if s.state != Stopped then Reply(t, r, Failed)
    else SetState(t, Starting, 0).(pc := InStart(r, block), starter := Launching, cancelled := false)
  }

  function OnStop(s: State, r: Request): State {
    var t := Accept(s, r);
    if s.cmd.Some? then SetState(t, Stopping, 0).(pc := StopKills(r))
    else Reply(RespondRun(SetState(t, Stopped, 0), Fine), r, Fine)
  }

  function OnStopDuringStart(s: State, r: Request): State
    requires s.pc.InStart?
  {
    Accept(s, r).(cancelled := true, pc := StopAwaitsStart(s.pc.req, r))
  }

  function OnParentDoneDuringStart(s: State): State
    requires s.pc.InStart?
  {
    SetState(s, Shutdown, 0).(cancelled := true, pc := ShutdownAwaitsStart(s.pc.req))
  }

  /** What follows the launch: a cancelled start aborts, one without a check endpoint is done, any other is checked. */
  function OnInspect(s: State, unchecked: bool): State
    requires s.starter.Launched?
  {
    var c := s.starter.child;
    s.(starter := if s.cancelled then Aborting(c) else if unchecked then Finished(Some(c)) else Waiting(c))
  }

  /** setLoading's CompareAndSwap; a lost race loads again. */
  function OnCompareAndSwap(s: State): State
    requires s.starter.Reporting?
  {
    var seen := s.starter.seen;
    if s.status.id == seen.id then
      s.(status := Status(s.nextId, seen.state, seen.readySince, Some(s.starter.report)),
         nextId := s.nextId + 1, starter := Waiting(s.starter.child))
    else
      Load(s, s.starter.child, s.starter.report)
  }

  /** setLoading's Load: give up unless the process is still starting. */
  function Load(s: State, c: Child, report: string): State {
    s.(starter := if s.status.state == Starting then Reporting(c, s.status, report) else Waiting(c))
  }

  /** The end of the loop: subscribers and the Run caller learn of the shutdown. */
  function Leave(s: State): State {
    RespondRun(NotifyWaiters(s.(pc := Exited), Failed), Failed)
  }

  function OnStartResult(s: State, now: nat): State
    requires s.pc.InStart? && s.starter.Finished?
  {
    var t := s.(pc := Head, starter := NoStart, cancelled := true);
    match s.starter.result
    case Some(c) =>
      var u := NotifyWaiters(SetState(t.(cmd := Some(c), handler := Some(c)), Ready, now), Fine);
      if s.pc.block then u.(runResp := Some(s.pc.req)) else Reply(u, s.pc.req, Fine)
    case None =>
      Reply(NotifyWaiters(SetState(t, Stopped, 0), Failed), s.pc.req, Failed)
  }

  /** The result of a start that a stop or a shutdown has cancelled. */
  function OnAbortedStart(s: State): State
    requires s.pc.StopAwaitsStart? || s.pc.ShutdownAwaitsStart?
    requires s.starter.Finished?
  {
    var t := s.(starter := NoStart);
    match s.starter.result
    case Some(c) =>
      if s.pc.StopAwaitsStart? then t.(pc := StopKillsStart(s.pc.req, s.pc.stop, c))
      else t.(pc := ShutdownKillsStart(s.pc.req, c))
    case None =>
      if s.pc.StopAwaitsStart? then StartStopped(t, s.pc.req, s.pc.stop)
      else Leave(t.(abandoned := Some(s.pc.req)))
  }

  /** The cancelled start is torn down: answer its caller and then the stop. */
  function StartStopped(s: State, req: Request, stop: Request): State {
    Reply(Reply(NotifyWaiters(SetState(s.(pc := Head), Stopped, 0), Aborted), req, Aborted), stop, Fine)
  }

  /** The running process is torn down: answer subscribers, the Run caller and the stop. */
  function RunStopped(s: State, stop: Request): State {
    var t := SetState(s.(pc := Head, cmd := None, handler := None), Stopped, 0);
    Reply(RespondRun(NotifyWaiters(t, Failed), Fine), stop, Fine)
  }

  function OnChildGone(s: State): State {
    match s.pc
    case StopKillsStart(req, stop, _) => StartStopped(s, req, stop)
    case ShutdownKillsStart(req, _) => Leave(s.(abandoned := Some(req)))
    case StopKills(stop) => RunStopped(s, stop)
    case ShutdownKills => Leave(s.(cmd := None))
    case _ => s
  }

  // ----- what every reachable state keeps

  /** How often a request has been answered or is held: parked, in hand, or abandoned at exit. */
  function Places(s: State, r: Request): nat {
    s.replies[r] + multiset(s.waiters)[r] + Count(s.runResp, r) + InHand(s.pc, r) + Count(s.abandoned, r)
  }

  function Count(o: Option<Request>, r: Request): nat {
    if o == Some(r) then 1 else 0
  }

  function InHand(pc: Pc, r: Request): nat {
    match pc
    case InStart(q, _) => Is(q, r)
    case StopAwaitsStart(q, stop) => Is(q, r) + Is(stop, r)
    case StopKillsStart(q, stop, _) => Is(q, r) + Is(stop, r)
    case ShutdownAwaitsStart(q) => Is(q, r)
    case ShutdownKillsStart(q, _) => Is(q, r)
    case StopKills(stop) => Is(stop, r)
    case _ => 0
  }

  function Is(q: Request, r: Request): nat {
    if q == r then 1 else 0
  }

  /** Every request received is answered or held, exactly once; no other request is known. */
  ghost predicate Accounted(s: State) {
    forall r: Request :: Places(s, r) == Due(s, r)
  }

  function Due(s: State, r: Request): nat {
    if r in s.accepted then 1 else 0
  }

  /** The one child someone is still responsible for. */
  function Owned(s: State): set<Child> {
    OwnedByLoop(s) + OwnedByStart(s.starter)
  }

  function OwnedByLoop(s: State): set<Child> {
    match s.pc
    case StopKillsStart(_, _, c) => {c}
    case ShutdownKillsStart(_, c) => {c}
    case _ => if s.cmd.Some? then {s.cmd.value} else {}
  }

  function OwnedByStart(t: Starter): set<Child> {
    match t
    case Launched(c) => {c}
    case Waiting(c) => {c}
    case Probing(c) => {c}
    case Answered(c) => {c}
    case Reporting(c, _, _) => {c}
    case Aborting(c) => {c}
    case Finished(Some(c)) => {c}
    case _ => {}
  }

  predicate Children(s: State) {
    && s.reaped <= s.started
    && s.started - s.reaped <= Owned(s) <= s.started
  }

  /** What the loop's variables look like wherever it is. */
  predicate Shape(s: State) {
    && (s.cmd.Some? ==> s.starter == NoStart)
    && (s.abandoned.Some? ==> s.pc == Exited && s.abandoned.value in s.starts)
    && (OfStart(s.pc).Some? ==> OfStart(s.pc).value in s.starts)
    && match s.pc
       case Head =>
         && (s.state == Stopped || s.state == Ready) && s.starter == NoStart
         && (s.state == Ready <==> s.cmd.Some?) && s.handler == s.cmd
         && (s.waiters != [] ==> s.state == Stopped) && (s.runResp.Some? ==> s.state == Ready)
       case InStart(_, _) => s.state == Starting && DuringStart(s)
       case StopAwaitsStart(_, _) => s.state == Starting && DuringStart(s) && s.cancelled
       case ShutdownAwaitsStart(_) => s.state == Shutdown && DuringStart(s) && s.cancelled
       case StopKillsStart(_, _, _) => s.state == Starting && NothingRuns(s)
       case ShutdownKillsStart(_, _) => s.state == Shutdown && NothingRuns(s)
       case StopKills(_) => s.state == Stopping && s.cmd.Some? && s.handler == s.cmd && s.waiters == []
       case ShutdownKills => s.state == Shutdown && s.cmd.Some? && s.handler == None && s.waiters == []
       case Exited =>
         && s.state == Shutdown && s.starter == NoStart && s.cmd == None && s.handler == None
         && s.waiters == [] && s.runResp == None
  }

  /** The start request the loop is working on. */
  function OfStart(pc: Pc): Option<Request> {
    match pc
    case InStart(r, _) => Some(r)
    case StopAwaitsStart(r, _) => Some(r)
    case StopKillsStart(r, _, _) => Some(r)
    case ShutdownAwaitsStart(r) => Some(r)
    case ShutdownKillsStart(r, _) => Some(r)
    case _ => None
  }

  predicate DuringStart(s: State) {
    s.starter != NoStart && s.cmd == None && s.handler == None && s.runResp == None
  }

  predicate NothingRuns(s: State) {
    s.starter == NoStart && s.cmd == None && s.handler == None && s.runResp == None
  }

  /** The published status is the loop's state; progress shows only while starting, a start time only while ready. */
  predicate Published(s: State) {
    && s.status.state == s.state && s.status.id < s.nextId
    && (s.status.loading.Some? ==> s.state == Starting)
    && (s.status.readySince.Some? <==> s.state == Ready)
    && (s.starter.Reporting? ==>
          s.starter.seen.state == Starting && s.starter.seen.readySince == None
          && s.starter.seen.id < s.nextId
          && (s.starter.seen.id == s.status.id ==> s.starter.seen == s.status))
  }

  /** The emitted changes lead from Stopped to the current state, one into the next. */
  predicate Traced(s: State) {
    LeadsTo(s.changes, s.state)
  }

  predicate LeadsTo(changes: seq<Change>, state: ProcessState) {
    && state == (if changes == [] then Stopped else changes[|changes| - 1].after)
    && (changes != [] ==> changes[0].before == Stopped)
    && (forall i | 0 <= i < |changes| :: changes[i].before != changes[i].after)
    && (forall i | 0 <= i < |changes| - 1 :: changes[i].after == changes[i + 1].before)
  }

  ghost predicate Inv(s: State) {
    Shape(s) && Accounted(s) && Children(s) && Published(s) && Traced(s)
  }

  lemma InitKeeps()
    ensures Inv(INITIAL)
  {
  }

  // ----- what the helpers do to the places of a request

  lemma NotifyPlaces(s: State, a: Answer, r: Request)
    ensures Places(NotifyWaiters(s, a), r) == Places(s, r)
  {
  }

  lemma RespondPlaces(s: State, a: Answer, r: Request)
    ensures Places(RespondRun(s, a), r) == Places(s, r)
  {
  }

  lemma ReplyPlaces(s: State, q: Request, a: Answer, r: Request)
    ensures Places(Reply(s, q, a), r) == Places(s, r) + Is(q, r)
  {
  }

  lemma SetStateTraces(s: State, to: ProcessState, now: nat)
    requires Traced(s)
    ensures Traced(SetState(s, to, now))
  {
  }

  lemma LeavePlaces(s: State, r: Request)
    ensures Places(Leave(s), r) == Places(s, r) - InHand(s.pc, r)
    ensures Due(Leave(s), r) == Due(s, r)
  {
    var t := s.(pc := Exited);
    NotifyPlaces(t, Failed, r);
    RespondPlaces(NotifyWaiters(t, Failed), Failed, r);
  }

  lemma StartStoppedPlaces(s: State, req: Request, stop: Request, r: Request)
    ensures Places(StartStopped(s, req, stop), r) == Places(s, r) - InHand(s.pc, r) + Is(req, r) + Is(stop, r)
    ensures Due(StartStopped(s, req, stop), r) == Due(s, r)
  {
    var t := NotifyWaiters(SetState(s.(pc := Head), Stopped, 0), Aborted);
    NotifyPlaces(SetState(s.(pc := Head), Stopped, 0), Aborted, r);
    ReplyPlaces(t, req, Aborted, r);
    ReplyPlaces(Reply(t, req, Aborted), stop, Fine, r);
  }

  lemma RunStoppedPlaces(s: State, stop: Request, r: Request)
    ensures Places(RunStopped(s, stop), r) == Places(s, r) - InHand(s.pc, r) + Is(stop, r)
    ensures Due(RunStopped(s, stop), r) == Due(s, r)
  {
    var t := SetState(s.(pc := Head, cmd := None, handler := None), Stopped, 0);
    NotifyPlaces(t, Failed, r);
    RespondPlaces(NotifyWaiters(t, Failed), Fine, r);
    ReplyPlaces(RespondRun(NotifyWaiters(t, Failed), Fine), stop, Fine, r);
  }

  lemma ParentDoneCounts(s: State)
    requires Accounted(s) && s.pc == Head
    ensures Accounted(OnParentDone(s))
  {
    var t := SetState(s, Shutdown, 0);
    forall r: Request ensures Places(OnParentDone(s), r) == Due(OnParentDone(s), r) {
      assert Places(s, r) == Due(s, r) == Due(t, r) && Places(t, r) == Places(s, r);
      if s.cmd == None {
        assert OnParentDone(s) == Leave(t);
        LeavePlaces(t, r);
      }
    }
  }

  lemma UpstreamExitCounts(s: State)
    requires Accounted(s)
    ensures Accounted(OnUpstreamExit(s))
  {
    var t := SetState(s.(cmd := None, handler := None), Stopped, 0);
    forall r: Request ensures Places(OnUpstreamExit(s), r) == Due(OnUpstreamExit(s), r) {
      assert Places(s, r) == Due(s, r);
      NotifyPlaces(t, Failed, r);
      RespondPlaces(NotifyWaiters(t, Failed), Failed, r);
    }
  }

  lemma WaitReadyCounts(s: State, q: Request)
    requires Accounted(s) && q !in s.accepted
    ensures Accounted(OnWaitReady(s, q))
  {
    var t := Accept(s, q);
    forall r: Request ensures Places(OnWaitReady(s, q), r) == Due(OnWaitReady(s, q), r) {
      assert Places(s, r) == Due(s, r);
      assert Places(t, r) == Places(s, r) && Due(t, r) == Due(s, r) + Is(q, r);
      ReplyPlaces(t, q, if s.state == Ready then Fine else Failed, r);
      ParkPlaces(t, q, r);
    }
  }

  lemma ParkPlaces(s: State, q: Request, r: Request)
    ensures Places(s.(waiters := s.waiters + [q]), r) == Places(s, r) + Is(q, r)
    ensures Due(s.(waiters := s.waiters + [q]), r) == Due(s, r)
  {
  }

  lemma StartCounts(s: State, q: Request, block: bool)
    requires Accounted(s) && s.pc == Head && q !in s.accepted
    ensures Accounted(OnStart(s, q, block))
  {
    var t := Accept(s, q).(starts := s.starts + {q});
    forall r: Request ensures Places(OnStart(s, q, block), r) == Due(OnStart(s, q, block), r) {
      assert Places(s, r) == Due(s, r);
      assert Places(t, r) == Places(s, r) && Due(t, r) == Due(s, r) + Is(q, r);
      ReplyPlaces(t, q, if !block && s.state == Ready then Fine else Failed, r);
      BeginPlaces(t, q, block, r);
    }
  }

  /** A request the loop works on is in hand. */
  lemma BeginPlaces(t: State, q: Request, block: bool, r: Request)
    requires t.pc == Head
    ensures var u := SetState(t, Starting, 0).(pc := InStart(q, block), starter := Launching, cancelled := false);
            Places(u, r) == Places(t, r) + Is(q, r) && Due(u, r) == Due(t, r)
  {
  }

  lemma StopCounts(s: State, q: Request)
    requires Accounted(s) && s.pc == Head && q !in s.accepted
    ensures Accounted(OnStop(s, q))
  {
    var t := SetState(Accept(s, q), Stopped, 0);
    forall r: Request ensures Places(OnStop(s, q), r) == Due(OnStop(s, q), r) {
      assert Places(s, r) == Due(s, r) && Places(t, r) == Places(s, r) && Due(t, r) == Due(s, r) + Is(q, r);
      if s.cmd == None {
        assert OnStop(s, q) == Reply(RespondRun(t, Fine), q, Fine);
        RespondPlaces(t, Fine, r);
        ReplyPlaces(RespondRun(t, Fine), q, Fine, r);
      }
    }
  }

  lemma StartResultCounts(s: State, now: nat)
    requires Accounted(s) && s.pc.InStart? && s.starter.Finished? && s.runResp == None
    ensures Accounted(OnStartResult(s, now))
  {
    var t := s.(pc := Head, starter := NoStart, cancelled := true);
    var u := match s.starter.result
             case Some(c) => SetState(t.(cmd := Some(c), handler := Some(c)), Ready, now)
             case None => SetState(t, Stopped, 0);
    var told := if s.starter.result.Some? then Fine else Failed;
    forall r: Request ensures Places(OnStartResult(s, now), r) == Due(OnStartResult(s, now), r) {
      assert Places(s, r) == Due(s, r);
      assert Places(u, r) == Places(s, r) - Is(s.pc.req, r);
      NotifyPlaces(u, told, r);
      ReplyPlaces(NotifyWaiters(u, told), s.pc.req, told, r);
    }
  }

  lemma StopDuringStartCounts(s: State, q: Request)
    requires Accounted(s) && s.pc.InStart? && q !in s.accepted
    ensures Accounted(OnStopDuringStart(s, q))
  {
    forall r: Request ensures Places(OnStopDuringStart(s, q), r) == Due(OnStopDuringStart(s, q), r) {
      assert Places(s, r) == Due(s, r);
    }
  }

  lemma AbortedStartCounts(s: State)
    requires Accounted(s) && s.abandoned == None && s.starter.Finished?
    requires s.pc.StopAwaitsStart? || s.pc.ShutdownAwaitsStart?
    ensures Accounted(OnAbortedStart(s))
  {
    forall r: Request ensures Places(OnAbortedStart(s), r) == Due(OnAbortedStart(s), r) {
      assert Places(s, r) == Due(s, r);
      if s.starter.result.Some? { AbortedChildPlaces(s, r); } else { AbortedPlaces(s, r); }
    }
  }

  lemma AbortedChildPlaces(s: State, r: Request)
    requires s.starter.Finished? && s.starter.result.Some?
    requires s.pc.StopAwaitsStart? || s.pc.ShutdownAwaitsStart?
    ensures Places(OnAbortedStart(s), r) == Places(s, r) && Due(OnAbortedStart(s), r) == Due(s, r)
  {
  }

  lemma AbortedPlaces(s: State, r: Request)
    requires s.starter == Finished(None) && s.abandoned == None
    requires s.pc.StopAwaitsStart? || s.pc.ShutdownAwaitsStart?
    ensures Places(OnAbortedStart(s), r) == Places(s, r) && Due(OnAbortedStart(s), r) == Due(s, r)
  {
    var t := s.(starter := NoStart);
    assert Places(t, r) == Places(s, r) && Due(t, r) == Due(s, r);
    if s.pc.StopAwaitsStart? {
      assert OnAbortedStart(s) == StartStopped(t, s.pc.req, s.pc.stop);
      StoppedStartPlaces(t, r);
    } else {
      assert OnAbortedStart(s) == Leave(t.(abandoned := Some(s.pc.req)));
      AbandonPlaces(t, s.pc.req, r);
    }
  }

  lemma StoppedStartPlaces(t: State, r: Request)
    requires t.pc.StopAwaitsStart?
    ensures Places(StartStopped(t, t.pc.req, t.pc.stop), r) == Places(t, r)
    ensures Due(StartStopped(t, t.pc.req, t.pc.stop), r) == Due(t, r)
  {
    StartStoppedPlaces(t, t.pc.req, t.pc.stop, r);
  }

  /** A start in flight at shutdown is left unanswered. */
  lemma AbandonPlaces(s: State, req: Request, r: Request)
    requires s.abandoned == None && InHand(s.pc, r) == Is(req, r)
    ensures Places(Leave(s.(abandoned := Some(req))), r) == Places(s, r)
    ensures Due(Leave(s.(abandoned := Some(req))), r) == Due(s, r)
  {
    LeavePlaces(s.(abandoned := Some(req)), r);
  }

  lemma ChildGoneCounts(s: State)
    requires Accounted(s) && s.abandoned == None
    requires s.pc.StopKillsStart? || s.pc.ShutdownKillsStart? || s.pc.StopKills? || s.pc.ShutdownKills?
    ensures Accounted(OnChildGone(s))
  {
    forall r: Request ensures Places(OnChildGone(s), r) == Due(OnChildGone(s), r) {
      ChildGonePlaces(s, r);
    }
  }

  lemma ChildGonePlaces(s: State, r: Request)
    requires Places(s, r) == Due(s, r) && s.abandoned == None
    requires s.pc.StopKillsStart? || s.pc.ShutdownKillsStart? || s.pc.StopKills? || s.pc.ShutdownKills?
    ensures Places(OnChildGone(s), r) == Due(OnChildGone(s), r)
  {
    match s.pc
    case StopKillsStart(req, stop, _) => StartStoppedPlaces(s, req, stop, r);
    case ShutdownKillsStart(req, _) => AbandonPlaces(s, req, r);
    case StopKills(stop) => RunStoppedPlaces(s, stop, r);
    case ShutdownKills => OrphanLeavePlaces(s, r);
  }

  lemma OrphanLeavePlaces(s: State, r: Request)
    requires s.pc == ShutdownKills
    ensures Places(OnChildGone(s), r) == Places(s, r) && Due(OnChildGone(s), r) == Due(s, r)
  {
    var t := s.(cmd := None);
    assert Places(t, r) == Places(s, r);
    LeavePlaces(t, r);
  }

  // ----- every step keeps the invariant

  lemma UpstreamExitKeeps(s: State)
    requires Inv(s) && s.pc == Head && s.cmd.Some? && Gone(s, s.cmd.value)
    ensures Inv(OnUpstreamExit(s))
  {
    UpstreamExitCounts(s);
    SetStateTraces(s.(cmd := None, handler := None), Stopped, 0);
  }

  lemma WaitReadyKeeps(s: State, r: Request)
    requires Inv(s) && s.pc == Head && r !in s.accepted
    ensures Inv(OnWaitReady(s, r))
  {
    WaitReadyCounts(s, r);
  }

  lemma StartKeeps(s: State, r: Request, block: bool)
    requires Inv(s) && s.pc == Head && r !in s.accepted
    ensures Inv(OnStart(s, r, block))
  {
    StartCounts(s, r, block);
    StartSettles(s, r, block);
  }

  lemma StartSettles(s: State, r: Request, block: bool)
    requires Settled(s) && s.pc == Head
    ensures Settled(OnStart(s, r, block))
  {
    var t := Accept(s, r).(starts := s.starts + {r});
    assert Settled(t);
    if s.state == Stopped {
      BeginSettles(t, r, block);
    } else {
      assert OnStart(s, r, block) == Reply(t, r, if !block && s.state == Ready then Fine else Failed);
    }
  }

  lemma BeginSettles(t: State, r: Request, block: bool)
    requires Settled(t) && t.pc == Head && t.state == Stopped && r in t.starts
    ensures Settled(SetState(t, Starting, 0).(pc := InStart(r, block), starter := Launching, cancelled := false))
  {
    SetStateTraces(t, Starting, 0);
  }

  lemma StopKeeps(s: State, r: Request)
    requires Inv(s) && s.pc == Head && r !in s.accepted
    ensures Inv(OnStop(s, r))
  {
    StopCounts(s, r);
    SetStateTraces(Accept(s, r), Stopped, 0);
    SetStateTraces(Accept(s, r), Stopping, 0);
  }

  lemma StopDuringStartKeeps(s: State, r: Request)
    requires Inv(s) && s.pc.InStart? && r !in s.accepted
    ensures Inv(OnStopDuringStart(s, r))
  {
    StopDuringStartCounts(s, r);
  }

  lemma ParentDoneDuringStartKeeps(s: State)
    requires Inv(s) && s.pc.InStart?
    ensures Inv(OnParentDoneDuringStart(s))
  {
    SetStateTraces(s, Shutdown, 0);
    forall r: Request ensures Places(OnParentDoneDuringStart(s), r) == Due(s, r) {
      assert Places(s, r) == Due(s, r);
    }
  }

  /** Everything but the accounting. */
  ghost predicate Settled(s: State) {
    Shape(s) && Children(s) && Published(s) && Traced(s)
  }

  /** Once every child someone is responsible for is reaped, no child is alive. */
  lemma NoneAlive(s: State)
    requires Children(s) && Owned(s) <= s.reaped
    ensures s.started == s.reaped
  {
    forall x | x in s.started ensures x in s.reaped {
      assert x in s.started - s.reaped ==> x in Owned(s);
    }
  }

  lemma StartStoppedSettles(s: State, req: Request, stop: Request)
    requires NothingRuns(s) && s.abandoned == None && s.started == s.reaped && Published(s) && Traced(s)
    ensures Settled(StartStopped(s, req, stop))
  {
    SetStateTraces(s.(pc := Head), Stopped, 0);
  }

  lemma LeaveSettles(s: State)
    requires s.starter == NoStart && s.cmd == None && s.handler == None && s.started == s.reaped
    requires s.abandoned.Some? ==> s.abandoned.value in s.starts
    requires s.state == Shutdown && Published(s) && Traced(s)
    ensures Settled(Leave(s))
  {
  }

  lemma RunStoppedSettles(s: State, stop: Request)
    requires s.starter == NoStart && s.abandoned == None && s.started == s.reaped && Published(s) && Traced(s)
    ensures Settled(RunStopped(s, stop))
  {
    var t := SetState(s.(pc := Head, cmd := None, handler := None), Stopped, 0);
    SetStateTraces(s.(pc := Head, cmd := None, handler := None), Stopped, 0);
    var r := RunStopped(s, stop);
    assert r == t.(waiters := [], runResp := None, replies := r.replies, answers := r.answers);
  }

  lemma ParentDoneKeeps(s: State)
    requires Inv(s) && s.pc == Head
    ensures Inv(OnParentDone(s))
  {
    ParentDoneCounts(s);
    ParentDoneSettles(s);
  }

  lemma ParentDoneSettles(s: State)
    requires Settled(s) && s.pc == Head
    ensures Settled(OnParentDone(s))
  {
    SetStateTraces(s, Shutdown, 0);
    if s.cmd == None {
      NoneAlive(s);
      LeaveSettles(SetState(s, Shutdown, 0));
    }
  }

  lemma StartResultKeeps(s: State, now: nat)
    requires Inv(s) && s.pc.InStart? && s.starter.Finished?
    ensures Inv(OnStartResult(s, now))
  {
    StartResultCounts(s, now);
    match s.starter.result
    case Some(c) => StartedSettles(s, c, now);
    case None => NotStartedSettles(s, now);
  }

  lemma StartedSettles(s: State, c: Child, now: nat)
    requires Settled(s) && s.pc.InStart? && s.starter == Finished(Some(c))
    ensures Settled(OnStartResult(s, now))
  {
    SetStateTraces(s, Ready, now);
  }

  lemma NotStartedSettles(s: State, now: nat)
    requires Settled(s) && s.pc.InStart? && s.starter == Finished(None)
    ensures Settled(OnStartResult(s, now))
  {
    NoneAlive(s);
    SetStateTraces(s, Stopped, 0);
  }

  lemma AbortedStartKeeps(s: State)
    requires Inv(s) && (s.pc.StopAwaitsStart? || s.pc.ShutdownAwaitsStart?) && s.starter.Finished?
    ensures Inv(OnAbortedStart(s))
  {
    AbortedStartCounts(s);
    var t := s.(starter := NoStart);
    if s.starter.result == None {
      NoneAlive(s);
      if s.pc.StopAwaitsStart? {
        StartStoppedSettles(t, s.pc.req, s.pc.stop);
      } else {
        LeaveSettles(t.(abandoned := Some(s.pc.req)));
      }
    }
  }

  lemma ChildGoneKeeps(s: State)
    requires Inv(s) && Enabled(s, ChildGone)
    ensures Inv(OnChildGone(s))
  {
    ChildGoneCounts(s);
    ChildGoneSettles(s);
  }

  lemma ChildGoneSettles(s: State)
    requires Settled(s) && Enabled(s, ChildGone)
    ensures Settled(OnChildGone(s))
  {
    NoneAlive(s);
    match s.pc
    case StopKillsStart(req, stop, _) => StartStoppedSettles(s, req, stop);
    case ShutdownKillsStart(req, _) => LeaveSettles(s.(abandoned := Some(req)));
    case StopKills(stop) => RunStoppedSettles(s, stop);
    case ShutdownKills => LeaveSettles(s.(cmd := None));
  }

  /** Steps that change neither a request nor the published state. */
  lemma QuietCounts(s: State, t: State)
    requires Accounted(s)
    requires t.replies == s.replies && t.waiters == s.waiters && t.runResp == s.runResp && t.pc == s.pc
    requires t.abandoned == s.abandoned && t.accepted == s.accepted
    ensures Accounted(t)
  {
    forall r: Request ensures Places(t, r) == Due(t, r) {
      assert Places(s, r) == Due(s, r);
    }
  }

  lemma StarterKeeps(s: State, a: Action)
    requires Inv(s) && Enabled(s, a)
    requires a.LaunchFails? || a.Inspect? || a.Probe? || a.Healthy? || a.Unhealthy? || a.NoReport?
             || a.ExitedEarly? || a.GiveUp? || a.AbortDone?
    ensures Inv(Next(s, a))
  {
    QuietCounts(s, Next(s, a));
    StarterSettles(s, a);
  }

  lemma StarterSettles(s: State, a: Action)
    requires Settled(s) && Enabled(s, a)
    requires a.LaunchFails? || a.Inspect? || a.Probe? || a.Healthy? || a.Unhealthy? || a.NoReport?
             || a.ExitedEarly? || a.GiveUp? || a.AbortDone?
    ensures Settled(Next(s, a))
  {
    var t := Next(s, a);
    StarterOnly(s, a);
    assert Shape(t) && Owned(t) <= Owned(s);
  }

  lemma StarterOnly(s: State, a: Action)
    requires Enabled(s, a)
    requires a.LaunchFails? || a.Inspect? || a.Probe? || a.Healthy? || a.Unhealthy? || a.NoReport?
             || a.ExitedEarly? || a.GiveUp? || a.AbortDone?
    ensures var t := Next(s, a);
            && t == s.(starter := t.starter) && t.starter != NoStart && !t.starter.Reporting?
            && OwnedByStart(t.starter) <= OwnedByStart(s.starter) && s.starter != NoStart
  {
  }

  lemma LaunchKeeps(s: State, c: Child)
    requires Inv(s) && Enabled(s, Launch(c))
    ensures Inv(Next(s, Launch(c)))
  {
    QuietCounts(s, Next(s, Launch(c)));
  }

  lemma LoadKeeps(s: State, c: Child, report: string)
    requires Inv(s) && (s.starter.Answered? || s.starter.Reporting?) && s.starter.child == c
    ensures Inv(Load(s, c, report))
  {
    QuietCounts(s, Load(s, c, report));
  }

  lemma CompareAndSwapKeeps(s: State)
    requires Inv(s) && s.starter.Reporting?
    ensures Inv(OnCompareAndSwap(s))
  {
    if s.status.id == s.starter.seen.id {
      QuietCounts(s, OnCompareAndSwap(s));
    } else {
      LoadKeeps(s, s.starter.child, s.starter.report);
    }
  }

  lemma EnvironmentKeeps(s: State, a: Action)
    requires Inv(s) && Enabled(s, a) && (a.CancelParent? || a.Reap?)
    ensures Inv(Next(s, a))
  {
    QuietCounts(s, Next(s, a));
  }

  lemma StepKeeps(s: State, a: Action)
    requires Inv(s) && Enabled(s, a)
    ensures Inv(Next(s, a))
  {
    match a
    case CancelParent => EnvironmentKeeps(s, a);
    case Reap(_) => EnvironmentKeeps(s, a);
    case ParentDone => ParentDoneKeeps(s);
    case UpstreamExit => UpstreamExitKeeps(s);
    case WaitReady(r) => WaitReadyKeeps(s, r);
    case Start(r, block) => StartKeeps(s, r, block);
    case Stop(r) => StopKeeps(s, r);
    case StartResult(now) => StartResultKeeps(s, now);
    case StopDuringStart(r) => StopDuringStartKeeps(s, r);
    case ParentDoneDuringStart => ParentDoneDuringStartKeeps(s);
    case AbortedStart => AbortedStartKeeps(s);
    case ChildGone => ChildGoneKeeps(s);
    case LaunchFails => StarterKeeps(s, a);
    case Launch(c) => LaunchKeeps(s, c);
    case Inspect(_) => StarterKeeps(s, a);
    case Probe => StarterKeeps(s, a);
    case Healthy => StarterKeeps(s, a);
    case Unhealthy => StarterKeeps(s, a);
    case NoReport => StarterKeeps(s, a);
    case ExitedEarly => StarterKeeps(s, a);
    case GiveUp => StarterKeeps(s, a);
    case AbortDone => StarterKeeps(s, a);
    case LoadStatus(report) => LoadKeeps(s, s.starter.child, report);
    case CompareAndSwap => CompareAndSwapKeeps(s);
  }

  // ----- whole runs

  /** states[0] is the initial state and each step leads to the next state. */
  ghost predicate Run(states: seq<State>, actions: seq<Action>) {
    && |states| == |actions| + 1 && states[0] == INITIAL
    && forall i | 0 <= i < |actions| :: Takes(states, actions, i)
  }

  /** Step i of a run. */
  ghost predicate Takes(states: seq<State>, actions: seq<Action>, i: int)
    requires 0 <= i < |actions| < |states|
  {
    Enabled(states[i], actions[i]) && states[i + 1] == Next(states[i], actions[i])
  }

  lemma {:induction false} RunKeeps(states: seq<State>, actions: seq<Action>, i: nat)
    requires Run(states, actions) && i < |states|
    ensures Inv(states[i])
  {
    if i > 0 {
      RunKeeps(states, actions, i - 1);
      assert Takes(states, actions, i - 1);
      StepKeeps(states[i - 1], actions[i - 1]);
    }
  }

  /** At the head of the loop a process is stopped or ready; ready exactly when a command and its handler are set;
      subscribers are parked only while stopped, and a Run caller only while ready. */
  lemma HeadOfLoop(states: seq<State>, actions: seq<Action>, i: nat)
    requires Run(states, actions) && i < |states| && states[i].pc == Head
    ensures var s := states[i];
            && (s.state == Stopped || s.state == Ready)
            && (s.state == Ready <==> s.cmd.Some?) && s.handler == s.cmd
            && (s.waiters != [] ==> s.state == Stopped)
            && (s.runResp.Some? ==> s.state == Ready)
  {
    RunKeeps(states, actions, i);
  }

  /** No request is answered twice, so a reply never waits for room; a request received is answered or held;
      and at exit only a start in flight at the shutdown is unanswered. */
  lemma AnsweredOnce(states: seq<State>, actions: seq<Action>, i: nat, r: Request)
    requires Run(states, actions) && i < |states|
    ensures var s := states[i];
            && s.replies[r] <= 1
            && (s.replies[r] == 1 ==> r in s.accepted)
            && (r in s.accepted && s.replies[r] == 0 ==>
                  r in s.waiters || s.runResp == Some(r) || InHand(s.pc, r) == 1 || s.abandoned == Some(r))
            && (s.pc == Exited && r in s.accepted && s.replies[r] == 0 ==>
                  r in s.starts && exists j :: 0 <= j < i && InFlightAtShutdown(states[j].pc, r))
  {
    RunKeeps(states, actions, i);
    assert Places(states[i], r) == Due(states[i], r);
    if states[i].abandoned == Some(r) { var j := AbandonedInFlight(states, actions, i, r); }
  }

  /** The loop is tearing down the start of this request because the parent was cancelled. */
  predicate InFlightAtShutdown(pc: Pc, r: Request) {
    match pc
    case ShutdownAwaitsStart(q) => q == r
    case ShutdownKillsStart(q, _) => q == r
    case _ => false
  }

  /** A request left unanswered was a start in flight at an earlier shutdown. */
  lemma {:induction false} AbandonedInFlight(states: seq<State>, actions: seq<Action>, i: nat, r: Request)
      returns (j: nat)
    requires Run(states, actions) && i < |states| && states[i].abandoned == Some(r)
    ensures j < i && InFlightAtShutdown(states[j].pc, r)
  {
    assert i > 0 && Takes(states, actions, i - 1);
    if states[i - 1].abandoned == Some(r) {
      j := AbandonedInFlight(states, actions, i - 1, r);
    } else {
      AbandonsInFlight(states[i - 1], actions[i - 1], r);
      j := i - 1;
    }
  }

  lemma AbandonsInFlight(s: State, a: Action, r: Request)
    requires Enabled(s, a) && s.abandoned != Some(r) && Next(s, a).abandoned == Some(r)
    ensures InFlightAtShutdown(s.pc, r)
  {
    if a.AbortedStart? {
      AbortedAbandons(s, r);
    } else if a.ChildGone? {
      ChildGoneAbandons(s, r);
    } else {
      OthersAbandonNobody(s, a);
    }
  }

  lemma AbortedAbandons(s: State, r: Request)
    requires Enabled(s, AbortedStart) && s.abandoned != Some(r) && OnAbortedStart(s).abandoned == Some(r)
    ensures InFlightAtShutdown(s.pc, r)
  {
  }

  lemma ChildGoneAbandons(s: State, r: Request)
    requires Enabled(s, ChildGone) && s.abandoned != Some(r) && OnChildGone(s).abandoned == Some(r)
    ensures InFlightAtShutdown(s.pc, r)
  {
  }

  /** The steps at the loop's select and inside a start. */
  predicate OfLoop(a: Action) {
    || a.ParentDone? || a.UpstreamExit? || a.WaitReady? || a.Start? || a.Stop? || a.StartResult? || a.StopDuringStart?
    || a.ParentDoneDuringStart?
  }

  lemma OthersAbandonNobody(s: State, a: Action)
    requires Enabled(s, a) && !a.AbortedStart? && !a.ChildGone?
    ensures Next(s, a).abandoned == s.abandoned
  {
    if OfLoop(a) { LoopAbandonsNobody(s, a); } else { OtherRequestsStay(s, a); }
  }

  lemma LoopAbandonsNobody(s: State, a: Action)
    requires Enabled(s, a) && OfLoop(a)
    ensures Next(s, a).abandoned == s.abandoned
  {
    match a
    case ParentDone => assert OnParentDone(s).abandoned == s.abandoned;
    case UpstreamExit => assert OnUpstreamExit(s).abandoned == s.abandoned;
    case WaitReady(r) => assert OnWaitReady(s, r).abandoned == s.abandoned;
    case Start(r, block) => assert OnStart(s, r, block).abandoned == s.abandoned;
    case Stop(r) => assert OnStop(s, r).abandoned == s.abandoned;
    case StartResult(now) => ResultAbandonsNobody(s, now);
    case StopDuringStart(r) => assert OnStopDuringStart(s, r).abandoned == s.abandoned;
    case ParentDoneDuringStart => assert OnParentDoneDuringStart(s).abandoned == s.abandoned;
  }

  lemma ResultAbandonsNobody(s: State, now: nat)
    requires s.pc.InStart? && s.starter.Finished?
    ensures OnStartResult(s, now).abandoned == s.abandoned
  {
  }

  /** The start and the environment touch no request. */
  lemma OtherRequestsStay(s: State, a: Action)
    requires Enabled(s, a) && !OfLoop(a) && !a.AbortedStart? && !a.ChildGone?
    ensures var t := Next(s, a);
            && t.pc == s.pc && t.waiters == s.waiters && t.runResp == s.runResp && t.abandoned == s.abandoned
            && t.accepted == s.accepted && t.replies == s.replies && t.answers == s.answers
            && t.state == s.state && t.cmd == s.cmd && t.handler == s.handler
  {
  }

  /** At most one child is alive; it is the one the loop or the start answers for; none outlives the loop. */
  lemma OneChild(states: seq<State>, actions: seq<Action>, i: nat)
    requires Run(states, actions) && i < |states|
    ensures var s := states[i];
            && |s.started - s.reaped| <= 1
            && s.started - s.reaped <= Owned(s)
            && (s.pc == Exited ==> s.started == s.reaped)
            && (s.starter == Launching ==> s.started == s.reaped)
  {
    RunKeeps(states, actions, i);
    var s := states[i];
    OneOwner(s);
    SubsetSize(s.started - s.reaped, Owned(s));
    if Owned(s) == {} { NoneAlive(s); }
  }

  lemma OneOwner(s: State)
    requires Shape(s)
    ensures |Owned(s)| <= 1
    ensures s.pc == Exited || s.starter == Launching ==> Owned(s) == {}
  {
    assert OwnedByLoop(s) == {} || OwnedByStart(s.starter) == {};
    assert Owned(s) == OwnedByLoop(s) || Owned(s) == OwnedByStart(s.starter);
  }

  /** Whatever the interleaving of setLoading, readers see the loop's state; loading progress only while starting,
      a start time exactly while ready; and the change events lead to that state one into the next. */
  lemma PublishedState(states: seq<State>, actions: seq<Action>, i: nat)
    requires Run(states, actions) && i < |states|
    ensures var s := states[i];
            && s.status.state == s.state
            && (s.status.loading.Some? ==> s.status.state == Starting)
            && (s.status.readySince.Some? <==> s.status.state == Ready)
            && LeadsTo(s.changes, s.status.state)
  {
    RunKeeps(states, actions, i);
  }

  /** A progress report reaches the readers only if nothing was published since it loaded the status. */
  lemma ReportNeverOverwrites(states: seq<State>, actions: seq<Action>, i: nat)
    requires Run(states, actions) && i < |actions| && actions[i] == CompareAndSwap
    ensures var s, t := states[i], states[i + 1];
            s.starter.Reporting? &&
            if s.status == s.starter.seen then
              t.status == s.status.(id := s.nextId, loading := Some(s.starter.report))
            else t.status == s.status
  {
    RunKeeps(states, actions, i);
    assert Takes(states, actions, i);
  }

  /** How many steps a blocked loop is from its select or its exit, at most. */
  function Distance(s: State): nat {
    match s.starter
    case NoStart => if s.pc == Head || s.pc == Exited then 0 else if Killed(s) in s.reaped then 1 else 2
    case Finished(_) => 3
    case Aborting(c) => if Gone(s, c) then 4 else 5
    case Waiting(_) => 6
    case Reporting(_, seen, _) => if seen.id == s.status.id then 7 else 8
    case Answered(_) => 9
    case Probing(_) => 10
    case Launched(_) => 11
    case Launching => 12
  }

  /** The child a blocked loop waits for. */
  function Killed(s: State): Child {
    if s.pc.StopKillsStart? || s.pc.ShutdownKillsStart? then s.pc.child
    else if s.cmd.Some? then s.cmd.value else 0
  }

  /** A blocked loop is never stuck: what it waits for, or the loop itself, can step closer to the select or exit. */
  lemma NeverStuck(states: seq<State>, actions: seq<Action>, i: nat) returns (a: Action)
    requires Run(states, actions) && i < |states| && states[i].pc != Head && states[i].pc != Exited
    ensures Enabled(states[i], a) && Distance(Next(states[i], a)) < Distance(states[i])
  {
    RunKeeps(states, actions, i);
    a := StepCloser(states[i]);
  }

  /** The loop tears something down: it waits for a cancelled start or for a child's exit. */
  predicate Closing(pc: Pc) {
    pc != Head && pc != Exited && !pc.InStart?
  }

  /** How many steps of its own a cancelled start has left, at most. */
  function StartLeft(s: State): nat {
    match s.starter
    case NoStart => 0
    case Finished(_) => 0
    case Aborting(_) => 1
    case Waiting(_) => 2
    case Reporting(_, seen, _) => if seen.id == s.status.id then 3 else 4
    case Answered(_) => 5
    case Probing(_) => 6
    case Launched(_) => 7
    case Launching => 8
  }

  /** How many steps of the loop and the start a teardown has left, at most. */
  function TeardownLeft(s: State): nat {
    if !Closing(s.pc) then 0
    else if s.pc.StopAwaitsStart? || s.pc.ShutdownAwaitsStart? then 2 + StartLeft(s)
    else 1
  }

  /** The steps of the loop and of the start goroutine, as against those of the environment. */
  predicate IsOurs(a: Action) {
    !a.CancelParent? && !a.Reap?
  }

  /** During a teardown every step of the loop or the start, whichever they choose, brings it closer to its end. */
  lemma TeardownStep(s: State, a: Action)
    requires Shape(s) && Enabled(s, a) && Closing(s.pc)
    ensures IsOurs(a) ==> TeardownLeft(Next(s, a)) < TeardownLeft(s)
    ensures !IsOurs(a) ==> TeardownLeft(Next(s, a)) == TeardownLeft(s)
  {
    if a.AbortedStart? || a.ChildGone? {
      TeardownAdvances(s, a);
    } else {
      assert Next(s, a).pc == s.pc;
    }
  }

  lemma TeardownAdvances(s: State, a: Action)
    requires Shape(s) && Enabled(s, a) && (a.AbortedStart? || a.ChildGone?)
    ensures TeardownLeft(Next(s, a)) < TeardownLeft(s)
  {
  }

  function OurSteps(actions: seq<Action>, from: nat, to: nat): nat
    requires from <= to <= |actions|
  {
    if from == to then 0 else OurSteps(actions, from, to - 1) + if IsOurs(actions[to - 1]) then 1 else 0
  }

  /** A teardown, a cancelled start included, ends after at most ten steps of the loop and the start goroutine. */
  lemma {:induction false} TeardownIsShort(states: seq<State>, actions: seq<Action>, i: nat, j: nat)
    requires Run(states, actions) && i <= j < |states| && forall k | i <= k < j :: Closing(states[k].pc)
    ensures OurSteps(actions, i, j) + TeardownLeft(states[j]) <= TeardownLeft(states[i]) <= 10
  {
    if i < j {
      TeardownIsShort(states, actions, i, j - 1);
      RunKeeps(states, actions, j - 1);
      assert Takes(states, actions, j - 1);
      TeardownStep(states[j - 1], actions[j - 1]);
    }
  }

  lemma ChildGoneReturns(s: State)
    requires Shape(s) && s.starter == NoStart && Enabled(s, ChildGone)
    ensures Distance(OnChildGone(s)) == 0
  {
  }

  lemma ResultReturns(s: State)
    requires Shape(s) && s.starter.Finished? && s.pc != Head && s.pc != Exited
    ensures s.pc.InStart? ==> Distance(OnStartResult(s, 0)) == 0
    ensures !s.pc.InStart? ==> Enabled(s, AbortedStart) && Distance(OnAbortedStart(s)) <= 2
  {
  }

  lemma StepCloser(s: State) returns (a: Action)
    requires Shape(s) && Children(s) && s.pc != Head && s.pc != Exited
    ensures Enabled(s, a) && Distance(Next(s, a)) < Distance(s)
  {
    match s.starter
    case Finished(_) =>
      ResultReturns(s);
      a := if s.pc.InStart? then StartResult(0) else AbortedStart;
    case NoStart =>
      assert Killed(s) in Owned(s);
      if Gone(s, Killed(s)) {
        ChildGoneReturns(s);
        a := ChildGone;
      } else {
        a := Reap(Killed(s));
      }
    case _ => a := StarterCloser(s);
  }

  lemma StarterCloser(s: State) returns (a: Action)
    requires Children(s) && s.starter != NoStart && !s.starter.Finished?
    ensures Enabled(s, a) && Distance(Next(s, a)) < Distance(s)
  {
    match s.starter
    case Launching => a := LaunchFails;
    case Launched(_) => a := Inspect(false);
    case Waiting(_) => a := GiveUp;
    case Probing(_) => a := Unhealthy;
    case Answered(_) => a := NoReport;
    case Reporting(_, _, _) => a := CompareAndSwap;
    case Aborting(c) =>
      assert c in Owned(s);
      a := if Gone(s, c) then AbortDone else Reap(c);
  }
}
