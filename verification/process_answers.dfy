/** Answers of the process loop. */
module ProcessAnswers {
  import opened Options
  import opened ProcessLoop

  // What has happened when the loop answers a request, step by step and over whole runs.

  /** The request has its one answer. */
  ghost predicate Told(s: State, r: Request, a: Answer) {
    s.replies[r] == 1 && r in s.answers && s.answers[r] == a
  }

  /** The loop is back at its select with no process: stopped, nothing latched, every child reaped. */
  ghost predicate AllGone(s: State) {
    && s.pc == Head && s.state == Stopped && s.cmd == None && s.handler == None && s.starter == NoStart
    && s.started == s.reaped
  }

  lemma StoppedIsGone(s: State)
    requires Inv(s) && s.pc == Head && s.state == Stopped
    ensures AllGone(s)
  {
    NoneAlive(s);
  }

  /** The stop the loop is working on. */
  function StopOf(pc: Pc): Option<Request> {
    match pc
    case StopAwaitsStart(_, stop) => Some(stop)
    case StopKillsStart(_, stop, _) => Some(stop)
    case StopKills(stop) => Some(stop)
    case _ => None
  }

  /** At its select the loop takes any request, inside a start a stop; at both it notices the shutdown, and at its
      select that the process has exited. */
  lemma Receives(s: State, r: Request, block: bool)
    requires r !in s.accepted
    ensures s.pc == Head ==> Enabled(s, WaitReady(r)) && Enabled(s, Start(r, block)) && Enabled(s, Stop(r))
    ensures s.pc.InStart? ==> Enabled(s, StopDuringStart(r))
    ensures s.parentDone && s.pc == Head ==> Enabled(s, ParentDone)
    ensures s.parentDone && s.pc.InStart? ==> Enabled(s, ParentDoneDuringStart)
    ensures s.pc == Head && s.cmd.Some? && s.cmd.value in s.reaped ==> Enabled(s, UpstreamExit)
  {
  }

  // ----- what the ends of the loop's work tell whom

  lemma StartStoppedTells(s: State, req: Request, stop: Request)
    ensures var t := StartStopped(s, req, stop);
            && t.pc == Head && t.state == Stopped && t.waiters == [] && t.cmd == s.cmd
            && t.abandoned == s.abandoned && t.runResp == s.runResp
            && t.replies[stop] > 0 && stop in t.answers && t.answers[stop] == Fine
            && t.replies[req] > 0 && req in t.answers && (req != stop ==> t.answers[req] == Aborted)
            && forall r | r in s.waiters && r != req && r != stop ::
                 t.replies[r] > 0 && r in t.answers && t.answers[r] == Aborted
  {
    assert forall r | r in s.waiters :: multiset(s.waiters)[r] > 0;
  }

  lemma RunStoppedTells(s: State, stop: Request)
    ensures var t := RunStopped(s, stop);
            && t.pc == Head && t.state == Stopped && t.cmd == None && t.runResp == None && t.waiters == []
            && t.abandoned == s.abandoned
            && t.replies[stop] > 0 && stop in t.answers && t.answers[stop] == Fine
            && (s.runResp.Some? ==>
                  var r := s.runResp.value;
                  t.replies[r] > 0 && r in t.answers && t.answers[r] == Fine)
  {
  }

  lemma LeaveTells(s: State)
    ensures var t := Leave(s);
            && t.pc == Exited && t.cmd == s.cmd && t.runResp == None && t.waiters == [] && t.abandoned == s.abandoned
            && (s.runResp.Some? ==>
                  var r := s.runResp.value;
                  t.replies[r] > 0 && r in t.answers && t.answers[r] == Failed)
            && forall r | r in s.waiters :: t.replies[r] > 0 && r in t.answers && t.answers[r] == Failed
  {
    assert forall r | r in s.waiters :: multiset(s.waiters)[r] > 0;
  }

  /** A request has one place at most, so an answer is its only one and whoever holds it has not answered it. */
  lemma OnePlace(s: State, r: Request)
    requires Inv(s)
    ensures s.replies[r] <= 1
    ensures s.replies[r] == 1 ==>
              r !in s.waiters && s.runResp != Some(r) && OfStart(s.pc) != Some(r) && StopOf(s.pc) != Some(r)
              && s.abandoned != Some(r)
  {
    assert Places(s, r) == Due(s, r);
    assert r in s.waiters ==> multiset(s.waiters)[r] > 0;
  }

  /** The answer has been sent. */
  ghost predicate Sent(s: State, r: Request, a: Answer) {
    s.replies[r] > 0 && r in s.answers && s.answers[r] == a
  }

  // ----- a stop

  /** The loop has answered the stop with the process stopped, or still works on it. */
  ghost predicate StopGoesOn(t: State, r: Request) {
    if t.pc == Head then t.state == Stopped && Sent(t, r, Fine) else StopOf(t.pc) == Some(r)
  }

  lemma StopAborts(s: State, r: Request)
    requires Enabled(s, AbortedStart) && StopOf(s.pc) == Some(r)
    ensures StopGoesOn(OnAbortedStart(s), r)
  {
    if s.starter.result == None { StartStoppedTells(s.(starter := NoStart), s.pc.req, r); }
  }

  lemma StopReaps(s: State, r: Request)
    requires Enabled(s, ChildGone) && StopOf(s.pc) == Some(r)
    ensures StopGoesOn(OnChildGone(s), r)
  {
    if s.pc.StopKills? { RunStoppedTells(s, r); } else { StartStoppedTells(s, s.pc.req, r); }
  }

  /** A stop stays in hand until its teardown is over, and is answered then. */
  lemma StopStep(s: State, a: Action, r: Request)
    requires Inv(s) && Enabled(s, a) && StopOf(s.pc) == Some(r)
    ensures var t := Next(s, a);
            if t.pc == Head then AllGone(t) && Told(t, r, Fine) else StopOf(t.pc) == Some(r) && t.replies[r] == 0
  {
    var t := Next(s, a);
    StepKeeps(s, a);
    OnePlace(t, r);
    StopContinues(s, a, r);
    if t.pc == Head { StoppedIsGone(t); }
  }

  lemma StopContinues(s: State, a: Action, r: Request)
    requires Enabled(s, a) && StopOf(s.pc) == Some(r)
    ensures StopGoesOn(Next(s, a), r)
  {
    match a
    case AbortedStart => StopAborts(s, r);
    case ChildGone => StopReaps(s, r);
    case _ => OtherRequestsStay(s, a);
  }

  /** A stop that finds a process begins its teardown; one that finds none is answered at once. */
  lemma StopReceived(s: State, r: Request)
    requires Inv(s) && Enabled(s, Stop(r))
    ensures var t := Next(s, Stop(r));
            if s.cmd.Some? then
              t.pc == StopKills(r) && t.state == Stopping && t.cmd == s.cmd && t.replies[r] == 0
            else AllGone(t) && Told(t, r, Fine)
  {
    var t := Next(s, Stop(r));
    StepKeeps(s, Stop(r));
    OnePlace(t, r);
    assert t == OnStop(s, r);
    if s.cmd == None { StoppedIsGone(t); }
  }

  /** A stop that meets a start cancels it and waits for it. */
  lemma StopCancels(s: State, r: Request)
    requires Inv(s) && Enabled(s, StopDuringStart(r))
    ensures var t := Next(s, StopDuringStart(r));
            t.pc == StopAwaitsStart(s.pc.req, r) && t.cancelled && t.replies == s.replies && t.replies[r] == 0
  {
    assert Places(s, r) == Due(s, r);
  }

  // ----- a start

  lemma HandsDiffer(s: State)
    requires Inv(s)
    ensures StopOf(s.pc) != None ==> OfStart(s.pc) != StopOf(s.pc)
    ensures forall r | r in s.waiters :: OfStart(s.pc) != Some(r) && StopOf(s.pc) != Some(r)
    ensures s.runResp.Some? ==> StopOf(s.pc) != s.runResp && s.runResp.value !in s.waiters
  {
    if StopOf(s.pc).Some? { assert Places(s, StopOf(s.pc).value) == Due(s, StopOf(s.pc).value); }
    forall r | r in s.waiters ensures OfStart(s.pc) != Some(r) && StopOf(s.pc) != Some(r) {
      assert Places(s, r) == Due(s, r) && multiset(s.waiters)[r] > 0;
    }
    if s.runResp.Some? {
      assert Places(s, s.runResp.value) == Due(s, s.runResp.value);
      assert s.runResp.value in s.waiters ==> multiset(s.waiters)[s.runResp.value] > 0;
    }
  }

  /** A start received while stopped is begun; any other is answered at once, and nothing else changes. */
  lemma StartReceived(s: State, r: Request, block: bool)
    requires Inv(s) && Enabled(s, Start(r, block))
    ensures var t := Next(s, Start(r, block));
            if s.state == Stopped then
              && t.pc == InStart(r, block) && t.state == Starting && t.starter == Launching && !t.cancelled
              && t.replies[r] == 0
            else
              && s.state == Ready && Told(t, r, if block then Failed else Fine)
              && t.pc == s.pc && t.state == s.state && t.status == s.status && t.cmd == s.cmd && t.handler == s.handler
  {
    var t := Next(s, Start(r, block));
    StepKeeps(s, Start(r, block));
    OnePlace(t, r);
    assert t == OnStart(s, r, block);
    assert Places(t, r) == Due(t, r);
  }

  /** The start of an EnsureReady caller is in hand. */
  predicate EnsureHeld(s: State, r: Request) {
    OfStart(s.pc) == Some(r) && (s.pc.InStart? ==> !s.pc.block)
  }

  /** Answered without error as soon as the process is ready, with one when the start has ended otherwise; left alone
      only at exit. */
  ghost predicate EnsureGoesOn(t: State, r: Request) {
    if t.pc == Head then
      (t.state == Ready && Sent(t, r, Fine)) || (t.state == Stopped && (Sent(t, r, Aborted) || Sent(t, r, Failed)))
    else if t.pc == Exited then t.abandoned == Some(r)
    else EnsureHeld(t, r)
  }

  lemma EnsureResult(s: State, now: nat, r: Request)
    requires Enabled(s, StartResult(now)) && EnsureHeld(s, r)
    ensures EnsureGoesOn(OnStartResult(s, now), r)
  {
  }

  lemma EnsureAborts(s: State, r: Request)
    requires Inv(s) && Enabled(s, AbortedStart) && EnsureHeld(s, r)
    ensures EnsureGoesOn(OnAbortedStart(s), r)
  {
    HandsDiffer(s);
    var t := s.(starter := NoStart);
    if s.starter.result == None {
      if s.pc.StopAwaitsStart? { StartStoppedTells(t, r, s.pc.stop); } else { LeaveTells(t.(abandoned := Some(r))); }
    }
  }

  lemma EnsureReaps(s: State, r: Request)
    requires Inv(s) && Enabled(s, ChildGone) && EnsureHeld(s, r)
    ensures EnsureGoesOn(OnChildGone(s), r)
  {
    HandsDiffer(s);
    if s.pc.StopKillsStart? { StartStoppedTells(s, r, s.pc.stop); } else { LeaveTells(s.(abandoned := Some(r))); }
  }

  lemma EnsureContinues(s: State, a: Action, r: Request)
    requires Inv(s) && Enabled(s, a) && EnsureHeld(s, r)
    ensures EnsureGoesOn(Next(s, a), r)
  {
    if a.AbortedStart? {
      EnsureAborts(s, r);
    } else if a.ChildGone? {
      EnsureReaps(s, r);
    } else if OfLoop(a) {
      EnsureInStart(s, a, r);
    } else {
      OtherRequestsStay(s, a);
    }
  }

  lemma EnsureInStart(s: State, a: Action, r: Request)
    requires Enabled(s, a) && EnsureHeld(s, r) && OfLoop(a)
    ensures EnsureGoesOn(Next(s, a), r)
  {
    match a
    case StartResult(now) => EnsureResult(s, now, r);
    case StopDuringStart(q) => assert Next(s, a) == OnStopDuringStart(s, q);
    case ParentDoneDuringStart => assert Next(s, a) == OnParentDoneDuringStart(s);
  }

  // ----- a Run caller

  /** Its start is in hand, or its process runs. */
  predicate RunHeld(s: State, r: Request) {
    s.runResp == Some(r) || (OfStart(s.pc) == Some(r) && (s.pc.InStart? ==> s.pc.block))
  }

  /** Answered only once there is no process, and without error only behind a stop of the running one. */
  ghost predicate RunGoesOn(s: State, t: State, r: Request) {
    || RunHeld(t, r)
    || (t.pc == Exited && t.abandoned == Some(r))
    || (&& t.cmd == None && (t.pc == Exited || (t.pc == Head && t.state == Stopped))
        && ((Sent(t, r, Fine) && s.pc.StopKills?) || Sent(t, r, Aborted) || Sent(t, r, Failed)))
  }

  lemma RunResult(s: State, now: nat, r: Request)
    requires Shape(s) && Enabled(s, StartResult(now)) && RunHeld(s, r)
    ensures RunGoesOn(s, OnStartResult(s, now), r)
  {
  }

  lemma RunAborts(s: State, r: Request)
    requires Inv(s) && Enabled(s, AbortedStart) && RunHeld(s, r)
    ensures RunGoesOn(s, OnAbortedStart(s), r)
  {
    HandsDiffer(s);
    var t := s.(starter := NoStart);
    if s.starter.result == None {
      if s.pc.StopAwaitsStart? { StartStoppedTells(t, r, s.pc.stop); } else { LeaveTells(t.(abandoned := Some(r))); }
    }
  }

  lemma RunReaps(s: State, r: Request)
    requires Inv(s) && Enabled(s, ChildGone) && RunHeld(s, r)
    ensures RunGoesOn(s, OnChildGone(s), r)
  {
    HandsDiffer(s);
    match s.pc
    case StopKillsStart(q, stop, _) => StartStoppedTells(s, q, stop);
    case ShutdownKillsStart(q, _) => LeaveTells(s.(abandoned := Some(q)));
    case StopKills(stop) => RunStoppedTells(s, stop);
    case ShutdownKills => LeaveTells(s.(cmd := None));
  }

  lemma RunInStart(s: State, a: Action, r: Request)
    requires Shape(s) && Enabled(s, a) && RunHeld(s, r) && s.pc.InStart? && OfLoop(a)
    ensures RunGoesOn(s, Next(s, a), r)
  {
    match a
    case StartResult(now) => RunResult(s, now, r);
    case StopDuringStart(q) => assert OfStart(OnStopDuringStart(s, q).pc) == Some(r);
    case ParentDoneDuringStart => assert OfStart(OnParentDoneDuringStart(s).pc) == Some(r);
  }

  lemma RunAtHead(s: State, a: Action, r: Request)
    requires Shape(s) && Enabled(s, a) && s.runResp == Some(r) && s.pc == Head && OfLoop(a)
    ensures RunGoesOn(s, Next(s, a), r)
  {
    match a
    case ParentDone => assert OnParentDone(s).runResp == Some(r);
    case UpstreamExit =>
      var t := OnUpstreamExit(s);
      assert t.cmd == None && t.pc == Head && t.state == Stopped && Sent(t, r, Failed);
    case WaitReady(q) => assert OnWaitReady(s, q).runResp == Some(r);
    case Start(q, block) => assert OnStart(s, q, block).runResp == Some(r);
    case Stop(q) => assert OnStop(s, q).runResp == Some(r);
  }

  lemma RunContinues(s: State, a: Action, r: Request)
    requires Inv(s) && Enabled(s, a) && RunHeld(s, r)
    ensures RunGoesOn(s, Next(s, a), r)
  {
    if a.AbortedStart? {
      RunAborts(s, r);
    } else if a.ChildGone? {
      RunReaps(s, r);
    } else if !OfLoop(a) {
      OtherRequestsStay(s, a);
    } else if s.pc == Head {
      RunAtHead(s, a, r);
    } else {
      RunInStart(s, a, r);
    }
  }

  // ----- a WaitReady caller

  /** A WaitReady received while ready is answered at once, any other is parked. */
  lemma WaitReceived(s: State, r: Request)
    requires Inv(s) && Enabled(s, WaitReady(r))
    ensures var t := Next(s, WaitReady(r));
            if s.state == Ready then Told(t, r, Fine) else r in t.waiters && t.replies[r] == 0
  {
    var t := Next(s, WaitReady(r));
    StepKeeps(s, WaitReady(r));
    OnePlace(t, r);
    assert t == OnWaitReady(s, r);
  }

  /** Answered exactly when the loop comes back to its select or ends: without error if the process is ready then. */
  ghost predicate WaitGoesOn(s: State, t: State, r: Request) {
    if (s.pc != Head && t.pc == Head) || t.pc == Exited then
      if t.state == Ready then Sent(t, r, Fine)
      else (t.state == Stopped || t.pc == Exited) && (Sent(t, r, Aborted) || Sent(t, r, Failed))
    else r in t.waiters
  }

  lemma WaitResult(s: State, now: nat, r: Request)
    requires Inv(s) && Enabled(s, StartResult(now)) && r in s.waiters
    ensures WaitGoesOn(s, OnStartResult(s, now), r)
  {
    HandsDiffer(s);
    var t := s.(pc := Head, starter := NoStart, cancelled := true);
    match s.starter.result
    case Some(c) =>
      var u := SetState(t.(cmd := Some(c), handler := Some(c)), Ready, now);
      NotifyTells(u, Fine, r);
      ReplyKeeps(NotifyWaiters(u, Fine), s.pc.req, Fine, r, Fine);
    case None =>
      NotifyTells(SetState(t, Stopped, 0), Failed, r);
      ReplyKeeps(NotifyWaiters(SetState(t, Stopped, 0), Failed), s.pc.req, Failed, r, Failed);
  }

  lemma NotifyTells(s: State, a: Answer, r: Request)
    requires r in s.waiters
    ensures Sent(NotifyWaiters(s, a), r, a)
  {
    assert multiset(s.waiters)[r] > 0;
  }

  lemma ReplyKeeps(s: State, q: Request, b: Answer, r: Request, a: Answer)
    requires Sent(s, r, a) && q != r
    ensures Sent(Reply(s, q, b), r, a)
  {
  }

  lemma WaitAborts(s: State, r: Request)
    requires Inv(s) && Enabled(s, AbortedStart) && r in s.waiters
    ensures WaitGoesOn(s, OnAbortedStart(s), r)
  {
    HandsDiffer(s);
    var t := s.(starter := NoStart);
    if s.starter.result == None {
      if s.pc.StopAwaitsStart? {
        StartStoppedTells(t, s.pc.req, s.pc.stop);
      } else {
        LeaveTells(t.(abandoned := Some(s.pc.req)));
      }
    }
  }

  lemma WaitReaps(s: State, r: Request)
    requires Inv(s) && Enabled(s, ChildGone) && r in s.waiters
    ensures WaitGoesOn(s, OnChildGone(s), r)
  {
    HandsDiffer(s);
    match s.pc
    case StopKillsStart(q, stop, _) => StartStoppedTells(s, q, stop);
    case ShutdownKillsStart(q, _) => LeaveTells(s.(abandoned := Some(q)));
  }

  lemma WaitInStart(s: State, a: Action, r: Request)
    requires Inv(s) && Enabled(s, a) && r in s.waiters && s.pc.InStart? && OfLoop(a)
    ensures WaitGoesOn(s, Next(s, a), r)
  {
    match a
    case StartResult(now) => WaitResult(s, now, r);
    case StopDuringStart(q) => assert OnStopDuringStart(s, q).waiters == s.waiters;
    case ParentDoneDuringStart => assert OnParentDoneDuringStart(s).waiters == s.waiters;
  }

  lemma WaitAtHead(s: State, a: Action, r: Request)
    requires Shape(s) && Enabled(s, a) && r in s.waiters && s.pc == Head && OfLoop(a)
    ensures WaitGoesOn(s, Next(s, a), r)
  {
    match a
    case ParentDone => LeaveTells(SetState(s, Shutdown, 0));
    case WaitReady(q) => assert OnWaitReady(s, q).waiters == s.waiters + [q];
    case Start(q, block) => assert OnStart(s, q, block).waiters == s.waiters;
    case Stop(q) => assert OnStop(s, q).waiters == s.waiters && OnStop(s, q).pc == Head;
  }

  lemma WaitContinues(s: State, a: Action, r: Request)
    requires Inv(s) && Enabled(s, a) && r in s.waiters
    ensures WaitGoesOn(s, Next(s, a), r)
  {
    if a.AbortedStart? {
      WaitAborts(s, r);
    } else if a.ChildGone? {
      WaitReaps(s, r);
    } else if !OfLoop(a) {
      OtherRequestsStay(s, a);
    } else if s.pc == Head {
      WaitAtHead(s, a, r);
    } else {
      WaitInStart(s, a, r);
    }
  }

  // ----- over whole runs

  /** The request a step receives. */
  function CallOf(a: Action): Option<Request> {
    match a
    case WaitReady(r) => Some(r)
    case Start(r, _) => Some(r)
    case Stop(r) => Some(r)
    case StopDuringStart(r) => Some(r)
    case _ => None
  }

  /** The request that came with this call is in hand or parked. */
  predicate Holds(s: State, call: Action, r: Request) {
    match call
    case WaitReady(_) => r in s.waiters
    case Start(_, block) => if block then RunHeld(s, r) else EnsureHeld(s, r)
    case Stop(_) => StopOf(s.pc) == Some(r)
    case StopDuringStart(_) => StopOf(s.pc) == Some(r)
    case _ => false
  }

  /** No process is left: the loop is back at its select with nothing, or it has ended. */
  ghost predicate NoProcess(t: State) {
    AllGone(t) || (t.pc == Exited && t.started == t.reaped)
  }

  /** What an answer says, by the call it answers: s is the state before it, t the state with it. */
  ghost predicate AnswerMeans(s: State, t: State, call: Action, r: Request) {
    var bad := Told(t, r, Aborted) || Told(t, r, Failed);
    match call
    case WaitReady(_) => (t.state == Ready && Told(t, r, Fine)) || (NoProcess(t) && bad)
    case Start(_, block) =>
      if !block then (t.state == Ready && Told(t, r, Fine)) || (AllGone(t) && bad)
      else
        || (s.state == Ready && t.state == Ready && t.cmd == s.cmd && Told(t, r, Failed))
        || (NoProcess(t) && (bad || (Told(t, r, Fine) && s.pc.StopKills?)))
    case _ => AllGone(t) && Told(t, r, Fine)
  }

  /** After a step the request is still held, has been left at the exit, or has an answer that means what it should. */
  ghost predicate Attended(s: State, t: State, call: Action, r: Request) {
    || (t.replies[r] == 0 && (Holds(t, call, r) || t.abandoned == Some(r)))
    || (t.replies[r] == 1 && AnswerMeans(s, t, call, r))
  }

  lemma ExitedIsGone(t: State)
    requires Inv(t) && t.pc == Exited
    ensures t.started == t.reaped
  {
    NoneAlive(t);
  }

  lemma Received(s: State, call: Action, r: Request)
    requires Inv(s) && Enabled(s, call) && CallOf(call) == Some(r)
    ensures Attended(s, Next(s, call), call, r)
  {
    match call
    case WaitReady(_) => WaitReceived(s, r);
    case Start(_, block) => StartReceived(s, r, block);
    case Stop(_) => StopReceived(s, r);
    case StopDuringStart(_) => StopCancels(s, r);
  }

  lemma WaitAttended(s: State, t: State, r: Request)
    requires Inv(t) && WaitGoesOn(s, t, r)
    ensures Attended(s, t, WaitReady(r), r)
  {
    OnePlace(t, r);
    if t.pc == Exited { ExitedIsGone(t); }
    if t.pc == Head && t.state == Stopped { StoppedIsGone(t); }
  }

  lemma EnsureAttended(s: State, t: State, r: Request)
    requires Inv(t) && EnsureGoesOn(t, r)
    ensures Attended(s, t, Start(r, false), r)
  {
    OnePlace(t, r);
    if t.pc == Head && t.state == Stopped { StoppedIsGone(t); }
  }

  lemma RunAttended(s: State, t: State, r: Request)
    requires Inv(t) && RunGoesOn(s, t, r)
    ensures Attended(s, t, Start(r, true), r)
  {
    OnePlace(t, r);
    if t.pc == Exited { ExitedIsGone(t); }
    if t.pc == Head && t.state == Stopped { StoppedIsGone(t); }
  }

  lemma HeldStep(s: State, a: Action, call: Action, r: Request)
    requires Inv(s) && Enabled(s, a) && CallOf(call) == Some(r) && Holds(s, call, r)
    ensures Attended(s, Next(s, a), call, r)
  {
    StepKeeps(s, a);
    match call
    case WaitReady(_) =>
      WaitContinues(s, a, r);
      WaitAttended(s, Next(s, a), r);
    case Start(_, block) =>
      if block {
        RunContinues(s, a, r);
        RunAttended(s, Next(s, a), r);
      } else {
        EnsureContinues(s, a, r);
        EnsureAttended(s, Next(s, a), r);
      }
    case Stop(_) => StopStep(s, a, r);
    case StopDuringStart(_) => StopStep(s, a, r);
  }

  /** What is left unanswered at the exit stays so. */
  lemma HeldOrLeftStep(s: State, a: Action, call: Action, r: Request)
    requires Inv(s) && Enabled(s, a) && CallOf(call) == Some(r) && s.replies[r] == 0
    requires Holds(s, call, r) || s.abandoned == Some(r)
    ensures Attended(s, Next(s, a), call, r)
  {
    if Holds(s, call, r) { HeldStep(s, a, call, r); } else { OtherRequestsStay(s, a); }
  }

  lemma RepliesGrow(s: State, a: Action, r: Request)
    requires Enabled(s, a)
    ensures s.replies[r] <= Next(s, a).replies[r]
  {
    if a.AbortedStart? {
      AbortReplies(s, r);
    } else if a.ChildGone? {
      ReapReplies(s, r);
    } else if OfLoop(a) {
      LoopReplies(s, a, r);
    } else {
      OtherRequestsStay(s, a);
    }
  }

  lemma LoopReplies(s: State, a: Action, r: Request)
    requires Enabled(s, a) && OfLoop(a)
    ensures s.replies[r] <= Next(s, a).replies[r]
  {
    match a
    case ParentDone => LeaveReplies(SetState(s, Shutdown, 0), r);
    case UpstreamExit => ExitReplies(s, r);
    case WaitReady(q) => assert s.replies[r] <= OnWaitReady(s, q).replies[r];
    case Start(q, block) => assert s.replies[r] <= OnStart(s, q, block).replies[r];
    case Stop(q) => StopReplies(s, q, r);
    case StartResult(now) => ResultReplies(s, now, r);
    case StopDuringStart(q) => assert s.replies == OnStopDuringStart(s, q).replies;
    case ParentDoneDuringStart => assert s.replies == OnParentDoneDuringStart(s).replies;
  }

  lemma ExitReplies(s: State, r: Request)
    ensures s.replies[r] <= OnUpstreamExit(s).replies[r]
  {
  }

  lemma StopReplies(s: State, q: Request, r: Request)
    ensures s.replies[r] <= OnStop(s, q).replies[r]
  {
  }

  lemma ResultReplies(s: State, now: nat, r: Request)
    requires Enabled(s, StartResult(now))
    ensures s.replies[r] <= OnStartResult(s, now).replies[r]
  {
  }

  lemma StartStoppedReplies(s: State, q: Request, stop: Request, r: Request)
    ensures s.replies[r] <= StartStopped(s, q, stop).replies[r]
  {
  }

  lemma RunStoppedReplies(s: State, stop: Request, r: Request)
    ensures s.replies[r] <= RunStopped(s, stop).replies[r]
  {
  }

  lemma LeaveReplies(s: State, r: Request)
    ensures s.replies[r] <= Leave(s).replies[r]
  {
  }

  lemma AbortReplies(s: State, r: Request)
    requires Enabled(s, AbortedStart)
    ensures s.replies[r] <= OnAbortedStart(s).replies[r]
  {
    var t := s.(starter := NoStart);
    if s.pc.StopAwaitsStart? {
      StartStoppedReplies(t, s.pc.req, s.pc.stop, r);
    } else {
      LeaveReplies(t.(abandoned := Some(s.pc.req)), r);
    }
  }

  lemma ReapReplies(s: State, r: Request)
    requires Enabled(s, ChildGone)
    ensures s.replies[r] <= OnChildGone(s).replies[r]
  {
    match s.pc
    case StopKillsStart(q, stop, _) => StartStoppedReplies(s, q, stop, r);
    case ShutdownKillsStart(q, _) => LeaveReplies(s.(abandoned := Some(q)), r);
    case StopKills(stop) => RunStoppedReplies(s, stop, r);
    case ShutdownKills => LeaveReplies(s.(cmd := None), r);
  }

  lemma {:induction false} RepliesStay(states: seq<State>, actions: seq<Action>, i: nat, k: nat, r: Request)
    requires Run(states, actions) && i <= k < |states|
    ensures states[i].replies[r] <= states[k].replies[r]
  {
    if i < k {
      RepliesStay(states, actions, i, k - 1, r);
      assert Takes(states, actions, k - 1);
      RepliesGrow(states[k - 1], actions[k - 1], r);
    }
  }

  lemma ReceivedInRun(states: seq<State>, actions: seq<Action>, j: nat, r: Request)
    requires Run(states, actions) && j < |actions| && CallOf(actions[j]) == Some(r)
    ensures Attended(states[j], states[j + 1], actions[j], r) && states[j].replies[r] == 0
  {
    RunKeeps(states, actions, j);
    assert Takes(states, actions, j);
    assert Places(states[j], r) == Due(states[j], r) == 0;
    Received(states[j], actions[j], r);
  }

  lemma AttendedInRun(states: seq<State>, actions: seq<Action>, i: nat, call: Action, r: Request)
    requires Run(states, actions) && i < |actions| && CallOf(call) == Some(r)
    requires states[i].replies[r] == 0 && (Holds(states[i], call, r) || states[i].abandoned == Some(r))
    ensures Attended(states[i], states[i + 1], call, r)
  {
    RunKeeps(states, actions, i);
    assert Takes(states, actions, i);
    HeldOrLeftStep(states[i], actions[i], call, r);
  }

  /** A request received is held until it is answered, or left at the exit. */
  lemma {:induction false} HeldUntilAnswered(states: seq<State>, actions: seq<Action>, j: nat, i: nat, r: Request)
    requires Run(states, actions) && j < i < |states| && CallOf(actions[j]) == Some(r)
    requires states[i].replies[r] == 0
    ensures Holds(states[i], actions[j], r) || states[i].abandoned == Some(r)
  {
    if i == j + 1 {
      ReceivedInRun(states, actions, j, r);
    } else {
      RepliesStay(states, actions, i - 1, i, r);
      HeldUntilAnswered(states, actions, j, i - 1, r);
      AttendedInRun(states, actions, i - 1, actions[j], r);
    }
  }

  /** Whenever a request is answered, its answer means what its call asks: a stop that everything is gone, an
      EnsureReady or WaitReady that the process is ready or that there is none, a Run that its process has gone or
      another runs. */
  lemma AnsweredMeans(states: seq<State>, actions: seq<Action>, j: nat, i: nat, r: Request)
    requires Run(states, actions) && j < |actions| && i < |actions| && CallOf(actions[j]) == Some(r)
    requires states[i].replies[r] == 0 && states[i + 1].replies[r] == 1
    ensures j <= i && AnswerMeans(states[i], states[i + 1], actions[j], r)
  {
    ReceivedInRun(states, actions, j, r);
    if i < j {
      RepliesStay(states, actions, i + 1, j, r);
    } else if j < i {
      HeldUntilAnswered(states, actions, j, i, r);
      AttendedInRun(states, actions, i, actions[j], r);
    }
  }

  // ----- a process that is ready has passed its check

  lemma FinishesBy(s: State, a: Action, c: Child)
    requires Enabled(s, a) && s.starter != Finished(Some(c)) && Next(s, a).starter == Finished(Some(c))
    ensures (a == Healthy && s.starter == Probing(c)) || (a == Inspect(true) && s.starter == Launched(c))
  {
    if OfLoop(a) {
      LoopStarts(s, a);
    } else if a.AbortedStart? {
      AbortStarts(s);
    } else if a.ChildGone? {
      ReapStarts(s);
    }
  }

  lemma LoopStarts(s: State, a: Action)
    requires Enabled(s, a) && OfLoop(a)
    ensures Next(s, a).starter == s.starter || !Next(s, a).starter.Finished?
    ensures a.StartResult? || Next(s, a).cmd == s.cmd || Next(s, a).cmd == None
  {
    match a
    case ParentDone => assert OnParentDone(s).starter == s.starter && OnParentDone(s).cmd == s.cmd;
    case UpstreamExit => assert OnUpstreamExit(s).starter == s.starter && OnUpstreamExit(s).cmd == None;
    case WaitReady(q) => assert OnWaitReady(s, q).starter == s.starter && OnWaitReady(s, q).cmd == s.cmd;
    case Start(q, block) => assert OnStart(s, q, block).cmd == s.cmd;
    case Stop(q) => assert OnStop(s, q).starter == s.starter && OnStop(s, q).cmd == s.cmd;
    case StartResult(now) => ResultStarts(s, now);
    case StopDuringStart(q) => assert OnStopDuringStart(s, q).starter == s.starter;
    case ParentDoneDuringStart => assert OnParentDoneDuringStart(s).starter == s.starter;
  }

  lemma ResultStarts(s: State, now: nat)
    requires Enabled(s, StartResult(now))
    ensures OnStartResult(s, now).starter == NoStart
    ensures OnStartResult(s, now).cmd == if s.starter.result.Some? then s.starter.result else s.cmd
  {
  }

  lemma AbortStarts(s: State)
    requires Enabled(s, AbortedStart)
    ensures OnAbortedStart(s).starter == NoStart && OnAbortedStart(s).cmd == s.cmd
  {
  }

  lemma ReapStarts(s: State)
    requires Enabled(s, ChildGone)
    ensures OnChildGone(s).starter == s.starter && (OnChildGone(s).cmd == s.cmd || OnChildGone(s).cmd == None)
  {
    match s.pc
    case StopKillsStart(q, stop, _) => assert StartStopped(s, q, stop).cmd == s.cmd;
    case ShutdownKillsStart(q, _) => assert Leave(s.(abandoned := Some(q))).cmd == s.cmd;
    case StopKills(stop) => assert RunStopped(s, stop).cmd == None;
    case ShutdownKills => assert Leave(s.(cmd := None)).cmd == None;
  }

  lemma LatchesBy(s: State, a: Action, c: Child)
    requires Enabled(s, a) && s.cmd != Some(c) && Next(s, a).cmd == Some(c)
    ensures s.starter == Finished(Some(c))
  {
    if a.StartResult? {
      ResultStarts(s, a.now);
    } else if OfLoop(a) {
      LoopStarts(s, a);
    } else if a.AbortedStart? {
      AbortStarts(s);
    } else if a.ChildGone? {
      ReapStarts(s);
    } else {
      OtherRequestsStay(s, a);
    }
  }

  /** Step k passed the child: its health check succeeded, or it was launched without one. */
  ghost predicate Passes(states: seq<State>, actions: seq<Action>, k: nat, c: Child)
    requires k < |actions| < |states|
  {
    || (actions[k] == Healthy && states[k].starter == Probing(c))
    || (actions[k] == Inspect(true) && states[k].starter == Launched(c))
  }

  lemma {:induction false} FinishedWasPassed(states: seq<State>, actions: seq<Action>, i: nat, c: Child)
      returns (k: nat)
    requires Run(states, actions) && i < |states| && states[i].starter == Finished(Some(c))
    ensures k < i && Passes(states, actions, k, c)
  {
    assert i > 0 && Takes(states, actions, i - 1);
    if states[i - 1].starter == Finished(Some(c)) {
      k := FinishedWasPassed(states, actions, i - 1, c);
    } else {
      FinishesBy(states[i - 1], actions[i - 1], c);
      k := i - 1;
    }
  }

  /** The command of a ready process is a child that has passed. */
  lemma {:induction false} ReadyWasPassed(states: seq<State>, actions: seq<Action>, i: nat, c: Child) returns (k: nat)
    requires Run(states, actions) && i < |states| && states[i].cmd == Some(c)
    ensures k < i && Passes(states, actions, k, c)
  {
    assert i > 0 && Takes(states, actions, i - 1);
    if states[i - 1].cmd == Some(c) {
      k := ReadyWasPassed(states, actions, i - 1, c);
    } else {
      LatchesBy(states[i - 1], actions[i - 1], c);
      k := FinishedWasPassed(states, actions, i - 1, c);
    }
  }

  // ----- the published start time

  /** A process becomes ready by a finished start alone, which publishes its time and latches its child. */
  lemma BecomesReady(s: State, a: Action)
    requires Inv(s) && Enabled(s, a) && s.state != Ready && Next(s, a).state == Ready
    ensures a.StartResult? && s.starter.Finished? && s.starter.result.Some?
    ensures var t := Next(s, a);
            t.status.readySince == Some(a.now) && t.cmd == t.handler == s.starter.result
  {
    if a.AbortedStart? {
      AbortsReady(s);
    } else if a.ChildGone? {
      ReapsReady(s);
    } else if !OfLoop(a) {
      OtherRequestsStay(s, a);
    }
  }

  lemma AbortsReady(s: State)
    requires (s.pc.StopAwaitsStart? || s.pc.ShutdownAwaitsStart?) && s.starter.Finished?
    ensures OnAbortedStart(s).state == s.state || OnAbortedStart(s).state == Stopped
  {
  }

  lemma ReapsReady(s: State)
    ensures OnChildGone(s).state == s.state || OnChildGone(s).state == Stopped
  {
  }

  /** As long as it stays ready, readers see the very same status. */
  lemma ReadyStatusStays(s: State, a: Action)
    requires Inv(s) && Enabled(s, a) && s.state == Ready && Next(s, a).state == Ready
    ensures Next(s, a).status == s.status
  {
  }
}
