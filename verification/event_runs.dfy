/** Windows, stops and parking over whole runs. */
module EventRuns {
  import opened Options
  import opened EventDispatch

  // ----- what a consumer receives between its Add and its Del

  /** No Del of the consumer runs from step from up to step to. */
  ghost predicate NoDel(actions: seq<Action>, c: ConsumerId, from: nat, to: nat) {
    forall k | from <= k < to && k < |actions| :: actions[k] != Del(c)
  }

  /** After Add at step a, and as long as no Del has run, the consumer is subscribed from the events then committed. */
  lemma {:induction false} OpenWindow(maxQueue: int, states: seq<State>, actions: seq<Action>, a: nat, i: nat,
                                      c: ConsumerId)
    requires Run(maxQueue, states, actions) && a < |actions| && actions[a] == Add(c)
    requires a < i < |states| && NoDel(actions, c, a, i)
    ensures c in states[i].consumers && states[a].committed <= states[i].committed
    ensures states[i].consumers[c].joined == |states[a].committed| && states[i].consumers[c].left == None
  {
    RunKeeps(maxQueue, states, actions, i - 1);
    assert Takes(maxQueue, states, actions, i - 1);
    if i == a + 1 {
      WindowOpens(maxQueue, states[a], c);
    } else {
      OpenWindow(maxQueue, states, actions, a, i - 1, c);
      WindowStays(maxQueue, states[i - 1], actions[i - 1], c);
    }
  }

  lemma WindowOpens(maxQueue: int, s: State, c: ConsumerId)
    requires c !in s.consumers
    ensures var t := Next(maxQueue, s, Add(c));
            && t.committed == s.committed && c in t.consumers
            && t.consumers[c].joined == |s.committed| && t.consumers[c].left == None
  {
  }

  /** After the first Del, at step d, the window is closed for good. */
  lemma {:induction false} ClosedWindow(maxQueue: int, states: seq<State>, actions: seq<Action>, a: nat, d: nat, i: nat,
                                        c: ConsumerId)
    requires Run(maxQueue, states, actions) && a < d < |actions| && actions[a] == Add(c) && actions[d] == Del(c)
    requires d < i < |states| && NoDel(actions, c, a, d)
    ensures c in states[i].consumers && states[a].committed <= states[d].committed <= states[i].committed
    ensures states[i].consumers[c].joined == |states[a].committed|
    ensures states[i].consumers[c].left == Some(|states[d].committed|)
  {
    RunKeeps(maxQueue, states, actions, i - 1);
    assert Takes(maxQueue, states, actions, i - 1);
    if i == d + 1 {
      OpenWindow(maxQueue, states, actions, a, d, c);
      WindowCloses(maxQueue, states[d], c);
    } else {
      ClosedWindow(maxQueue, states, actions, a, d, i - 1, c);
      WindowStays(maxQueue, states[i - 1], actions[i - 1], c);
    }
  }

  lemma WindowCloses(maxQueue: int, s: State, c: ConsumerId)
    requires Inv(maxQueue, s) && c in s.consumers && s.consumers[c].left == None
    ensures var t := Next(maxQueue, s, Del(c));
            && t.committed == s.committed && c in t.consumers
            && t.consumers[c].joined == s.consumers[c].joined && t.consumers[c].left == Some(|s.committed|)
  {
  }

  /** While subscribed, a consumer has handled, or still holds in order, exactly the events committed since its Add. */
  lemma DeliveredSinceAdd(maxQueue: int, states: seq<State>, actions: seq<Action>, a: nat, i: nat, c: ConsumerId)
    requires Run(maxQueue, states, actions) && a < |actions| && actions[a] == Add(c)
    requires a < i < |states| && NoDel(actions, c, a, i)
    ensures c in states[i].consumers && states[a].committed <= states[i].committed
    ensures var x := states[i].consumers[c];
            x.handled + x.pending + x.queue == states[i].committed[|states[a].committed|..]
  {
    OpenWindow(maxQueue, states, actions, a, i, c);
    DeliveredInOrder(maxQueue, states, actions, i, c);
  }

  /** From its first Del on, they are exactly the events committed between Add and Del; when it has returned, it has
      handled them all. */
  lemma DeliveredBetweenAddAndDel(maxQueue: int, states: seq<State>, actions: seq<Action>, a: nat, d: nat, i: nat,
                                  c: ConsumerId)
    requires Run(maxQueue, states, actions) && a < d < |actions| && actions[a] == Add(c) && actions[d] == Del(c)
    requires d < i < |states| && NoDel(actions, c, a, d)
    ensures c in states[i].consumers && states[a].committed <= states[d].committed <= states[i].committed
    ensures var x, due := states[i].consumers[c], states[i].committed[|states[a].committed|..|states[d].committed|];
            && x.handled + x.pending + x.queue == due
            && (x.pc == Returned ==> x.handled == due)
  {
    ClosedWindow(maxQueue, states, actions, a, d, i, c);
    DeliveredInOrder(maxQueue, states, actions, i, c);
  }

  // ----- returning after Del

  /** The steps that wake every parked consumer: the end of a batch, and a commit. */
  predicate Broadcasts(maxQueue: int, s: State, a: Action) {
    a.Finish? || (a.Attempt? && Subscribed(s) && MaxLen(s, s.subs) < maxQueue)
  }

  predicate OwnStep(a: Action, c: ConsumerId) {
    a == Check(c) || a == Handle(c) || a == Finish(c)
  }

  /** How many steps of its own a stopped consumer takes until it has returned. */
  function ToReturn(x: Consumer): nat {
    match x.pc
    case Returned => 0
    case Asleep => 1
    case Checking => if x.queue == [] then 1 else |x.queue| + 3
    case Handling => |x.pending| + 1 + if x.queue == [] then 1 else |x.queue| + 3
  }

  /** How a stopped consumer's record may change in one step. */
  predicate Stepped(maxQueue: int, s: State, a: Action, c: ConsumerId, x: Consumer, y: Consumer) {
    && y.stop
    && (y.pc == Asleep <==> x.pc == Asleep && !Broadcasts(maxQueue, s, a))
    && (OwnStep(a, c) ==> ToReturn(y) == ToReturn(x) - 1)
    && (!OwnStep(a, c) ==> ToReturn(y) == ToReturn(x))
  }

  /** One step and a stopped consumer: its own steps bring it one closer, a broadcast wakes it, and nothing else
      touches it. */
  lemma StoppedStep(maxQueue: int, s: State, a: Action, c: ConsumerId)
    requires Inv(maxQueue, s) && Enabled(s, a) && c in s.consumers && s.consumers[c].stop
    ensures c in Next(maxQueue, s, a).consumers
    ensures Stepped(maxQueue, s, a, c, s.consumers[c], Next(maxQueue, s, a).consumers[c])
  {
    assert ConsumerOk(maxQueue, s, c);
    var x, y := s.consumers[c], Next(maxQueue, s, a).consumers[c];
    if OwnStep(a, c) {
      StoppedOwnStep(maxQueue, s, a, c);
    } else {
      assert y == x || y == x.(pc := Checking);
    }
  }

  lemma StoppedOwnStep(maxQueue: int, s: State, a: Action, c: ConsumerId)
    requires OwnStep(a, c) && Enabled(s, a) && s.consumers[c].stop
    ensures c in Next(maxQueue, s, a).consumers
    ensures Stepped(maxQueue, s, a, c, s.consumers[c], Next(maxQueue, s, a).consumers[c])
  {
  }

  ghost predicate NothingBroadcast(maxQueue: int, states: seq<State>, actions: seq<Action>, from: nat, to: nat)
    requires to <= |actions| < |states|
  {
    forall k | from <= k < to :: !Broadcasts(maxQueue, states[k], actions[k])
  }

  /** The consumer is asleep after its Del exactly if it was asleep when Del ran and nothing has been broadcast
      since. */
  lemma {:induction false} AsleepUntilBroadcast(maxQueue: int, states: seq<State>, actions: seq<Action>, d: nat, i: nat,
                                                c: ConsumerId)
    requires Run(maxQueue, states, actions) && d < |actions| && actions[d] == Del(c) && d < i < |states|
    ensures c in states[d].consumers && c in states[i].consumers && states[i].consumers[c].stop
    ensures states[i].consumers[c].pc == Asleep <==>
            states[d].consumers[c].pc == Asleep && NothingBroadcast(maxQueue, states, actions, d + 1, i)
  {
    assert Takes(maxQueue, states, actions, d);
    if i > d + 1 {
      AsleepUntilBroadcast(maxQueue, states, actions, d, i - 1, c);
      StoppedInRun(maxQueue, states, actions, i - 1, c);
    }
  }

  lemma StoppedInRun(maxQueue: int, states: seq<State>, actions: seq<Action>, i: nat, c: ConsumerId)
    requires Run(maxQueue, states, actions) && i < |actions| && c in states[i].consumers && states[i].consumers[c].stop
    ensures Takes(maxQueue, states, actions, i) && c in states[i + 1].consumers
    ensures Stepped(maxQueue, states[i], actions[i], c, states[i].consumers[c], states[i + 1].consumers[c])
  {
    RunKeeps(maxQueue, states, actions, i);
    assert Takes(maxQueue, states, actions, i);
    StoppedStep(maxQueue, states[i], actions[i], c);
  }

  function OwnSteps(actions: seq<Action>, c: ConsumerId, from: nat, to: nat): nat
    requires from <= to <= |actions|
  {
    if from == to then 0 else OwnSteps(actions, c, from, to - 1) + if OwnStep(actions[to - 1], c) then 1 else 0
  }

  lemma DelStops(maxQueue: int, s: State, c: ConsumerId)
    requires Enabled(s, Del(c))
    ensures var t := Next(maxQueue, s, Del(c));
            && c in t.consumers && t.consumers[c].stop && t.consumers[c].pc == s.consumers[c].pc
            && ToReturn(t.consumers[c]) == ToReturn(s.consumers[c])
  {
  }

  lemma ReturnedIsZero(x: Consumer)
    ensures x.pc == Returned <==> ToReturn(x) == 0
  {
  }

  /** After Del the consumer takes a number of steps fixed at that moment, and has returned exactly when it has taken
      them all. */
  lemma {:induction false} ReturnsByOwnSteps(maxQueue: int, states: seq<State>, actions: seq<Action>, d: nat, i: nat,
                                             c: ConsumerId)
    requires Run(maxQueue, states, actions) && d < |actions| && actions[d] == Del(c) && d < i < |states|
    ensures c in states[d].consumers && c in states[i].consumers
    ensures var x := states[i].consumers[c];
            && ToReturn(x) + OwnSteps(actions, c, d + 1, i) == ToReturn(states[d].consumers[c])
            && (x.pc == Returned <==> OwnSteps(actions, c, d + 1, i) == ToReturn(states[d].consumers[c]))
  {
    assert Takes(maxQueue, states, actions, d);
    if i == d + 1 {
      DelStops(maxQueue, states[d], c);
    } else {
      ReturnsByOwnSteps(maxQueue, states, actions, d, i - 1, c);
      AsleepUntilBroadcast(maxQueue, states, actions, d, i - 1, c);
      StoppedInRun(maxQueue, states, actions, i - 1, c);
    }
    ReturnedIsZero(states[i].consumers[c]);
  }

  /** Awake and not yet returned, a consumer can always take a step of its own. */
  lemma NextOwnStep(s: State, c: ConsumerId) returns (a: Action)
    requires c in s.consumers && s.consumers[c].pc != Asleep && s.consumers[c].pc != Returned
    ensures OwnStep(a, c) && Enabled(s, a)
  {
    var x := s.consumers[c];
    a := if x.pc == Checking then Check(c) else if x.pending != [] then Handle(c) else Finish(c);
  }

  /** Steps of the consumer alone. */
  ghost predicate AloneRun(maxQueue: int, c: ConsumerId, states: seq<State>, actions: seq<Action>) {
    && |states| == |actions| + 1
    && forall i | 0 <= i < |actions| ::
         OwnStep(actions[i], c) && Enabled(states[i], actions[i])
         && states[i + 1] == Next(maxQueue, states[i], actions[i])
  }

  /** The consumer reaches its return with nobody else taking a step. */
  ghost predicate ReturnsAlone(maxQueue: int, s: State, c: ConsumerId) {
    exists states: seq<State>, actions: seq<Action> :: AloneRun(maxQueue, c, states, actions) && Leads(s, c, states)
  }

  ghost predicate Leads(s: State, c: ConsumerId, states: seq<State>) {
    && states != [] && states[0] == s
    && c in states[|states| - 1].consumers && states[|states| - 1].consumers[c].pc == Returned
  }

  /** Whether a consumer returns after Del without a broadcast of others is settled before the call: exactly if it is
      not asleep. */
  lemma ReturnsAloneIffAwake(maxQueue: int, s: State, c: ConsumerId)
    requires Inv(maxQueue, s) && c in s.consumers
    ensures ReturnsAlone(maxQueue, Next(maxQueue, s, Del(c)), c) <==> s.consumers[c].pc != Asleep
  {
    var t := Next(maxQueue, s, Del(c));
    StepKeeps(maxQueue, s, Del(c));
    if s.consumers[c].pc == Asleep {
      forall states: seq<State>, actions: seq<Action> | AloneRun(maxQueue, c, states, actions) && states[0] == t
        ensures actions == []
      {
        SleeperStays(maxQueue, c, states, actions);
      }
    } else {
      var states, actions := AwakeReturns(maxQueue, t, c);
    }
  }

  lemma SleeperStays(maxQueue: int, c: ConsumerId, states: seq<State>, actions: seq<Action>)
    requires AloneRun(maxQueue, c, states, actions) && c in states[0].consumers && states[0].consumers[c].pc == Asleep
    ensures actions == []
  {
  }

  lemma {:induction false} AwakeReturns(maxQueue: int, s: State, c: ConsumerId)
      returns (states: seq<State>, actions: seq<Action>)
    requires Inv(maxQueue, s) && c in s.consumers && s.consumers[c].stop && s.consumers[c].pc != Asleep
    ensures AloneRun(maxQueue, c, states, actions) && Leads(s, c, states)
    decreases ToReturn(s.consumers[c])
  {
    if s.consumers[c].pc == Returned {
      states, actions := [s], [];
    } else {
      var a := NextOwnStep(s, c);
      var t := OwnStepTaken(maxQueue, s, a, c);
      states, actions := AwakeReturns(maxQueue, t, c);
      AloneLonger(maxQueue, s, a, c, states, actions);
      states, actions := [s] + states, [a] + actions;
    }
  }

  lemma OwnStepTaken(maxQueue: int, s: State, a: Action, c: ConsumerId) returns (t: State)
    requires Inv(maxQueue, s) && Enabled(s, a) && OwnStep(a, c)
    requires s.consumers[c].stop && s.consumers[c].pc != Asleep && s.consumers[c].pc != Returned
    ensures t == Next(maxQueue, s, a) && Inv(maxQueue, t) && c in t.consumers
    ensures t.consumers[c].stop && t.consumers[c].pc != Asleep
    ensures ToReturn(t.consumers[c]) < ToReturn(s.consumers[c])
  {
    t := Next(maxQueue, s, a);
    StepKeeps(maxQueue, s, a);
    StoppedStep(maxQueue, s, a, c);
  }

  lemma AloneLonger(maxQueue: int, s: State, a: Action, c: ConsumerId, states: seq<State>, actions: seq<Action>)
    requires Enabled(s, a) && OwnStep(a, c) && AloneRun(maxQueue, c, states, actions)
    requires states[0] == Next(maxQueue, s, a)
    ensures AloneRun(maxQueue, c, [s] + states, [a] + actions)
    ensures Leads(states[0], c, states) ==> Leads(s, c, [s] + states)
  {
    var ss, aa := [s] + states, [a] + actions;
    forall i | 0 <= i < |aa|
      ensures OwnStep(aa[i], c) && Enabled(ss[i], aa[i]) && ss[i + 1] == Next(maxQueue, ss[i], aa[i])
    {
      if i > 0 { assert aa[i] == actions[i - 1] && ss[i] == states[i - 1] && ss[i + 1] == states[i]; }
    }
  }

  /** A consumer that finds nothing, sleeps, and is then deleted stays asleep: three steps, and none of its own is
      left. */
  lemma DelLeavesAsleep(maxQueue: int) returns (states: seq<State>, actions: seq<Action>)
    ensures actions == [Add(0), Check(0), Del(0)] && Run(maxQueue, states, actions)
    ensures var s := states[3];
            && 0 in s.consumers && s.consumers[0].pc == Asleep && s.consumers[0].stop && s.subs == []
            && !ReturnsAlone(maxQueue, s, 0)
  {
    actions := [Add(0), Check(0), Del(0)];
    var one := Next(maxQueue, INITIAL, actions[0]);
    var two := Next(maxQueue, one, actions[1]);
    var three := Next(maxQueue, two, actions[2]);
    states := [INITIAL, one, two, three];
    assert Takes(maxQueue, states, actions, 0) && Takes(maxQueue, states, actions, 1)
           && Takes(maxQueue, states, actions, 2);
    assert Run(maxQueue, states, actions);
    RunKeeps(maxQueue, states, actions, 2);
    assert two.consumers[0].pc == Asleep;
    ReturnsAloneIffAwake(maxQueue, two, 0);
  }

  // ----- a parked publisher and a busy consumer

  ghost predicate IsParked(s: State, p: PublisherId) {
    p in s.publishers && s.publishers[p].Parked?
  }

  /** While a publisher stays parked, a busy consumer stays busy, and only its own steps bring it to its broadcast. */
  lemma BusyStep(maxQueue: int, s: State, a: Action, c: ConsumerId, p: PublisherId)
    requires Inv(maxQueue, s) && Enabled(s, a) && c in s.consumers && Busy(s.consumers[c])
    requires IsParked(s, p) && IsParked(Next(maxQueue, s, a), p)
    ensures c in Next(maxQueue, s, a).consumers && Busy(Next(maxQueue, s, a).consumers[c])
    ensures ToBroadcast(Next(maxQueue, s, a).consumers[c]) + (if OwnStep(a, c) then 1 else 0)
            <= ToBroadcast(s.consumers[c])
  {
    assert ConsumerOk(maxQueue, s, c);
  }

  /** In every run a parked publisher outlasts fewer steps of a busy consumer than that consumer was from its
      broadcast. */
  lemma {:induction false} ParkedWhileBusy(maxQueue: int, states: seq<State>, actions: seq<Action>, i: nat, j: nat,
                                           c: ConsumerId, p: PublisherId)
    requires Run(maxQueue, states, actions) && i <= j < |states|
    requires c in states[i].consumers && Busy(states[i].consumers[c])
    requires forall k | i <= k <= j :: IsParked(states[k], p)
    ensures c in states[j].consumers && Busy(states[j].consumers[c])
    ensures OwnSteps(actions, c, i, j) + ToBroadcast(states[j].consumers[c]) <= ToBroadcast(states[i].consumers[c])
    ensures OwnSteps(actions, c, i, j) < ToBroadcast(states[i].consumers[c])
  {
    if i < j {
      ParkedWhileBusy(maxQueue, states, actions, i, j - 1, c, p);
      RunKeeps(maxQueue, states, actions, j - 1);
      assert Takes(maxQueue, states, actions, j - 1);
      BusyStep(maxQueue, states[j - 1], actions[j - 1], c, p);
    }
  }

  // ----- a limit that leaves no room

  /** Nothing was ever committed, so nobody has anything to handle. */
  ghost predicate Silent(s: State) {
    && s.committed == []
    && forall c | c in s.consumers ::
         s.consumers[c].queue == [] && s.consumers[c].pending == [] && s.consumers[c].pc != Handling
  }

  lemma SilentStep(maxQueue: int, s: State, a: Action)
    requires maxQueue <= 0 && Silent(s) && Enabled(s, a)
    ensures Silent(Next(maxQueue, s, a))
    ensures forall p | p in s.publishers && s.publishers[p].Parked? ::
              p in Next(maxQueue, s, a).publishers && Next(maxQueue, s, a).publishers[p] == s.publishers[p]
  {
  }

  /** With a limit of zero or less no event is ever committed and no consumer ever handles anything. */
  lemma {:induction false} NoRoomSilences(maxQueue: int, states: seq<State>, actions: seq<Action>, i: nat)
    requires maxQueue <= 0 && Run(maxQueue, states, actions) && i < |states|
    ensures Silent(states[i])
  {
    if i > 0 {
      NoRoomSilences(maxQueue, states, actions, i - 1);
      assert Takes(maxQueue, states, actions, i - 1);
      SilentStep(maxQueue, states[i - 1], actions[i - 1]);
    }
  }

  /** Such a limit parks every publisher that tries for ever: once it has tried it is parked in every later state. */
  lemma {:induction false} NoRoomParksForEver(maxQueue: int, states: seq<State>, actions: seq<Action>, i: nat, j: nat,
                                              p: PublisherId)
    requires maxQueue <= 0 && Run(maxQueue, states, actions) && i < |actions| && actions[i] == Attempt(p)
    requires i < j < |states|
    ensures p in states[i].publishers && p in states[j].publishers
    ensures states[j].publishers[p] == Parked(states[i].publishers[p].event)
  {
    assert Takes(maxQueue, states, actions, j - 1);
    NoRoomSilences(maxQueue, states, actions, j - 1);
    if j > i + 1 {
      NoRoomParksForEver(maxQueue, states, actions, i, j - 1, p);
      SilentStep(maxQueue, states[j - 1], actions[j - 1]);
    }
  }
}
