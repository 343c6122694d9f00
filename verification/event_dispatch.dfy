/** One event group, critical section by critical section. */
module EventDispatch {
  import opened Options
  import opened Collections

  type Event = nat
  type ConsumerId = nat
  type PublisherId = nat

  /** Where Listen is: about to take the lock, parked in Wait, handling a batch, or returned. */
  datatype ListenPc = Checking | Asleep | Handling | Returned

  /** joined, left: the committed events at the time of Add and of Del. */
  datatype Consumer = Consumer(
    pc: ListenPc,
    queue: seq<Event>,
    pending: seq<Event>,
    handled: seq<Event>,
    stop: bool,
    joined: nat,
    left: Option<nat>)

  /** A publisher is about to take the lock, or parked in Wait because some queue is full. */
  datatype Publisher = Waiting(event: Event) | Parked(event: Event)

  datatype State = State(
    consumers: map<ConsumerId, Consumer>,
    subs: seq<ConsumerId>,
    publishers: map<PublisherId, Publisher>,
    committed: seq<Event>)

  const INITIAL := State(map[], [], map[], [])

  datatype Action =
    | Add(c: ConsumerId)
    | Del(c: ConsumerId)
    | Check(c: ConsumerId)
    | Handle(c: ConsumerId)
    | Finish(c: ConsumerId)
    | Publish(p: PublisherId, event: Event)
    | Attempt(p: PublisherId)

  /** A broadcast: everyone parked wakes and will take the lock again. */
  function WakeConsumers(cs: map<ConsumerId, Consumer>): (r: map<ConsumerId, Consumer>)
    ensures r.Keys == cs.Keys
  {
    map c | c in cs :: if cs[c].pc == Asleep then cs[c].(pc := Checking) else cs[c]
  }

  function WakePublishers(ps: map<PublisherId, Publisher>): (r: map<PublisherId, Publisher>)
    ensures r.Keys == ps.Keys
  {
    map p | p in ps :: Waiting(ps[p].event)
  }

  function Wake(s: State): State {
    s.(consumers := WakeConsumers(s.consumers), publishers := WakePublishers(s.publishers))
  }

  /** The length of the longest queue among the subscribers. */
  function MaxLen(s: State, subs: seq<ConsumerId>): nat
    requires forall i | 0 <= i < |subs| :: subs[i] in s.consumers
  {
    if subs == [] then 0
    else
      var n := |subs| - 1;
      var longest := MaxLen(s, subs[..n]);
      if |s.consumers[subs[n]].queue| > longest then |s.consumers[subs[n]].queue| else longest
  }

  /** Removes the first occurrence, shifting the rest. */
  function Removed(subs: seq<ConsumerId>, c: ConsumerId): seq<ConsumerId> {
    if subs == [] then []
    else if subs[0] == c then subs[1..]
    else [subs[0]] + Removed(subs[1..], c)
  }

  predicate Subscribed(s: State) {
    forall i | 0 <= i < |s.subs| :: s.subs[i] in s.consumers
  }

  predicate Enabled(s: State, a: Action) {
    match a
    case Add(c) => c !in s.consumers
    case Del(c) => c in s.consumers
    case Check(c) => c in s.consumers && s.consumers[c].pc == Checking
    case Handle(c) => c in s.consumers && s.consumers[c].pc == Handling && s.consumers[c].pending != []
    case Finish(c) => c in s.consumers && s.consumers[c].pc == Handling && s.consumers[c].pending == []
    case Publish(p, _) => p !in s.publishers
    case Attempt(p) => p in s.publishers && s.publishers[p].Waiting? && Subscribed(s)
  }

  function Next(maxQueue: int, s: State, a: Action): State
    requires Enabled(s, a)
  {
    match a
    case Add(c) =>
      s.(subs := s.subs + [c],
         consumers := s.consumers[c := Consumer(Checking, [], [], [], false, |s.committed|, None)])
    case Del(c) => Unsubscribe(s, c)
    case Check(c) => s.(consumers := s.consumers[c := Checked(s.consumers[c])])
    case Handle(c) =>
      var x := s.consumers[c];
      s.(consumers := s.consumers[c := x.(handled := x.handled + [x.pending[0]], pending := x.pending[1..])])
    case Finish(c) => Wake(s.(consumers := s.consumers[c := s.consumers[c].(pc := Checking)]))
    case Publish(p, ev) => s.(publishers := s.publishers[p := Waiting(ev)])
    case Attempt(p) =>
      if MaxLen(s, s.subs) >= maxQueue then s.(publishers := s.publishers[p := Parked(s.publishers[p].event)])
      else Wake(Commit(s.(publishers := s.publishers - {p}), s.publishers[p].event))
  }

  function Unsubscribe(s: State, c: ConsumerId): State
    requires c in s.consumers
  {
    var x := s.consumers[c];
    s.(subs := Removed(s.subs, c),
       consumers := s.consumers[c := x.(stop := true, left := if x.left == None then Some(|s.committed|) else x.left)])
  }

  /** Listen's critical section: return, park, or swap the two buffers. */
  function Checked(x: Consumer): Consumer {
    if x.queue != [] then x.(queue := [], pending := x.queue, pc := Handling)
    else if x.stop then x.(pc := Returned)
    else x.(pc := Asleep)
  }

  /** The event joins the queue of every subscriber. */
  function Commit(s: State, ev: Event): State {
    s.(consumers := Delivered(s.consumers, s.subs, ev), committed := s.committed + [ev])
  }

  function Delivered(cs: map<ConsumerId, Consumer>, subs: seq<ConsumerId>, ev: Event): (r: map<ConsumerId, Consumer>)
    ensures r.Keys == cs.Keys
  {
    map c | c in cs :: if c in subs then cs[c].(queue := cs[c].queue + [ev]) else cs[c]
  }

  // ----- what every reachable state keeps

  /** The events committed while the consumer was subscribed. */
  function Due(committed: seq<Event>, x: Consumer): seq<Event>
    requires x.joined <= |committed| && (x.left.Some? ==> x.joined <= x.left.value <= |committed|)
  {
    if x.left.Some? then committed[x.joined..x.left.value] else committed[x.joined..]
  }

  /** Handled, pending and queued events are the due ones in order; a consumer sleeps or returns only with nothing
      left. */
  predicate Sound(maxQueue: int, committed: seq<Event>, x: Consumer, subscribed: bool) {
    && x.joined <= |committed| && (x.left.Some? ==> x.joined <= x.left.value <= |committed|)
    && x.handled + x.pending + x.queue == Due(committed, x)
    && (x.queue != [] ==> |x.queue| <= maxQueue)
    && (x.pending != [] ==> x.pc == Handling)
    && (x.pc == Asleep || x.pc == Returned ==> x.queue == [])
    && (x.pc == Returned ==> x.stop)
    && (x.stop <==> x.left.Some?) && (x.stop <==> !subscribed)
  }

  predicate ConsumerOk(maxQueue: int, s: State, c: ConsumerId)
    requires c in s.consumers
  {
    Sound(maxQueue, s.committed, s.consumers[c], c in s.subs)
  }

  lemma StopIsSound(maxQueue: int, committed: seq<Event>, x: Consumer, subscribed: bool)
    requires Sound(maxQueue, committed, x, subscribed)
    ensures Sound(maxQueue, committed,
              x.(stop := true, left := if x.left == None then Some(|committed|) else x.left), false)
  {
    assert committed[x.joined..] == committed[x.joined..|committed|];
  }

  lemma DeliveryIsSound(maxQueue: int, committed: seq<Event>, x: Consumer, ev: Event)
    requires Sound(maxQueue, committed, x, true) && |x.queue| < maxQueue
    ensures x.pc != Asleep ==> Sound(maxQueue, committed + [ev], x.(queue := x.queue + [ev]), true)
    ensures x.pc == Asleep ==> Sound(maxQueue, committed + [ev], x.(queue := x.queue + [ev], pc := Checking), true)
  {
    assert x.handled + x.pending + (x.queue + [ev]) == x.handled + x.pending + x.queue + [ev];
    assert (committed + [ev])[x.joined..] == committed[x.joined..] + [ev];
  }

  lemma HandledIsSound(maxQueue: int, committed: seq<Event>, x: Consumer, subscribed: bool)
    requires Sound(maxQueue, committed, x, subscribed) && x.pending != []
    ensures Sound(maxQueue, committed, x.(handled := x.handled + [x.pending[0]], pending := x.pending[1..]), subscribed)
  {
    assert x.handled + [x.pending[0]] + x.pending[1..] == x.handled + x.pending;
  }

  lemma CheckedIsSound(maxQueue: int, committed: seq<Event>, x: Consumer, subscribed: bool)
    requires Sound(maxQueue, committed, x, subscribed) && x.pc == Checking
    ensures Sound(maxQueue, committed, Checked(x), subscribed)
  {
    assert x.handled + x.pending == x.handled;
    assert x.handled + x.queue + [] == x.handled + x.queue;
  }

  lemma JoinedIsSound(maxQueue: int, committed: seq<Event>)
    ensures Sound(maxQueue, committed, Consumer(Checking, [], [], [], false, |committed|, None), true)
  {
  }

  lemma MissIsSound(maxQueue: int, committed: seq<Event>, x: Consumer, ev: Event)
    requires Sound(maxQueue, committed, x, false)
    ensures Sound(maxQueue, committed + [ev], x, false)
  {
    assert (committed + [ev])[x.joined..x.left.value] == committed[x.joined..x.left.value];
  }

  /** The consumer is awake and will broadcast before it can sleep or return. */
  predicate Busy(x: Consumer) {
    (x.pc == Checking && x.queue != []) || x.pc == Handling
  }

  ghost predicate SomeoneBusy(s: State) {
    exists c :: c in s.consumers && Busy(s.consumers[c])
  }

  ghost predicate NoLostWakeup(s: State) {
    (exists p :: p in s.publishers && s.publishers[p].Parked?) ==> SomeoneBusy(s)
  }

  ghost predicate Inv(maxQueue: int, s: State) {
    && Subscribed(s) && Distinct(s.subs)
    && (forall c | c in s.consumers :: ConsumerOk(maxQueue, s, c))
    && (maxQueue > 0 ==> NoLostWakeup(s))
  }

  lemma {:induction false} RemovedElements(subs: seq<ConsumerId>, c: ConsumerId)
    requires Distinct(subs)
    ensures Distinct(Removed(subs, c)) && c !in Removed(subs, c)
    ensures forall d :: d in Removed(subs, c) <==> d in subs && d != c
  {
    if subs != [] {
      assert subs == [subs[0]] + subs[1..];
      if subs[0] != c {
        RemovedElements(subs[1..], c);
        assert subs[0] !in Removed(subs[1..], c);
      }
    }
  }

  lemma {:induction false} MaxLenBounds(s: State, subs: seq<ConsumerId>)
    requires forall i | 0 <= i < |subs| :: subs[i] in s.consumers
    ensures forall c | c in subs :: |s.consumers[c].queue| <= MaxLen(s, subs)
    ensures MaxLen(s, subs) > 0 ==> exists c :: c in subs && |s.consumers[c].queue| == MaxLen(s, subs)
  {
    if subs != [] {
      var n := |subs| - 1;
      MaxLenBounds(s, subs[..n]);
      assert subs == subs[..n] + [subs[n]];
      if MaxLen(s, subs) > 0 {
        if |s.consumers[subs[n]].queue| > MaxLen(s, subs[..n]) {
          assert subs[n] in subs;
        } else {
          var c :| c in subs[..n] && |s.consumers[c].queue| == MaxLen(s, subs[..n]);
          assert c in subs;
        }
      }
    }
  }

  /** Steps that leave the subscriptions and the committed events alone. */
  lemma SameOthers(maxQueue: int, s: State, t: State, c: ConsumerId)
    requires Inv(maxQueue, s) && t.subs == s.subs && t.committed == s.committed
    requires c in s.consumers && c in t.consumers && t.consumers == s.consumers[c := t.consumers[c]]
    requires ConsumerOk(maxQueue, t, c)
    ensures Subscribed(t) && Distinct(t.subs) && forall d | d in t.consumers :: ConsumerOk(maxQueue, t, d)
  {
    forall d | d in t.consumers ensures ConsumerOk(maxQueue, t, d) {
      if d != c { assert ConsumerOk(maxQueue, s, d) && t.consumers[d] == s.consumers[d]; }
    }
  }

  lemma AddKeeps(maxQueue: int, s: State, c: ConsumerId)
    requires Inv(maxQueue, s) && c !in s.consumers
    ensures Inv(maxQueue, Next(maxQueue, s, Add(c)))
  {
    var t := Next(maxQueue, s, Add(c));
    assert c !in s.subs;
    JoinedIsSound(maxQueue, s.committed);
    forall d | d in t.consumers ensures ConsumerOk(maxQueue, t, d) {
      if d != c {
        assert ConsumerOk(maxQueue, s, d) && t.consumers[d] == s.consumers[d];
        assert d in t.subs <==> d in s.subs;
      }
    }
    if SomeoneBusy(s) {
      var d :| d in s.consumers && Busy(s.consumers[d]);
      assert t.consumers[d] == s.consumers[d];
    }
  }

  lemma DelKeeps(maxQueue: int, s: State, c: ConsumerId)
    requires Inv(maxQueue, s) && c in s.consumers
    ensures Inv(maxQueue, Unsubscribe(s, c))
  {
    var t := Unsubscribe(s, c);
    RemovedElements(s.subs, c);
    forall i | 0 <= i < |t.subs| ensures t.subs[i] in t.consumers {
      assert t.subs[i] in Removed(s.subs, c);
    }
    forall d | d in t.consumers ensures ConsumerOk(maxQueue, t, d) {
      assert ConsumerOk(maxQueue, s, d);
      if d == c { StopIsSound(maxQueue, s.committed, s.consumers[c], c in s.subs); }
    }
    if SomeoneBusy(s) {
      var d :| d in s.consumers && Busy(s.consumers[d]);
      assert Busy(t.consumers[d]);
    }
  }

  lemma CheckKeeps(maxQueue: int, s: State, c: ConsumerId)
    requires Inv(maxQueue, s) && Enabled(s, Check(c))
    ensures Inv(maxQueue, Next(maxQueue, s, Check(c)))
  {
    var t, x := Next(maxQueue, s, Check(c)), s.consumers[c];
    assert ConsumerOk(maxQueue, s, c);
    CheckedIsSound(maxQueue, s.committed, x, c in s.subs);
    SameOthers(maxQueue, s, t, c);
    if SomeoneBusy(s) {
      var d :| d in s.consumers && Busy(s.consumers[d]);
      assert Busy(t.consumers[d]);
    }
  }

  lemma HandleKeeps(maxQueue: int, s: State, c: ConsumerId)
    requires Inv(maxQueue, s) && Enabled(s, Handle(c))
    ensures Inv(maxQueue, Next(maxQueue, s, Handle(c)))
  {
    var t, x := Next(maxQueue, s, Handle(c)), s.consumers[c];
    assert ConsumerOk(maxQueue, s, c);
    HandledIsSound(maxQueue, s.committed, x, c in s.subs);
    SameOthers(maxQueue, s, t, c);
    assert Busy(t.consumers[c]);
  }

  /** A broadcast keeps everything, and leaves nobody parked. */
  lemma WakeKeeps(maxQueue: int, s: State)
    requires Subscribed(s) && Distinct(s.subs) && forall c | c in s.consumers :: ConsumerOk(maxQueue, s, c)
    ensures Inv(maxQueue, Wake(s))
    ensures forall p | p in Wake(s).publishers :: Wake(s).publishers[p].Waiting?
  {
    var t := Wake(s);
    forall c | c in t.consumers ensures ConsumerOk(maxQueue, t, c) {
      assert ConsumerOk(maxQueue, s, c);
    }
  }

  lemma FinishKeeps(maxQueue: int, s: State, c: ConsumerId)
    requires Inv(maxQueue, s) && Enabled(s, Finish(c))
    ensures Inv(maxQueue, Next(maxQueue, s, Finish(c)))
  {
    var t := s.(consumers := s.consumers[c := s.consumers[c].(pc := Checking)]);
    assert ConsumerOk(maxQueue, s, c);
    SameOthers(maxQueue, s, t, c);
    WakeKeeps(maxQueue, t);
  }

  lemma CommittedIsSound(maxQueue: int, s: State, ev: Event, c: ConsumerId)
    requires c in s.consumers && ConsumerOk(maxQueue, s, c)
    requires c in s.subs ==> |s.consumers[c].queue| < maxQueue
    ensures Sound(maxQueue, s.committed + [ev], Wake(Commit(s, ev)).consumers[c], c in s.subs)
  {
    if c in s.subs {
      DeliveryIsSound(maxQueue, s.committed, s.consumers[c], ev);
    } else {
      MissIsSound(maxQueue, s.committed, s.consumers[c], ev);
    }
  }

  /** A commit reaches every subscriber, none beyond the limit, and wakes everyone. */
  lemma CommitKeeps(maxQueue: int, s: State, ev: Event)
    requires Subscribed(s) && Distinct(s.subs) && forall c | c in s.consumers :: ConsumerOk(maxQueue, s, c)
    requires MaxLen(s, s.subs) < maxQueue
    ensures Inv(maxQueue, Wake(Commit(s, ev)))
  {
    var t := Wake(Commit(s, ev));
    MaxLenBounds(s, s.subs);
    forall c | c in t.consumers ensures ConsumerOk(maxQueue, t, c) {
      assert ConsumerOk(maxQueue, s, c);
      CommittedIsSound(maxQueue, s, ev, c);
    }
    assert forall p | p in t.publishers :: t.publishers[p].Waiting?;
  }

  lemma AttemptKeeps(maxQueue: int, s: State, p: PublisherId)
    requires Inv(maxQueue, s) && Enabled(s, Attempt(p))
    ensures Inv(maxQueue, Next(maxQueue, s, Attempt(p)))
  {
    if MaxLen(s, s.subs) >= maxQueue {
      var t := Next(maxQueue, s, Attempt(p));
      forall c | c in t.consumers ensures ConsumerOk(maxQueue, t, c) {
        assert ConsumerOk(maxQueue, s, c);
      }
      if maxQueue > 0 {
        MaxLenBounds(s, s.subs);
        var c :| c in s.subs && |s.consumers[c].queue| == MaxLen(s, s.subs);
        assert ConsumerOk(maxQueue, s, c) && Busy(t.consumers[c]);
      }
    } else {
      var u := s.(publishers := s.publishers - {p});
      forall c | c in u.consumers ensures ConsumerOk(maxQueue, u, c) {
        assert ConsumerOk(maxQueue, s, c);
      }
      assert MaxLen(u, u.subs) == MaxLen(s, s.subs) by { SameLengths(s, u, s.subs); }
      CommitKeeps(maxQueue, u, s.publishers[p].event);
    }
  }

  lemma {:induction false} SameLengths(s: State, u: State, subs: seq<ConsumerId>)
    requires s.consumers == u.consumers && forall i | 0 <= i < |subs| :: subs[i] in s.consumers
    ensures MaxLen(s, subs) == MaxLen(u, subs)
  {
    if subs != [] { SameLengths(s, u, subs[..|subs| - 1]); }
  }

  lemma PublishKeeps(maxQueue: int, s: State, p: PublisherId, ev: Event)
    requires Inv(maxQueue, s) && p !in s.publishers
    ensures Inv(maxQueue, Next(maxQueue, s, Publish(p, ev)))
  {
    var t := Next(maxQueue, s, Publish(p, ev));
    forall c | c in t.consumers ensures ConsumerOk(maxQueue, t, c) {
      assert ConsumerOk(maxQueue, s, c);
    }
    if q :| q in t.publishers && t.publishers[q].Parked? {
      assert q in s.publishers && s.publishers[q].Parked?;
    }
  }

  lemma StepKeeps(maxQueue: int, s: State, a: Action)
    requires Inv(maxQueue, s) && Enabled(s, a)
    ensures Inv(maxQueue, Next(maxQueue, s, a))
  {
    match a
    case Add(c) => AddKeeps(maxQueue, s, c);
    case Del(c) => DelKeeps(maxQueue, s, c);
    case Check(c) => CheckKeeps(maxQueue, s, c);
    case Handle(c) => HandleKeeps(maxQueue, s, c);
    case Finish(c) => FinishKeeps(maxQueue, s, c);
    case Publish(p, ev) => PublishKeeps(maxQueue, s, p, ev);
    case Attempt(p) => AttemptKeeps(maxQueue, s, p);
  }

  // ----- whole runs

  /** Step i of a run. */
  ghost predicate Takes(maxQueue: int, states: seq<State>, actions: seq<Action>, i: int)
    requires 0 <= i < |actions| < |states|
  {
    Enabled(states[i], actions[i]) && states[i + 1] == Next(maxQueue, states[i], actions[i])
  }

  ghost predicate Run(maxQueue: int, states: seq<State>, actions: seq<Action>) {
    && |states| == |actions| + 1 && states[0] == INITIAL
    && forall i | 0 <= i < |actions| :: Takes(maxQueue, states, actions, i)
  }

  lemma {:induction false} RunKeeps(maxQueue: int, states: seq<State>, actions: seq<Action>, i: nat)
    requires Run(maxQueue, states, actions) && i < |states|
    ensures Inv(maxQueue, states[i])
  {
    if i > 0 {
      RunKeeps(maxQueue, states, actions, i - 1);
      assert Takes(maxQueue, states, actions, i - 1);
      StepKeeps(maxQueue, states[i - 1], actions[i - 1]);
    }
  }

  /** A consumer has handled a prefix of the events committed while it was subscribed, the rest waits in its two
      buffers in order, and it returns only after handling them all. */
  lemma DeliveredInOrder(maxQueue: int, states: seq<State>, actions: seq<Action>, i: nat, c: ConsumerId)
    requires Run(maxQueue, states, actions) && i < |states| && c in states[i].consumers
    ensures var s, x := states[i], states[i].consumers[c];
            && x.joined <= |s.committed| && (x.left.Some? ==> x.joined <= x.left.value <= |s.committed|)
            && x.handled + x.pending + x.queue == Due(s.committed, x)
            && (x.pc == Returned ==> x.left.Some? && x.handled == s.committed[x.joined..x.left.value])
            && (x.pc == Asleep && !x.stop ==> x.handled == s.committed[x.joined..])
  {
    RunKeeps(maxQueue, states, actions, i);
    assert ConsumerOk(maxQueue, states[i], c);
  }

  /** Nothing moves a window that is set, and committed events stay. */
  lemma WindowStays(maxQueue: int, s: State, a: Action, c: ConsumerId)
    requires Inv(maxQueue, s) && Enabled(s, a) && c in s.consumers
    ensures var t := Next(maxQueue, s, a);
            && s.committed <= t.committed && c in t.consumers
            && t.consumers[c].joined == s.consumers[c].joined
            && (a != Del(c) || s.consumers[c].stop ==> t.consumers[c].left == s.consumers[c].left)
  {
    assert ConsumerOk(maxQueue, s, c);
  }

  /** No queue ever holds more than maxQueue events. */
  lemma QueuesBounded(maxQueue: int, states: seq<State>, actions: seq<Action>, i: nat, c: ConsumerId)
    requires Run(maxQueue, states, actions) && i < |states| && c in states[i].consumers
    ensures states[i].consumers[c].queue == [] || |states[i].consumers[c].queue| <= maxQueue
  {
    RunKeeps(maxQueue, states, actions, i);
    assert ConsumerOk(maxQueue, states[i], c);
  }

  /** A parked consumer has nothing to do. */
  lemma SleepersAreIdle(maxQueue: int, states: seq<State>, actions: seq<Action>, i: nat, c: ConsumerId)
    requires Run(maxQueue, states, actions) && i < |states|
    requires c in states[i].consumers && states[i].consumers[c].pc == Asleep
    ensures states[i].consumers[c].queue == [] && states[i].consumers[c].pending == []
  {
    RunKeeps(maxQueue, states, actions, i);
    assert ConsumerOk(maxQueue, states[i], c);
  }

  ghost predicate Stranded(s: State) {
    (exists p :: p in s.publishers && s.publishers[p].Parked?) && !SomeoneBusy(s)
  }

  /** A publisher can be left parked with nobody awake to wake it exactly when the limit is not positive. */
  lemma StrandedIffNoRoom(maxQueue: int)
    ensures (exists states, actions :: Run(maxQueue, states, actions) && Stranded(states[|states| - 1]))
            <==> maxQueue <= 0
  {
    if maxQueue <= 0 {
      NoRoomStrands(maxQueue);
    } else {
      forall states, actions | Run(maxQueue, states, actions) ensures !Stranded(states[|states| - 1]) {
        RunKeeps(maxQueue, states, actions, |states| - 1);
      }
    }
  }

  /** Without room the first publisher parks with nobody awake to wake it, even with no subscribers. */
  lemma NoRoomStrands(maxQueue: int)
    requires maxQueue <= 0
    ensures exists states, actions :: Run(maxQueue, states, actions) && Stranded(states[|states| - 1])
  {
    var actions := [Publish(0, 7), Attempt(0)];
    var one := Next(maxQueue, INITIAL, actions[0]);
    var two := Next(maxQueue, one, actions[1]);
    var states := [INITIAL, one, two];
    assert two.publishers[0].Parked?;
    assert Takes(maxQueue, states, actions, 0) && Takes(maxQueue, states, actions, 1);
    assert Run(maxQueue, states, actions) && Stranded(states[|states| - 1]);
  }

  /** How many of its own steps a busy consumer is from its broadcast, at most. */
  function ToBroadcast(x: Consumer): nat {
    if x.pc == Handling then |x.pending| + 1 else |x.queue| + 2
  }

  /** A busy consumer can always step, and each of its steps brings it closer to a broadcast or is the broadcast,
      after which no publisher is parked. */
  lemma BusyConsumerWakesPublishers(maxQueue: int, s: State, c: ConsumerId) returns (a: Action)
    requires Inv(maxQueue, s) && c in s.consumers && Busy(s.consumers[c])
    ensures a == Check(c) || a == Handle(c) || a == Finish(c)
    ensures Enabled(s, a)
    ensures var t := Next(maxQueue, s, a);
            if a == Finish(c) then forall p | p in t.publishers :: !t.publishers[p].Parked?
            else Busy(t.consumers[c]) && ToBroadcast(t.consumers[c]) < ToBroadcast(s.consumers[c])
  {
    var x := s.consumers[c];
    a := if x.pc == Checking then Check(c) else if x.pending != [] then Handle(c) else Finish(c);
  }
}
