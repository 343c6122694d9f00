/** What becomes of every published event. */
module EventPublishing {
  import opened EventDispatch

  /** The publishers that still hold an event, parked or not. */
  function Holders(ps: map<PublisherId, Publisher>, ev: Event): set<PublisherId> {
    set p | p in ps && ps[p].event == ev
  }

  /** The Publish actions taken with an event. */
  function Publications(actions: seq<Action>, ev: Event): set<int> {
    set k | 0 <= k < |actions| && actions[k].Publish? && actions[k].event == ev
  }

  // ----- one attempt

  /** Some subscriber's queue is at the limit, or the limit leaves no room at all. */
  ghost predicate Full(maxQueue: int, s: State) {
    maxQueue <= 0 || exists c :: c in s.subs && c in s.consumers && |s.consumers[c].queue| >= maxQueue
  }

  /** Every subscriber gets the event behind its queue, nobody loses anything, and nobody is left asleep. */
  ghost predicate Reaches(before: map<ConsumerId, Consumer>, after: map<ConsumerId, Consumer>, subs: seq<ConsumerId>,
                          ev: Event) {
    && after.Keys == before.Keys
    && forall c | c in before ::
         && after[c].queue == before[c].queue + (if c in subs then [ev] else [])
         && after[c].pending == before[c].pending && after[c].handled == before[c].handled
         && after[c].pc == if before[c].pc == Asleep then Checking else before[c].pc
  }

  /** A publisher that is awake can always try. It parks exactly if there is no room, and then nothing else happens;
      otherwise its event is committed, reaches every subscriber, and the publisher is done. */
  lemma AttemptDecides(maxQueue: int, s: State, p: PublisherId)
    requires Inv(maxQueue, s) && p in s.publishers && s.publishers[p].Waiting?
    ensures Enabled(s, Attempt(p))
    ensures var t, ev := Next(maxQueue, s, Attempt(p)), s.publishers[p].event;
            if Full(maxQueue, s) then t == s.(publishers := s.publishers[p := Parked(ev)])
            else
              && t.committed == s.committed + [ev] && t.subs == s.subs
              && Reaches(s.consumers, t.consumers, s.subs, ev)
              && t.publishers.Keys == s.publishers.Keys - {p}
              && forall q | q in t.publishers :: t.publishers[q] == Waiting(s.publishers[q].event)
  {
    FullIffLongest(maxQueue, s);
    CommitReaches(s.(publishers := s.publishers - {p}), s.publishers[p].event);
  }

  lemma FullIffLongest(maxQueue: int, s: State)
    requires Subscribed(s)
    ensures Full(maxQueue, s) <==> MaxLen(s, s.subs) >= maxQueue
  {
    MaxLenBounds(s, s.subs);
  }

  lemma CommitReaches(s: State, ev: Event)
    ensures var t := Wake(Commit(s, ev));
            && t.committed == s.committed + [ev] && t.subs == s.subs && Reaches(s.consumers, t.consumers, s.subs, ev)
            && t.publishers.Keys == s.publishers.Keys
            && forall q | q in t.publishers :: t.publishers[q] == Waiting(s.publishers[q].event)
  {
  }

  // ----- no event is lost, none is made up

  /** Commits come from attempts alone, and a publisher is done exactly when its own event has been committed. */
  lemma LeavesWhenCommitted(maxQueue: int, states: seq<State>, actions: seq<Action>, i: nat, p: PublisherId)
    requires Run(maxQueue, states, actions) && i < |actions| && p in states[i].publishers
    ensures p !in states[i + 1].publishers <==>
            actions[i] == Attempt(p) && states[i + 1].committed == states[i].committed + [states[i].publishers[p].event]
    ensures actions[i] != Attempt(p) && p in states[i + 1].publishers ==>
              states[i + 1].publishers[p].event == states[i].publishers[p].event
    ensures !actions[i].Attempt? ==> states[i + 1].committed == states[i].committed
  {
    RunKeeps(maxQueue, states, actions, i);
    assert Takes(maxQueue, states, actions, i);
    if actions[i].Attempt? { AttemptDecides(maxQueue, states[i], actions[i].p); }
  }

  /** How often an event is committed or held. */
  ghost function Alive(s: State, ev: Event): nat {
    multiset(s.committed)[ev] + |Holders(s.publishers, ev)|
  }

  /** One step keeps committed and held events together, but for what is published in it. */
  lemma StepConserves(maxQueue: int, s: State, a: Action, ev: Event)
    requires Inv(maxQueue, s) && Enabled(s, a)
    ensures Alive(Next(maxQueue, s, a), ev) == Alive(s, ev) + if a.Publish? && a.event == ev then 1 else 0
  {
    match a
    case Publish(p, e) => PublishConserves(maxQueue, s, p, e, ev);
    case Attempt(p) => AttemptConserves(maxQueue, s, p, ev);
    case _ =>
      ListenersConserve(maxQueue, s, a);
      HoldersSame(s.publishers, Next(maxQueue, s, a).publishers, ev);
  }

  lemma ListenersConserve(maxQueue: int, s: State, a: Action)
    requires Enabled(s, a) && !a.Publish? && !a.Attempt?
    ensures var t := Next(maxQueue, s, a);
            && t.committed == s.committed && t.publishers.Keys == s.publishers.Keys
            && forall p | p in s.publishers :: t.publishers[p].event == s.publishers[p].event
  {
  }

  lemma HoldersSame(a: map<PublisherId, Publisher>, b: map<PublisherId, Publisher>, ev: Event)
    requires a.Keys == b.Keys && forall p | p in a :: b[p].event == a[p].event
    ensures Holders(a, ev) == Holders(b, ev)
  {
  }

  lemma PublishConserves(maxQueue: int, s: State, p: PublisherId, e: Event, ev: Event)
    requires Enabled(s, Publish(p, e))
    ensures Alive(Next(maxQueue, s, Publish(p, e)), ev) == Alive(s, ev) + if e == ev then 1 else 0
  {
    var t := Next(maxQueue, s, Publish(p, e));
    assert Holders(t.publishers, ev) == Holders(s.publishers, ev) + if e == ev then {p} else {};
  }

  lemma AttemptConserves(maxQueue: int, s: State, p: PublisherId, ev: Event)
    requires Inv(maxQueue, s) && Enabled(s, Attempt(p))
    ensures Alive(Next(maxQueue, s, Attempt(p)), ev) == Alive(s, ev)
  {
    var t, e := Next(maxQueue, s, Attempt(p)), s.publishers[p].event;
    AttemptDecides(maxQueue, s, p);
    if Full(maxQueue, s) {
      assert Holders(t.publishers, ev) == Holders(s.publishers, ev);
    } else {
      assert Holders(s.publishers, ev) == Holders(t.publishers, ev) + if e == ev then {p} else {};
    }
  }

  /** In every run an event has been committed or is still held exactly as often as it has been published. */
  lemma {:induction false} NothingLost(maxQueue: int, states: seq<State>, actions: seq<Action>, i: nat, ev: Event)
    requires Run(maxQueue, states, actions) && i < |states|
    ensures multiset(states[i].committed)[ev] + |Holders(states[i].publishers, ev)| == |Publications(actions[..i], ev)|
  {
    if i > 0 {
      NothingLost(maxQueue, states, actions, i - 1, ev);
      RunKeeps(maxQueue, states, actions, i - 1);
      assert Takes(maxQueue, states, actions, i - 1);
      StepConserves(maxQueue, states[i - 1], actions[i - 1], ev);
      PublicationsNext(actions, i - 1, ev);
    }
  }

  lemma PublicationsNext(actions: seq<Action>, i: nat, ev: Event)
    requires i < |actions|
    ensures |Publications(actions[..i + 1], ev)|
            == |Publications(actions[..i], ev)| + if actions[i].Publish? && actions[i].event == ev then 1 else 0
  {
    var last := if actions[i].Publish? && actions[i].event == ev then {i as int} else {};
    assert Publications(actions[..i + 1], ev) == Publications(actions[..i], ev) + last;
  }

  /** No consumer handles an event that was not published, nor one more often than it was. */
  lemma HandledWasPublished(maxQueue: int, states: seq<State>, actions: seq<Action>, i: nat, c: ConsumerId, ev: Event)
    requires Run(maxQueue, states, actions) && i < |states| && c in states[i].consumers
    ensures multiset(states[i].consumers[c].handled)[ev] <= |Publications(actions[..i], ev)|
  {
    var s, x := states[i], states[i].consumers[c];
    NothingLost(maxQueue, states, actions, i, ev);
    DeliveredInOrder(maxQueue, states, actions, i, c);
    PartOfCommitted(s.committed, x.joined, if x.left.Some? then x.left.value else |s.committed|, x, ev);
  }

  lemma PartOfCommitted(committed: seq<Event>, from: nat, to: nat, x: Consumer, ev: Event)
    requires from <= to <= |committed| && x.handled + x.pending + x.queue == committed[from..to]
    ensures multiset(x.handled)[ev] <= multiset(committed)[ev]
  {
    assert committed == committed[..from] + committed[from..to] + committed[to..];
    assert multiset(committed[from..to]) == multiset(x.handled) + multiset(x.pending) + multiset(x.queue);
  }
}
