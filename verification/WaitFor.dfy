/** Waiting for an entity: subscribe, then count, then read events, while any number of callback
    threads insert into the cache and then broadcast. No declaration is missed. */
module WaitForProtocol {
  import opened Basics
  import opened Keyexpr
  import opened GraphCaches

  type WaiterId = nat

  datatype Phase = Subscribed | Receiving | Resolved

  datatype Waiter = Waiter(kind: EntityKind, topic: string, phase: Phase, queue: seq<GraphEvent>)

  /** `broadcasts`: events of callback threads that have changed the cache and are about to take
      the lock on the subscriber list. */
  datatype State = State(cache: Cache, broadcasts: multiset<GraphEvent>, waiters: map<WaiterId, Waiter>)

  datatype Step =
    | ChangeCache(sample: Sample)     // a callback: the insertion or removal
    | Broadcast(event: GraphEvent)    // ... and its broadcast, to all subscribers at once
    | Subscribe(id: WaiterId, kind: EntityKind, topic: string)
    | Count(id: WaiterId)
    | ReceiveEvent(id: WaiterId)
    | Drop(id: WaiterId)

  const INITIAL := State(map[], multiset{}, map[])

  predicate Announces(e: GraphEvent, kind: EntityKind, topic: string) {
    e.EntityDeclared? && e.entity.kind == kind && e.entity.name == Some(topic)
  }

  predicate InPhase(s: State, id: WaiterId, phase: Phase) {
    id in s.waiters && s.waiters[id].phase == phase
  }

  predicate Enabled(s: State, a: Step) {
    match a
    case ChangeCache(_) => true
    case Broadcast(e) => e in s.broadcasts
    case Subscribe(id, _, _) => id !in s.waiters
    case Count(id) => InPhase(s, id, Subscribed)
    case ReceiveEvent(id) => InPhase(s, id, Receiving) && s.waiters[id].queue != []
    case Drop(id) => id in s.waiters
  }

  function OnTopicKeys(s: State, w: Waiter): set<string> {
    set k | k in s.cache && OnTopic(s.cache[k], w.kind, w.topic)
  }

  function Next(s: State, a: Step): State
    requires Enabled(s, a)
  {
    match a
    case ChangeCache(sample) =>
      s.(cache := Apply(s.cache, sample), broadcasts := s.broadcasts + multiset(Announce(s.cache, sample)))
    case Broadcast(e) =>
      s.(broadcasts := s.broadcasts - multiset{e},
         waiters := map id | id in s.waiters :: s.waiters[id].(queue := s.waiters[id].queue + [e]))
    case Subscribe(id, kind, topic) =>
      s.(waiters := s.waiters[id := Waiter(kind, topic, Subscribed, [])])
    case Count(id) =>
      var w := s.waiters[id];
      s.(waiters := s.waiters[id := w.(phase := if |OnTopicKeys(s, w)| > 0 then Resolved else Receiving)])
    case ReceiveEvent(id) =>
      var w := s.waiters[id];
      var phase := if Announces(w.queue[0], w.kind, w.topic) then Resolved else Receiving;
      s.(waiters := s.waiters[id := w.(phase := phase, queue := w.queue[1..])])
    case Drop(id) => s.(waiters := s.waiters - {id})
  }

  ghost predicate IsRun(trace: seq<State>, steps: seq<Step>) {
    && |trace| == |steps| + 1
    && trace[0] == INITIAL
    && forall i :: 0 <= i < |steps| ==> Enabled(trace[i], steps[i]) && trace[i + 1] == Next(trace[i], steps[i])
  }

  /** The declaration of an entity on the waiter's topic is on its way to the waiter. */
  ghost predicate Coming(s: State, w: Waiter) {
    || (exists e :: e in w.queue && Announces(e, w.kind, w.topic))
    || (exists e :: e in s.broadcasts && Announces(e, w.kind, w.topic))
  }

  ghost predicate WaiterInv(s: State, w: Waiter) {
    w.phase.Receiving? && OnTopicKeys(s, w) != {} ==> Coming(s, w)
  }

  ghost predicate Inv(s: State) {
    forall id :: id in s.waiters ==> WaiterInv(s, s.waiters[id])
  }

  /** A new entity on the topic is announced by the callback that inserted it. */
  lemma InsertionIsComing(s: State, sample: Sample, w: Waiter)
    requires WaiterInv(s, w)
    ensures WaiterInv(Next(s, ChangeCache(sample)), w)
  {
    var t := Next(s, ChangeCache(sample));
    if w.phase.Receiving? && OnTopicKeys(t, w) != {} {
      if OnTopicKeys(s, w) != {} {
        if e :| e in s.broadcasts && Announces(e, w.kind, w.topic) {
          assert e in t.broadcasts;
        }
      } else {
        var k :| k in OnTopicKeys(t, w);
        assert sample == Put(k) by {
          assert k !in OnTopicKeys(s, w);
        }
        var e := EntityDeclared(Entity(t.cache[k]));
        assert Announce(s.cache, sample) == [e];
        assert e in t.broadcasts && Announces(e, w.kind, w.topic);
      }
    }
  }

  lemma BroadcastArrives(s: State, e: GraphEvent, w: Waiter)
    requires WaiterInv(s, w) && e in s.broadcasts
    ensures WaiterInv(Next(s, Broadcast(e)), w.(queue := w.queue + [e]))
  {
    var t, v := Next(s, Broadcast(e)), w.(queue := w.queue + [e]);
    assert OnTopicKeys(t, v) == OnTopicKeys(s, w);
    if x :| x in w.queue && Announces(x, w.kind, w.topic) {
      assert x in v.queue;
    } else if x :| x in s.broadcasts && Announces(x, w.kind, w.topic) {
      assert x in v.queue || x in t.broadcasts;
    }
  }

  lemma ReceivingKeepsComing(s: State, id: WaiterId)
    requires Enabled(s, ReceiveEvent(id)) && WaiterInv(s, s.waiters[id])
    ensures WaiterInv(Next(s, ReceiveEvent(id)), Next(s, ReceiveEvent(id)).waiters[id])
  {
    var w, t := s.waiters[id], Next(s, ReceiveEvent(id));
    var v := t.waiters[id];
    assert OnTopicKeys(t, v) == OnTopicKeys(s, w);
    assert w.queue == [w.queue[0]] + v.queue;
    if x :| x in w.queue && Announces(x, w.kind, w.topic) {
      assert x == w.queue[0] || x in v.queue;
    }
  }

  lemma StepKeepsInv(s: State, a: Step)
    requires Inv(s) && Enabled(s, a)
    ensures Inv(Next(s, a))
  {
    var t := Next(s, a);
    forall id | id in t.waiters ensures WaiterInv(t, t.waiters[id]) {
      if a.ChangeCache? {
        InsertionIsComing(s, a.sample, s.waiters[id]);
      } else if a.Broadcast? {
        BroadcastArrives(s, a.event, s.waiters[id]);
      } else if a == ReceiveEvent(id) {
        ReceivingKeepsComing(s, id);
      } else if id in s.waiters {
        assert OnTopicKeys(t, t.waiters[id]) == OnTopicKeys(s, s.waiters[id]);
        assert WaiterInv(s, s.waiters[id]);
      }
    }
  }

  lemma {:induction false} RunKeepsInv(trace: seq<State>, steps: seq<Step>, i: nat)
    requires IsRun(trace, steps) && i < |trace|
    ensures Inv(trace[i])
  {
    if i > 0 {
      RunKeepsInv(trace, steps, i - 1);
      StepKeepsInv(trace[i - 1], steps[i - 1]);
      assert trace[i - 1 + 1] == Next(trace[i - 1], steps[i - 1]);
    }
  }

  /** No missed declaration: in every state of every interleaving, when all callbacks are idle, a
      waiter blocked on its empty stream has no entity of its kind and topic in the cache. */
  lemma NoMissedDeclaration(trace: seq<State>, steps: seq<Step>, i: nat, id: WaiterId)
    requires IsRun(trace, steps) && i < |trace|
    requires trace[i].broadcasts == multiset{} && InPhase(trace[i], id, Receiving) && trace[i].waiters[id].queue == []
    ensures OnTopicKeys(trace[i], trace[i].waiters[id]) == {}
  {
    RunKeepsInv(trace, steps, i);
    assert WaiterInv(trace[i], trace[i].waiters[id]);
  }

  // ---------------------------------------------------------------------------------------
  // The other half: a waiter does not resolve without a cause

  ghost predicate Seen(trace: seq<State>, i: nat, kind: EntityKind, topic: string)
    requires i < |trace|
  {
    exists j, k :: 0 <= j <= i && k in trace[j].cache && OnTopic(trace[j].cache[k], kind, topic)
  }

  ghost predicate EventSeen(trace: seq<State>, i: nat, e: GraphEvent)
    requires i < |trace|
  {
    e.EntityDeclared? && e.entity.name.Some? ==> Seen(trace, i, e.entity.kind, e.entity.name.value)
  }

  ghost predicate AllSeen(trace: seq<State>, i: nat)
    requires i < |trace|
  {
    && (forall e :: e in trace[i].broadcasts ==> EventSeen(trace, i, e))
    && (forall id, e :: id in trace[i].waiters && e in trace[i].waiters[id].queue ==> EventSeen(trace, i, e))
    && (forall id :: id in trace[i].waiters && trace[i].waiters[id].phase.Resolved? ==>
          Seen(trace, i, trace[i].waiters[id].kind, trace[i].waiters[id].topic))
  }

  lemma EventSeenLater(trace: seq<State>, i: nat, e: GraphEvent)
    requires 0 < i < |trace| && EventSeen(trace, i - 1, e)
    ensures EventSeen(trace, i, e)
  {
  }

  lemma AnnouncedIsSeen(trace: seq<State>, i: nat, sample: Sample, e: GraphEvent)
    requires 0 < i < |trace| && trace[i].cache == Apply(trace[i - 1].cache, sample)
    requires e in Announce(trace[i - 1].cache, sample)
    ensures EventSeen(trace, i, e)
  {
    if e.EntityDeclared? && e.entity.name.Some? {
      assert sample.key in trace[i].cache && OnTopic(trace[i].cache[sample.key], e.entity.kind, e.entity.name.value);
    }
  }

  lemma BroadcastsSeen(trace: seq<State>, steps: seq<Step>, i: nat, e: GraphEvent)
    requires IsRun(trace, steps) && 0 < i < |trace| && AllSeen(trace, i - 1) && e in trace[i].broadcasts
    ensures EventSeen(trace, i, e)
  {
    var s, a := trace[i - 1], steps[i - 1];
    assert trace[i - 1 + 1] == Next(s, a);
    if e in s.broadcasts {
      EventSeenLater(trace, i, e);
    } else {
      AnnouncedIsSeen(trace, i, a.sample, e);
    }
  }

  lemma QueuedSeen(trace: seq<State>, steps: seq<Step>, i: nat, id: WaiterId, e: GraphEvent)
    requires IsRun(trace, steps) && 0 < i < |trace| && AllSeen(trace, i - 1)
    requires id in trace[i].waiters && e in trace[i].waiters[id].queue
    ensures EventSeen(trace, i, e)
  {
    var s, a := trace[i - 1], steps[i - 1];
    assert trace[i - 1 + 1] == Next(s, a);
    assert (id in s.waiters && e in s.waiters[id].queue) || e in s.broadcasts;
    EventSeenLater(trace, i, e);
  }

  lemma {:induction false} RunKeepsAllSeen(trace: seq<State>, steps: seq<Step>, i: nat)
    requires IsRun(trace, steps) && i < |trace|
    ensures AllSeen(trace, i)
  {
    if i > 0 {
      RunKeepsAllSeen(trace, steps, i - 1);
      forall e | e in trace[i].broadcasts ensures EventSeen(trace, i, e) {
        BroadcastsSeen(trace, steps, i, e);
      }
      forall id, e | id in trace[i].waiters && e in trace[i].waiters[id].queue ensures EventSeen(trace, i, e) {
        QueuedSeen(trace, steps, i, id, e);
      }
      forall id | id in trace[i].waiters && trace[i].waiters[id].phase.Resolved?
        ensures Seen(trace, i, trace[i].waiters[id].kind, trace[i].waiters[id].topic)
      {
        ResolvedIsSeen(trace, steps, i, id);
      }
    }
  }

  lemma ResolvedIsSeen(trace: seq<State>, steps: seq<Step>, i: nat, id: WaiterId)
    requires IsRun(trace, steps) && 0 < i < |trace| && AllSeen(trace, i - 1)
    requires InPhase(trace[i], id, Resolved)
    ensures Seen(trace, i, trace[i].waiters[id].kind, trace[i].waiters[id].topic)
  {
    var s, a := trace[i - 1], steps[i - 1];
    assert trace[i - 1 + 1] == Next(s, a);
    var w := s.waiters[id];
    if a == Count(id) {
      var k :| k in OnTopicKeys(s, w);
      assert k in trace[i - 1].cache;
    } else if a == ReceiveEvent(id) {
      assert w.queue[0] in w.queue;
      assert EventSeen(trace, i - 1, w.queue[0]);
    } else {
      assert Seen(trace, i - 1, w.kind, w.topic);
    }
  }

  /** A waiter resolves only if an entity of its kind and topic has been in the cache. */
  lemma ResolvedOnlyIfSeen(trace: seq<State>, steps: seq<Step>, i: nat, id: WaiterId)
    requires IsRun(trace, steps) && i < |trace| && InPhase(trace[i], id, Resolved)
    ensures exists j, k :: 0 <= j <= i && k in trace[j].cache
              && OnTopic(trace[j].cache[k], trace[i].waiters[id].kind, trace[i].waiters[id].topic)
  {
    RunKeepsAllSeen(trace, steps, i);
  }
}
