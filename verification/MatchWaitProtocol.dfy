/** The match-wait protocol as interleaved steps of the Spinner, the application and any number
    of waiting tasks: discovery events may be dropped, but no wakeup is lost. */
module MatchWaitProtocol {
  import opened MatchTables
  import opened StatusChannels
  import opened SwapRemoval

  type ChannelId = nat

  /** Where a waiting task is in `poll`. `Suspended` is between two polls. */
  datatype Phase = Suspended | Draining | Checking | Returning | Resolved

  /** `wakePending`: the executor has been told to poll this task (again). A new future is
      polled for the first time without being woken. */
  datatype Wait = Wait(side: Side, local: Guid, phase: Phase, streamOpen: bool, wakePending: bool)

  /** `Announcing` is inside `send_status_event`, holding the lock on the sender list. */
  datatype Spinner =
    | BetweenEvents
    | Recorded(event: Event)
    | Announcing(event: Event, next: nat, closed: seq<nat>)
    | Exited

  datatype State = State(
    tables: Tables,
    senders: seq<ChannelId>,
    channels: map<ChannelId, Channel>,
    waits: map<ChannelId, Wait>, // a waiting task has the id of its channel
    spinner: Spinner,
    nodeAlive: bool)

  datatype Step =
    // the application
    | NewReceiver(id: ChannelId, capacity: nat)
    | NewWait(id: ChannelId, capacity: nat, side: Side, local: Guid)
    | Receive(id: ChannelId)
    | DropReceiver(id: ChannelId)
    | DropNode
    // a waiting task
    | StartPoll(id: ChannelId)
    | DrainOne(id: ChannelId)
    | RegisterWaker(id: ChannelId)
    | SeeHangup(id: ChannelId)
    | Check(id: ChannelId)
    | ReturnPending(id: ChannelId)
    // the Spinner
    | RecordEvent(event: Event)
    | LockSenders
    | TrySendNext
    | PruneSenders
    | ExitSpinner

  const INITIAL := State(NO_MATCHES, [], map[], map[], BetweenEvents, true)

  predicate Polling(s: State, id: ChannelId, phase: Phase) {
    id in s.waits && id in s.channels && s.waits[id].phase == phase
  }

  predicate CanSubscribe(s: State, id: ChannelId, capacity: nat) {
    // the sender list is locked while the Spinner announces
    id !in s.channels && id !in s.waits && capacity > 0 && s.nodeAlive && !s.spinner.Announcing?
  }

  ghost predicate Enabled(s: State, a: Step) {
    match a
    case NewReceiver(id, capacity) => CanSubscribe(s, id, capacity)
    case NewWait(id, capacity, _, _) => CanSubscribe(s, id, capacity)
    case Receive(id) => id in s.channels && id !in s.waits && s.channels[id].open && s.channels[id].queue != []
    case DropReceiver(id) =>
      id in s.channels && s.channels[id].open && (id in s.waits ==> s.waits[id].phase in {Suspended, Resolved})
    case DropNode => s.nodeAlive && s.spinner.Exited?
    case StartPoll(id) => Polling(s, id, Suspended)
    case DrainOne(id) => Polling(s, id, Draining) && s.channels[id].queue != []
    case RegisterWaker(id) => Polling(s, id, Draining) && s.channels[id].queue == [] && !s.channels[id].hungUp
    case SeeHangup(id) => Polling(s, id, Draining) && s.channels[id].queue == [] && s.channels[id].hungUp
    case Check(id) => Polling(s, id, Checking)
    case ReturnPending(id) => Polling(s, id, Returning)
    case RecordEvent(_) => s.spinner.BetweenEvents?
    case LockSenders => s.spinner.Recorded?
    case TrySendNext =>
      s.spinner.Announcing? && s.spinner.next < |s.senders| && s.senders[s.spinner.next] in s.channels
    case PruneSenders =>
      s.spinner.Announcing? && s.spinner.next == |s.senders| && Ascending(s.spinner.closed, |s.senders|)
    case ExitSpinner => s.spinner.BetweenEvents?
  }

  function Matched(s: State, w: Wait): bool {
    s.tables.Remotes(w.side, w.local) != {}
  }

  function SetPhase(s: State, id: ChannelId, phase: Phase): State
    requires id in s.waits
  {
    s.(waits := s.waits[id := s.waits[id].(phase := phase)])
  }

  function Subscribe(s: State, id: ChannelId, capacity: nat): State {
    s.(senders := s.senders + [id], channels := s.channels[id := Channel(capacity, [], false, true, false)])
  }

  /** All senders are dropped: every receiver sees the end of its stream and is woken. */
  function HangUp(s: State): State {
    s.(nodeAlive := false,
       senders := [],
       channels := map id | id in s.channels :: s.channels[id].(waker := false, hungUp := true),
       waits := map id | id in s.waits ::
         s.waits[id].(wakePending := s.waits[id].wakePending || (id in s.channels && s.channels[id].waker)))
  }

  /** `try_send` on the next channel of the list, remembering the position if it is closed. */
  function SendNext(s: State): State
    requires s.spinner.Announcing? && s.spinner.next < |s.senders| && s.senders[s.spinner.next] in s.channels
  {
    var Announcing(e, i, closed) := s.spinner;
    var id := s.senders[i];
    var (channel, result) := s.channels[id].TrySend(e);
    s.(channels := s.channels[id := channel],
       waits := if id in s.waits && s.channels[id].WokenBy(e)
                then s.waits[id := s.waits[id].(wakePending := true)]
                else s.waits,
       spinner := Announcing(e, i + 1, if result.Closed? then closed + [i] else closed))
  }

  ghost function Apply(s: State, a: Step): State
    requires Enabled(s, a)
  {
    match a
    case NewReceiver(id, capacity) => Subscribe(s, id, capacity)
    case NewWait(id, capacity, side, local) =>
      Subscribe(s, id, capacity).(waits := s.waits[id := Wait(side, local, Suspended, true, true)])
    case Receive(id) =>
      s.(channels := s.channels[id := s.channels[id].(queue := s.channels[id].queue[1..])])
    case DropReceiver(id) =>
      s.(channels := s.channels[id := s.channels[id].(open := false, waker := false)], waits := s.waits - {id})
    case DropNode => HangUp(s)
    case StartPoll(id) =>
      var w := s.waits[id];
      s.(waits := s.waits[id := w.(phase := if w.streamOpen then Draining else Checking, wakePending := false)])
    case DrainOne(id) =>
      s.(channels := s.channels[id := s.channels[id].(queue := s.channels[id].queue[1..])])
    case RegisterWaker(id) =>
      SetPhase(s, id, Checking).(channels := s.channels[id := s.channels[id].(waker := true)])
    case SeeHangup(id) =>
      s.(waits := s.waits[id := s.waits[id].(phase := Checking, streamOpen := false)])
    case Check(id) => SetPhase(s, id, if Matched(s, s.waits[id]) then Resolved else Returning)
    case ReturnPending(id) => SetPhase(s, id, Suspended)
    case RecordEvent(e) => s.(tables := Record(s.tables, e), spinner := Recorded(e))
    case LockSenders => s.(spinner := Announcing(s.spinner.event, 0, []))
    case TrySendNext => SendNext(s)
    case PruneSenders => s.(senders := Prune(s.senders, s.spinner.closed), spinner := BetweenEvents)
    case ExitSpinner => s.(spinner := Exited)
  }

  // ---------------------------------------------------------------------------------------
  // The invariant

  ghost predicate ChannelInv(s: State, id: ChannelId, c: Channel) {
    && c.capacity > 0
    && (c.hungUp <==> !s.nodeAlive)
    && (c.open && !c.hungUp ==> id in s.senders) // a live receiver is never pruned
  }

  ghost predicate SpinnerInv(s: State) {
    && (!s.nodeAlive ==> s.spinner.Exited?)
    && (forall i :: 0 <= i < |s.senders| ==> s.senders[i] in s.channels)
    && (s.spinner.Announcing? ==>
          && s.spinner.next <= |s.senders|
          && Ascending(s.spinner.closed, s.spinner.next)
          && forall k :: k in s.spinner.closed ==> !s.channels[s.senders[k]].open)
  }

  /** The Spinner has recorded an event and has yet to offer it to this channel. */
  ghost predicate StillToAnnounce(s: State, id: ChannelId) {
    || s.spinner.Recorded?
    || (s.spinner.Announcing? && id in s.senders[if s.spinner.next <= |s.senders| then s.spinner.next else |s.senders|..])
  }

  predicate AfterDrain(phase: Phase) {
    phase in {Checking, Returning, Suspended}
  }

  ghost predicate WaitInv(s: State, id: ChannelId, w: Wait, c: Channel) {
    && c.open
    && (w.phase.Draining? ==> w.streamOpen)
    && (!w.streamOpen ==> c.hungUp)
    // after the drain, an event in the channel means that the task will be polled again
    && (AfterDrain(w.phase) && w.streamOpen && !w.wakePending ==> c.queue == [] && c.waker && !c.hungUp)
    // after the check, so does a match in the table, or else its announcement is still to come
    && (w.phase in {Returning, Suspended} && !w.wakePending && Matched(s, w) ==> StillToAnnounce(s, id))
  }

  ghost predicate Inv(s: State) {
    && SpinnerInv(s)
    && (forall id :: id in s.channels ==> ChannelInv(s, id, s.channels[id]))
    && (forall id :: id in s.waits ==> id in s.channels && WaitInv(s, id, s.waits[id], s.channels[id]))
  }

  lemma TrySendKeepsSpinnerInv(s: State)
    requires Inv(s) && Enabled(s, TrySendNext)
    ensures SpinnerInv(SendNext(s))
  {
    var t := SendNext(s);
    forall k | k in t.spinner.closed ensures !t.channels[t.senders[k]].open {
    }
  }

  lemma TrySendKeepsWaitInv(s: State, id: ChannelId)
    requires Inv(s) && Enabled(s, TrySendNext) && id in s.waits
    ensures var t := SendNext(s); id in t.channels && WaitInv(t, id, t.waits[id], t.channels[id])
  {
    var t := SendNext(s);
    var i := s.spinner.next;
    assert WaitInv(s, id, s.waits[id], s.channels[id]) && ChannelInv(s, id, s.channels[id]);
    assert s.senders[i..] == [s.senders[i]] + s.senders[i + 1..];
    assert Matched(t, t.waits[id]) == Matched(s, s.waits[id]);
    if s.senders[i] == id {
      // a full channel has an event in it, so its task is not asleep; any other is woken now
      assert s.channels[id].TrySend(s.spinner.event).1.Full? ==> s.channels[id].queue != [];
    } else {
      assert t.waits[id] == s.waits[id] && t.channels[id] == s.channels[id];
    }
  }

  lemma TrySendKeepsInv(s: State)
    requires Inv(s) && Enabled(s, TrySendNext)
    ensures Inv(SendNext(s))
  {
    var t := SendNext(s);
    TrySendKeepsSpinnerInv(s);
    forall id | id in t.channels ensures ChannelInv(t, id, t.channels[id]) {
      assert ChannelInv(s, id, s.channels[id]);
    }
    forall id | id in t.waits ensures id in t.channels && WaitInv(t, id, t.waits[id], t.channels[id]) {
      TrySendKeepsWaitInv(s, id);
    }
  }

  lemma PruneKeepsInv(s: State)
    requires Inv(s) && Enabled(s, PruneSenders)
    ensures Inv(Apply(s, PruneSenders))
  {
    var t := Apply(s, PruneSenders);
    forall id ensures id in t.senders <==> exists k :: 0 <= k < |s.senders| && k !in s.spinner.closed && s.senders[k] == id {
      PruneMembers(s.senders, s.spinner.closed, id);
    }
    forall i | 0 <= i < |t.senders| ensures t.senders[i] in t.channels {
      assert t.senders[i] in t.senders;
    }
    assert s.senders[|s.senders|..] == [];
    forall id | id in t.channels ensures ChannelInv(t, id, t.channels[id]) {
      assert ChannelInv(s, id, s.channels[id]);
    }
    forall id | id in t.waits ensures id in t.channels && WaitInv(t, id, t.waits[id], t.channels[id]) {
      assert WaitInv(s, id, s.waits[id], s.channels[id]);
      assert Matched(t, t.waits[id]) == Matched(s, s.waits[id]);
    }
  }

  lemma SpinnerStepKeepsInv(s: State, a: Step)
    requires Inv(s) && Enabled(s, a)
    requires a.RecordEvent? || a.LockSenders? || a.ExitSpinner? || a.DropNode?
    ensures Inv(Apply(s, a))
  {
    var t := Apply(s, a);
    assert s.senders[0..] == s.senders;
    forall id | id in t.channels ensures ChannelInv(t, id, t.channels[id]) {
      assert ChannelInv(s, id, s.channels[id]);
    }
    forall id | id in t.waits ensures id in t.channels && WaitInv(t, id, t.waits[id], t.channels[id]) {
      assert WaitInv(s, id, s.waits[id], s.channels[id]);
      assert ChannelInv(s, id, s.channels[id]);
    }
  }

  lemma TaskStepKeepsInv(s: State, a: Step)
    requires Inv(s) && Enabled(s, a)
    requires a.StartPoll? || a.DrainOne? || a.RegisterWaker? || a.SeeHangup? || a.Check? || a.ReturnPending?
    ensures Inv(Apply(s, a))
  {
    var t := Apply(s, a);
    forall id | id in t.channels ensures ChannelInv(t, id, t.channels[id]) {
      assert ChannelInv(s, id, s.channels[id]);
    }
    forall id | id in t.waits ensures id in t.channels && WaitInv(t, id, t.waits[id], t.channels[id]) {
      assert WaitInv(s, id, s.waits[id], s.channels[id]);
      assert Matched(t, t.waits[id]) == Matched(s, s.waits[id]);
    }
  }

  lemma ApplicationStepKeepsInv(s: State, a: Step)
    requires Inv(s) && Enabled(s, a)
    requires a.NewReceiver? || a.NewWait? || a.Receive? || a.DropReceiver?
    ensures Inv(Apply(s, a))
  {
    var t := Apply(s, a);
    forall id | id in t.channels ensures ChannelInv(t, id, t.channels[id]) {
      if id in s.channels {
        assert ChannelInv(s, id, s.channels[id]);
      }
    }
    forall id | id in t.waits ensures id in t.channels && WaitInv(t, id, t.waits[id], t.channels[id]) {
      if id in s.waits {
        assert WaitInv(s, id, s.waits[id], s.channels[id]);
        assert Matched(t, t.waits[id]) == Matched(s, s.waits[id]);
      }
    }
  }

  lemma StepKeepsInv(s: State, a: Step)
    requires Inv(s) && Enabled(s, a)
    ensures Inv(Apply(s, a))
  {
    if a.TrySendNext? {
      TrySendKeepsInv(s);
    } else if a.PruneSenders? {
      PruneKeepsInv(s);
    } else if a.RecordEvent? || a.LockSenders? || a.ExitSpinner? || a.DropNode? {
      SpinnerStepKeepsInv(s, a);
    } else if a.NewReceiver? || a.NewWait? || a.Receive? || a.DropReceiver? {
      ApplicationStepKeepsInv(s, a);
    } else {
      TaskStepKeepsInv(s, a);
    }
  }

  // ---------------------------------------------------------------------------------------
  // Safety over whole runs

  /** `trace` is a run of the protocol: any interleaving of enabled steps. */
  ghost predicate IsRun(trace: seq<State>, steps: seq<Step>) {
    && |trace| == |steps| + 1
    && trace[0] == INITIAL
    && forall i :: 0 <= i < |steps| ==> Enabled(trace[i], steps[i]) && trace[i + 1] == Apply(trace[i], steps[i])
  }

  lemma {:induction false} RunKeepsInv(trace: seq<State>, steps: seq<Step>, i: nat)
    requires IsRun(trace, steps) && i < |trace|
    ensures Inv(trace[i])
  {
    if i > 0 {
      RunKeepsInv(trace, steps, i - 1);
      StepKeepsInv(trace[i - 1], steps[i - 1]);
      assert trace[i - 1 + 1] == Apply(trace[i - 1], steps[i - 1]);
    }
  }

  /** A waiting task is asleep: it is suspended and nothing will poll it. */
  predicate Asleep(s: State, id: ChannelId) {
    id in s.waits && s.waits[id].phase.Suspended? && !s.waits[id].wakePending
  }

  /** No lost wakeup. In every state of every run, whatever was dropped: while the Spinner is
      between events (or gone), a task that is asleep has no matched remote. */
  lemma NoLostWakeup(trace: seq<State>, steps: seq<Step>, i: nat, id: ChannelId)
    requires IsRun(trace, steps) && i < |trace|
    requires trace[i].spinner.BetweenEvents? || trace[i].spinner.Exited?
    requires Asleep(trace[i], id)
    ensures trace[i].tables.Remotes(trace[i].waits[id].side, trace[i].waits[id].local) == {}
  {
    RunKeepsInv(trace, steps, i);
  }

  /** After the drain, an event in a channel implies a pending wake. */
  lemma QueuedEventWakes(trace: seq<State>, steps: seq<Step>, i: nat, id: ChannelId)
    requires IsRun(trace, steps) && i < |trace|
    requires id in trace[i].waits && id in trace[i].channels && trace[i].channels[id].queue != []
    requires AfterDrain(trace[i].waits[id].phase) && trace[i].waits[id].streamOpen
    ensures trace[i].waits[id].wakePending
  {
    RunKeepsInv(trace, steps, i);
  }

  /** Pruning never drops the sender of a receiver that is still there: while the node lives,
      every open channel is in the list, so it is offered every later event. */
  lemma LiveReceiverStaysSubscribed(trace: seq<State>, steps: seq<Step>, i: nat, id: ChannelId)
    requires IsRun(trace, steps) && i < |trace|
    requires id in trace[i].channels && trace[i].channels[id].open && trace[i].nodeAlive
    ensures id in trace[i].senders
  {
    RunKeepsInv(trace, steps, i);
  }

  /** An announcement always can go on: every index it uses is in bounds. */
  lemma AnnouncementNeverStuck(trace: seq<State>, steps: seq<Step>, i: nat)
    requires IsRun(trace, steps) && i < |trace| && trace[i].spinner.Announcing?
    ensures Enabled(trace[i], TrySendNext) || Enabled(trace[i], PruneSenders)
  {
    RunKeepsInv(trace, steps, i);
  }

  // ---------------------------------------------------------------------------------------
  // What a receiver hears

  /** The discovery events of the first `i` steps, in order. */
  ghost function EventsSoFar(steps: seq<Step>, i: nat): seq<Event>
    requires i <= |steps|
  {
    if i == 0 then []
    else if steps[i - 1].RecordEvent? then EventsSoFar(steps, i - 1) + [steps[i - 1].event]
    else EventsSoFar(steps, i - 1)
  }

  /** The event that came last. */
  ghost function LastEvent(steps: seq<Step>, i: nat): Event
    requires i <= |steps|
  {
    if i == 0 then OtherEvent
    else if steps[i - 1].RecordEvent? then steps[i - 1].event
    else LastEvent(steps, i - 1)
  }

  /** The events whose announcement began while the channel was there. */
  ghost function Announced(trace: seq<State>, steps: seq<Step>, id: ChannelId, i: nat): seq<Event>
    requires i <= |steps| < |trace|
  {
    if i == 0 then []
    else if steps[i - 1].LockSenders? && id in trace[i - 1].channels then
      Announced(trace, steps, id, i - 1) + [LastEvent(steps, i - 1)]
    else Announced(trace, steps, id, i - 1)
  }

  /** The step offers an event to the channel. */
  ghost predicate OfferedTo(s: State, a: Step, id: ChannelId) {
    a.TrySendNext? && Enabled(s, a) && s.senders[s.spinner.next] == id
  }

  /** The events offered to the channel, each with whether there was room for it. */
  ghost function Offers(trace: seq<State>, steps: seq<Step>, id: ChannelId, i: nat): seq<(Event, bool)>
    requires i <= |steps| < |trace|
  {
    if i == 0 then []
    else
      var s, before := trace[i - 1], Offers(trace, steps, id, i - 1);
      if OfferedTo(s, steps[i - 1], id) then
        before + [(s.spinner.event, s.channels[id].open && |s.channels[id].queue| < s.channels[id].capacity)]
      else before
  }

  ghost function EventsOf(offers: seq<(Event, bool)>): seq<Event> {
    if offers == [] then [] else EventsOf(offers[..|offers| - 1]) + [offers[|offers| - 1].0]
  }

  /** Those for which there was room. */
  ghost function Kept(offers: seq<(Event, bool)>): seq<Event> {
    if offers == [] then []
    else if offers[|offers| - 1].1 then Kept(offers[..|offers| - 1]) + [offers[|offers| - 1].0]
    else Kept(offers[..|offers| - 1])
  }

  /** The events that were taken out of the channel. */
  ghost function Taken(trace: seq<State>, steps: seq<Step>, id: ChannelId, i: nat): seq<Event>
    requires i <= |steps| < |trace|
  {
    if i == 0 then []
    else
      var s, a, before := trace[i - 1], steps[i - 1], Taken(trace, steps, id, i - 1);
      if (a.Receive? || a.DrainOne?) && a.id == id && id in s.channels && s.channels[id].queue != [] then
        before + [s.channels[id].queue[0]]
      else before
  }

  ghost predicate Heard(trace: seq<State>, steps: seq<Step>, id: ChannelId, i: nat)
    requires i <= |steps| < |trace|
  {
    if id in trace[i].channels
    then Taken(trace, steps, id, i) + trace[i].channels[id].queue == Kept(Offers(trace, steps, id, i))
    else Taken(trace, steps, id, i) == [] && Offers(trace, steps, id, i) == []
  }

  /** What one step does to the queue of a channel. */
  lemma QueueStep(s: State, a: Step, id: ChannelId)
    requires Enabled(s, a) && id in s.channels
    ensures var t := Apply(s, a);
            var q := s.channels[id].queue;
            && id in t.channels
            && t.channels[id].queue ==
                 if (a.Receive? || a.DrainOne?) && a.id == id then q[1..]
                 else if OfferedTo(s, a, id) && s.channels[id].open && |q| < s.channels[id].capacity
                 then q + [s.spinner.event]
                 else q
  {
  }

  lemma NewChannelStep(s: State, a: Step, id: ChannelId)
    requires Enabled(s, a) && id !in s.channels && id in Apply(s, a).channels
    ensures Apply(s, a).channels[id].queue == [] && !OfferedTo(s, a, id)
  {
  }

  lemma {:induction false} RunKeepsHeard(trace: seq<State>, steps: seq<Step>, id: ChannelId, i: nat)
    requires IsRun(trace, steps) && i <= |steps|
    ensures Heard(trace, steps, id, i)
  {
    if i > 0 {
      RunKeepsHeard(trace, steps, id, i - 1);
      var s, a := trace[i - 1], steps[i - 1];
      assert trace[i - 1 + 1] == Apply(s, a);
      var before := Offers(trace, steps, id, i - 1);
      if id in s.channels {
        QueueStep(s, a, id);
        if OfferedTo(s, a, id) {
          assert Offers(trace, steps, id, i)[..|before|] == before;
        } else if (a.Receive? || a.DrainOne?) && a.id == id {
          var q, taken := s.channels[id].queue, Taken(trace, steps, id, i - 1);
          assert Taken(trace, steps, id, i) == taken + [q[0]];
          assert taken + [q[0]] + q[1..] == taken + q;
        }
      } else if id in trace[i].channels {
        NewChannelStep(s, a, id);
      }
    }
  }

  ghost predicate SendersDistinct(s: State) {
    forall i, j :: 0 <= i < j < |s.senders| ==> s.senders[i] != s.senders[j]
  }

  /** The Spinner is announcing and has yet to come to this channel. */
  ghost predicate Awaiting(s: State, id: ChannelId) {
    s.spinner.Announcing? && s.spinner.next <= |s.senders| && id in s.senders[s.spinner.next..]
  }

  /** The event that the Spinner is busy with is the last one. */
  ghost predicate BusyWithLast(s: State, steps: seq<Step>, i: nat)
    requires i <= |steps|
  {
    s.spinner.Recorded? || s.spinner.Announcing? ==> s.spinner.event == LastEvent(steps, i)
  }

  ghost predicate OffersInv(trace: seq<State>, steps: seq<Step>, id: ChannelId, i: nat)
    requires i <= |steps| < |trace|
  {
    var s := trace[i];
    if id !in s.channels then Announced(trace, steps, id, i) == [] && Offers(trace, steps, id, i) == []
    else s.channels[id].open && s.nodeAlive ==>
      EventsOf(Offers(trace, steps, id, i)) + (if Awaiting(s, id) then [s.spinner.event] else [])
      == Announced(trace, steps, id, i)
  }

  lemma StepKeepsSendersDistinct(s: State, a: Step)
    requires Inv(s) && SendersDistinct(s) && Enabled(s, a)
    ensures SendersDistinct(Apply(s, a))
  {
    if a.PruneSenders? {
      PruneDistinct(s.senders, s.spinner.closed);
      assert Apply(s, a).senders == Prune(s.senders, s.spinner.closed);
    } else if a.NewReceiver? || a.NewWait? {
      assert a.id !in s.senders;
    }
  }

  lemma AwaitingTrySend(s: State, id: ChannelId)
    requires SendersDistinct(s) && Enabled(s, TrySendNext)
    ensures var t := SendNext(s);
            && t.spinner.event == s.spinner.event
            && (s.senders[s.spinner.next] == id ==> Awaiting(s, id) && !Awaiting(t, id))
            && (s.senders[s.spinner.next] != id ==> Awaiting(t, id) == Awaiting(s, id))
  {
    var n := s.spinner.next;
    var rest := s.senders[n + 1..];
    assert s.senders[n..] == [s.senders[n]] + rest;
    assert forall k :: 0 <= k < |rest| ==> rest[k] == s.senders[n + 1 + k];
  }

  lemma AwaitingStep(s: State, a: Step, id: ChannelId)
    requires Inv(s) && SendersDistinct(s) && Enabled(s, a) && id in s.channels && s.channels[id].open && s.nodeAlive
    requires !a.DropNode?
    ensures var t := Apply(s, a);
            && (a.LockSenders? ==> !Awaiting(s, id) && Awaiting(t, id) && t.spinner.event == s.spinner.event)
            && (OfferedTo(s, a, id) ==> Awaiting(s, id) && !Awaiting(t, id))
            && (!a.LockSenders? && !OfferedTo(s, a, id) ==>
                  && Awaiting(t, id) == Awaiting(s, id)
                  && (Awaiting(s, id) ==> t.spinner.event == s.spinner.event))
  {
    assert ChannelInv(s, id, s.channels[id]);
    if a.LockSenders? {
      assert s.senders[0..] == s.senders;
    } else if a.TrySendNext? {
      AwaitingTrySend(s, id);
    } else if a.PruneSenders? {
      assert s.senders[|s.senders|..] == [];
    }
  }

  lemma OpenBefore(s: State, a: Step, id: ChannelId)
    requires Enabled(s, a) && id in s.channels
    requires var t := Apply(s, a); id in t.channels && t.channels[id].open && t.nodeAlive
    ensures s.channels[id].open && s.nodeAlive && !a.DropNode?
  {
  }

  lemma StepKeepsBusyWithLast(s: State, steps: seq<Step>, i: nat)
    requires i < |steps| && Enabled(s, steps[i]) && BusyWithLast(s, steps, i)
    ensures BusyWithLast(Apply(s, steps[i]), steps, i + 1)
  {
  }

  lemma {:induction false} RunKeepsOrder(trace: seq<State>, steps: seq<Step>, i: nat)
    requires IsRun(trace, steps) && i <= |steps|
    ensures SendersDistinct(trace[i]) && BusyWithLast(trace[i], steps, i)
  {
    if i > 0 {
      RunKeepsOrder(trace, steps, i - 1);
      RunKeepsInv(trace, steps, i - 1);
      assert trace[i - 1 + 1] == Apply(trace[i - 1], steps[i - 1]);
      StepKeepsSendersDistinct(trace[i - 1], steps[i - 1]);
      StepKeepsBusyWithLast(trace[i - 1], steps, i - 1);
    }
  }

  lemma {:induction false} RunKeepsOffersInv(trace: seq<State>, steps: seq<Step>, id: ChannelId, i: nat)
    requires IsRun(trace, steps) && i <= |steps|
    ensures OffersInv(trace, steps, id, i)
  {
    if i > 0 {
      RunKeepsOffersInv(trace, steps, id, i - 1);
      RunKeepsInv(trace, steps, i - 1);
      RunKeepsOrder(trace, steps, i - 1);
      var s, a := trace[i - 1], steps[i - 1];
      assert trace[i - 1 + 1] == Apply(s, a);
      if id in s.channels && trace[i].channels[id].open && trace[i].nodeAlive {
        OfferStep(trace, steps, id, i);
      } else if id !in s.channels && id in trace[i].channels {
        NewChannelStep(s, a, id);
      }
    }
  }

  lemma OfferStep(trace: seq<State>, steps: seq<Step>, id: ChannelId, i: nat)
    requires 0 < i <= |steps| < |trace| && OffersInv(trace, steps, id, i - 1)
    requires Inv(trace[i - 1]) && SendersDistinct(trace[i - 1]) && BusyWithLast(trace[i - 1], steps, i - 1)
    requires Enabled(trace[i - 1], steps[i - 1]) && trace[i] == Apply(trace[i - 1], steps[i - 1])
    requires id in trace[i - 1].channels && id in trace[i].channels && trace[i].channels[id].open && trace[i].nodeAlive
    ensures OffersInv(trace, steps, id, i)
  {
    var s, a := trace[i - 1], steps[i - 1];
    OpenBefore(s, a, id);
    AwaitingStep(s, a, id);
    var before := Offers(trace, steps, id, i - 1);
    if OfferedTo(s, a, id) {
      assert Offers(trace, steps, id, i)[..|before|] == before;
    }
  }

  /** What a receiver hears, over any run: what it has taken out and what is queued are, in order,
      the events that were offered to its channel while there was room; and as long as it is there,
      the events offered are, in order and without a gap, those whose announcement began since it
      subscribed, up to one that the Spinner has yet to offer. So an event is lost only to a channel
      that is full. */
  lemma ReceiverHears(trace: seq<State>, steps: seq<Step>, id: ChannelId, i: nat)
    requires IsRun(trace, steps) && i <= |steps| && id in trace[i].channels
    ensures Taken(trace, steps, id, i) + trace[i].channels[id].queue == Kept(Offers(trace, steps, id, i))
    ensures trace[i].channels[id].open && trace[i].nodeAlive && !Awaiting(trace[i], id) ==>
              EventsOf(Offers(trace, steps, id, i)) == Announced(trace, steps, id, i)
  {
    RunKeepsHeard(trace, steps, id, i);
    RunKeepsOffersInv(trace, steps, id, i);
  }

  /** ... and the tables are the replay of the discovery events so far, so whether an endpoint is
      matched is what the events say. */
  lemma {:induction false} TablesAreReplay(trace: seq<State>, steps: seq<Step>, i: nat)
    requires IsRun(trace, steps) && i <= |steps|
    ensures trace[i].tables == Replay(EventsSoFar(steps, i))
  {
    if i > 0 {
      TablesAreReplay(trace, steps, i - 1);
      assert trace[i - 1 + 1] == Apply(trace[i - 1], steps[i - 1]);
      TablesStep(trace[i - 1], steps[i - 1]);
      var before := EventsSoFar(steps, i - 1);
      if steps[i - 1].RecordEvent? {
        assert EventsSoFar(steps, i)[..|before|] == before;
      }
    }
  }

  lemma TablesStep(s: State, a: Step)
    requires Enabled(s, a)
    ensures Apply(s, a).tables == if a.RecordEvent? then Record(s.tables, a.event) else s.tables
  {
  }

  /** `t` is reached from `s` by a poll of the task `id`, undisturbed by others. */
  ghost predicate PolledTo(s: State, id: ChannelId, steps: seq<Step>, t: State)
    decreases |steps|
  {
    if steps == [] then s == t
    else
      && steps[0] in {StartPoll(id), DrainOne(id), RegisterWaker(id), SeeHangup(id), Check(id), ReturnPending(id)}
      && Enabled(s, steps[0])
      && PolledTo(Apply(s, steps[0]), id, steps[1..], t)
  }

  lemma {:induction false} DrainResolves(s: State, id: ChannelId) returns (steps: seq<Step>, t: State)
    requires Inv(s) && id in s.waits && s.waits[id].phase.Draining? && Matched(s, s.waits[id])
    ensures PolledTo(s, id, steps, t) && id in t.waits && t.waits[id].phase.Resolved?
    decreases |s.channels[id].queue|
  {
    if s.channels[id].queue != [] {
      StepKeepsInv(s, DrainOne(id));
      var rest;
      rest, t := DrainResolves(Apply(s, DrainOne(id)), id);
      steps := [DrainOne(id)] + rest;
    } else {
      var last := if s.channels[id].hungUp then SeeHangup(id) else RegisterWaker(id);
      var u := Apply(s, last);
      t := Apply(u, Check(id));
      steps := [last, Check(id)];
      assert PolledTo(u, id, [Check(id)], t) by {
        assert PolledTo(t, id, [], t);
        assert [Check(id)][1..] == [];
      }
      assert steps[1..] == [Check(id)];
    }
  }

  /** The other half: once its endpoint has a match, the next poll of a waiting task resolves,
      however many events its channel holds. */
  lemma PollResolves(s: State, id: ChannelId) returns (steps: seq<Step>, t: State)
    requires Inv(s) && id in s.waits && s.waits[id].phase.Suspended? && Matched(s, s.waits[id])
    ensures PolledTo(s, id, steps, t) && id in t.waits && t.waits[id].phase.Resolved?
  {
    var u := Apply(s, StartPoll(id));
    StepKeepsInv(s, StartPoll(id));
    var rest;
    if s.waits[id].streamOpen {
      rest, t := DrainResolves(u, id);
    } else {
      t := Apply(u, Check(id));
      rest := [Check(id)];
      assert PolledTo(t, id, rest[1..], t);
    }
    steps := [StartPoll(id)] + rest;
    assert steps[1..] == rest;
  }
}
