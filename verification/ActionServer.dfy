/** The asynchronous action server: what each of its lock-held sections does to the goal table,
    and its methods, each run by one task without interference. */
module ActionServer {
  import opened Basics

  type GoalId = nat // a UUID; only its identity and the zero UUID matter
  type RequestId = nat
  type Time = int // nanoseconds since the epoch

  const ZERO_GOAL: GoalId := 0
  const ZERO_TIME: Time := 0

  datatype GoalStatus = Unknown | Accepted | Executing | Canceling | Succeeded | Canceled | Aborted {
    predicate Terminal() {
      Succeeded? || Canceled? || Aborted?
    }

    /** The order in which a goal passes through its states. */
    function Rank(): nat {
      match this
      case Unknown => 0
      case Accepted => 1
      case Executing => 2
      case _ => 3
    }
  }

  datatype Goal = Goal(status: GoalStatus, acceptedTime: Option<Time>)
  type Goals = map<GoalId, Goal>

  datatype GoalEndStatus = EndSucceeded | EndAborted | EndCanceled {
    function Status(): GoalStatus {
      match this
      case EndSucceeded => Succeeded
      case EndAborted => Aborted
      case EndCanceled => Canceled
    }
  }

  /** The goal status that each end status stands for. */
  predicate Means(end: GoalEndStatus, status: GoalStatus) {
    || (end == EndSucceeded && status == Succeeded)
    || (end == EndAborted && status == Aborted)
    || (end == EndCanceled && status == Canceled)
  }

  datatype GoalResult = Done | NoSuchGoal | WrongGoalState | WriteError

  // ---------------------------------------------------------------------------------------
  // The lock-held sections

  /** Moves goal `g` from one of the states `from` to `to`, and fails without effect otherwise. */
  function Transition(goals: Goals, g: GoalId, from: set<GoalStatus>, to: GoalStatus): (Goals, GoalResult) {
    if g !in goals then (goals, NoSuchGoal)
    else if goals[g].status in from then (goals[g := goals[g].(status := to)], Done)
    else (goals, WrongGoalState)
  }

  function AcceptSection(goals: Goals, g: GoalId, now: Time): (Goals, GoalResult) {
    var (after, r) := Transition(goals, g, {Unknown}, Accepted);
    (if r.Done? && g in after then after[g := after[g].(acceptedTime := Some(now))] else after, r)
  }

  function RejectSection(goals: Goals, g: GoalId): (Goals, GoalResult) {
    var (after, r) := Transition(goals, g, {Unknown}, Unknown);
    (if r.Done? then goals - {g} else goals, r)
  }

  function StartSection(goals: Goals, g: GoalId): (Goals, GoalResult) {
    Transition(goals, g, {Accepted}, Executing)
  }

  function FinishSection(goals: Goals, g: GoalId, end: GoalEndStatus): (Goals, GoalResult) {
    Transition(goals, g, {Accepted, Executing, Canceling}, end.Status())
  }

  function AbortSection(goals: Goals, g: GoalId): (Goals, GoalResult) {
    Transition(goals, g, {Accepted, Executing}, Aborted)
  }

  /** Whether a cancel of `g` is taken up: the goal is known and has been accepted. */
  function CancelStamp(goals: Goals, g: GoalId): Option<Time> {
    if g in goals then goals[g].acceptedTime else None
  }

  /** The mark itself, made under a later lock, looks at nothing but the presence of the goal. */
  function MarkCanceling(goals: Goals, g: GoalId): Goals {
    if g in goals then goals[g := goals[g].(status := Canceling)] else goals
  }

  function Members(s: seq<GoalId>): set<GoalId> {
    set g | g in s
  }

  /** Flushing succeeds on every entry: no entry is a repeat, unknown, or not yet ended. */
  ghost predicate FlushIsClean(goals: Goals, finished: seq<GoalId>) {
    && (forall i, j :: 0 <= i < j < |finished| ==> finished[i] != finished[j])
    && (forall g :: g in finished ==> g in goals && goals[g].status.Terminal())
  }

  // ---------------------------------------------------------------------------------------
  // Cancel requests

  /** The filter of `receive_cancel_request`, in its four cases. A goal is selected by time if it
      was accepted strictly before the given stamp. */
  predicate Selected(goals: Goals, g: GoalId, goalId: GoalId, stamp: Time)
    requires g in goals
  {
    var at := goals[g].acceptedTime;
    var inTime := at.Some? && at.value < stamp;
    if goalId == ZERO_GOAL && stamp == ZERO_TIME then true
    else if goalId == ZERO_GOAL then inTime
    else if stamp == ZERO_TIME then goalId == g
    else goalId == g || inTime
  }

  /** The goals that can be canceled at all. */
  function Cancelable(goals: Goals): set<GoalId> {
    set g | g in goals && goals[g].status in {Accepted, Executing}
  }

  /** Those of them that were accepted strictly before the stamp. */
  function AcceptedBefore(goals: Goals, stamp: Time): set<GoalId> {
    set g | g in Cancelable(goals) && goals[g].acceptedTime.Some? && goals[g].acceptedTime.value < stamp
  }

  /** What a cancel request asks for: the goal it names and the goals accepted before its stamp; a
      zero names nothing, and both zeros everything. */
  function Requested(goals: Goals, goalId: GoalId, stamp: Time): set<GoalId> {
    if goalId == ZERO_GOAL && stamp == ZERO_TIME then Cancelable(goals)
    else
      (if goalId == ZERO_GOAL then {} else {goalId} * Cancelable(goals))
      + (if stamp == ZERO_TIME then {} else AcceptedBefore(goals, stamp))
  }

  lemma SelectedIsRequested(goals: Goals, g: GoalId, goalId: GoalId, stamp: Time)
    requires g in goals
    ensures g in Requested(goals, goalId, stamp) <==> g in Cancelable(goals) && Selected(goals, g, goalId, stamp)
  {
  }

  /** A later stamp asks for no fewer goals. */
  lemma LaterStampRequestsMore(goals: Goals, goalId: GoalId, stamp: Time, later: Time)
    requires stamp != ZERO_TIME && later != ZERO_TIME && stamp <= later
    ensures Requested(goals, goalId, stamp) <= Requested(goals, goalId, later)
  {
    assert AcceptedBefore(goals, stamp) <= AcceptedBefore(goals, later);
  }

  /** As every run keeps it: a goal is Unknown exactly if it has no acceptance time. */
  predicate Stamps(goals: Goals) {
    forall g :: g in goals ==> (goals[g].status.Unknown? <==> goals[g].acceptedTime.None?)
  }

  // ---------------------------------------------------------------------------------------
  // Result requests

  /** The buffer after reading requests: the last one for a goal counts. */
  function Buffered(buffer: map<GoalId, RequestId>, read: seq<(RequestId, GoalId)>): map<GoalId, RequestId> {
    if read == [] then buffer
    else
      var (req, g) := read[|read| - 1];
      Buffered(buffer, read[..|read| - 1])[g := req]
  }

  /** Every request that is read is kept under the goal it asks for, unless a later one for the same
      goal takes its place. */
  lemma {:induction false} LastRequestIsBuffered(buffer: map<GoalId, RequestId>, read: seq<(RequestId, GoalId)>, i: nat)
    requires i < |read| && forall j :: i < j < |read| ==> read[j].1 != read[i].1
    ensures read[i].1 in Buffered(buffer, read) && Buffered(buffer, read)[read[i].1] == read[i].0
  {
    var n := |read| - 1;
    if i < n {
      assert read[n].1 != read[i].1;
      LastRequestIsBuffered(buffer, read[..n], i);
    }
  }

  /** What was buffered for other goals stays, and nothing else comes in. */
  lemma {:induction false} OthersStayBuffered(buffer: map<GoalId, RequestId>, read: seq<(RequestId, GoalId)>, g: GoalId)
    requires forall i :: 0 <= i < |read| ==> read[i].1 != g
    ensures g in Buffered(buffer, read) <==> g in buffer
    ensures g in buffer ==> Buffered(buffer, read)[g] == buffer[g]
  {
    if read != [] {
      OthersStayBuffered(buffer, read[..|read| - 1], g);
    }
  }

  // ---------------------------------------------------------------------------------------

  datatype Message =
    | StatusReport(goals: Goals)
    | GoalResponse(req: RequestId, accepted: bool, stamp: Time)
    | ResultResponse(req: RequestId, status: GoalStatus)
    | Feedback(goal: GoalId)
    | CancelResponse(req: RequestId, rejected: bool, canceling: seq<(GoalId, Time)>)

  class AsyncActionServer {
    var goals: Goals
    var finishedGoals: seq<GoalId>
    var resultRequests: map<GoalId, RequestId>
    var sent: seq<Message>

    constructor ()
      ensures goals == map[] && finishedGoals == [] && resultRequests == map[] && sent == []
    {
      goals, finishedGoals, resultRequests, sent := map[], [], map[], [];
    }

    method PublishStatuses()
      modifies this`sent
      ensures sent == old(sent) + [StatusReport(goals)]
    {
      sent := sent + [StatusReport(goals)];
    }

    /** `flush_finisehd_goals`: drains the list, forgetting every goal in it. `clean` is false
        if an entry hit the "lost goal" branch or the failing debug assertion. */
    method FlushFinishedGoals() returns (clean: bool)
      modifies this`goals, this`finishedGoals
      ensures goals == old(goals) - Members(old(finishedGoals)) && finishedGoals == []
      ensures clean <==> FlushIsClean(old(goals), old(finishedGoals))
    {
      clean := true;
      var i := 0;
      while i < |finishedGoals|
        modifies this`goals
        invariant i <= |finishedGoals|
        invariant goals == old(goals) - Members(finishedGoals[..i])
        invariant clean <==> FlushIsClean(old(goals), finishedGoals[..i])
      {
        var g := finishedGoals[i];
        assert finishedGoals[..i + 1] == finishedGoals[..i] + [g];
        FlushStep(old(goals), finishedGoals[..i], g);
        if g in goals {
          clean := clean && goals[g].status.Terminal();
          goals := goals - {g};
        } else {
          clean := false;
        }
        i := i + 1;
      }
      assert finishedGoals[..i] == finishedGoals;
      finishedGoals := [];
    }

    /** `receive_new_goal`: discards requests for goals it already has, and stores the first new
        one. `incoming` is what the goal server's queue yields. */
    method ReceiveNewGoal(incoming: seq<(RequestId, GoalId)>) returns (handle: Option<(GoalId, RequestId)>, taken: nat)
      modifies this`goals
      ensures taken <= |incoming|
      ensures handle.Some? ==>
                && taken > 0
                && handle.value == (incoming[taken - 1].1, incoming[taken - 1].0)
                && handle.value.0 !in old(goals)
                && goals == old(goals)[handle.value.0 := Goal(Unknown, None)]
      ensures handle.None? ==> taken == |incoming| && goals == old(goals)
      ensures forall i :: 0 <= i < (if handle.Some? then taken - 1 else taken) ==> incoming[i].1 in old(goals)
    {
      taken := 0;
      while taken < |incoming|
        invariant taken <= |incoming| && goals == old(goals)
        invariant forall i :: 0 <= i < taken ==> incoming[i].1 in goals
      {
        var (req, g) := incoming[taken];
        taken := taken + 1;
        if g !in goals {
          goals := goals[g := Goal(Unknown, None)];
          return Some((g, req)), taken;
        }
      }
      handle := None;
    }

    /** `accept_goal`; `now` is read before the section, `writeOk` is what the DDS write reports. */
    method AcceptGoal(g: GoalId, req: RequestId, now: Time, writeOk: bool) returns (r: GoalResult)
      modifies this`goals, this`sent
      ensures var (after, section) := AcceptSection(old(goals), g, now);
              && goals == after
              && r == (if section.Done? && !writeOk then WriteError else section)
              && sent == old(sent) + (if section.Done? then [StatusReport(after)] else [])
                         + (if section.Done? && writeOk then [GoalResponse(req, true, now)] else [])
      ensures goals == if g in old(goals) && old(goals)[g].status.Unknown? then old(goals)[g := Goal(Accepted, Some(now))]
                       else old(goals)
      ensures r.Done? || r.WriteError? <==> g in old(goals) && old(goals)[g].status.Unknown?
      ensures r.NoSuchGoal? <==> g !in old(goals)
    {
      if g !in goals {
        r := NoSuchGoal;
      } else if goals[g].status == Unknown {
        goals := goals[g := Goal(Accepted, Some(now))];
        r := Done;
      } else {
        r := WrongGoalState;
      }
      if r == Done {
        PublishStatuses();
        if !writeOk {
          return WriteError;
        }
        sent := sent + [GoalResponse(req, true, now)];
      }
    }

    method RejectGoal(g: GoalId, req: RequestId, now: Time, writeOk: bool) returns (r: GoalResult)
      modifies this`goals, this`sent
      ensures var (after, section) := RejectSection(old(goals), g);
              && goals == after
              && r == (if section.Done? && !writeOk then WriteError else section)
              && sent == old(sent) + (if section.Done? && writeOk then [GoalResponse(req, false, now)] else [])
      ensures goals == if g in old(goals) && old(goals)[g].status.Unknown? then old(goals) - {g} else old(goals)
      ensures r.Done? || r.WriteError? <==> g in old(goals) && old(goals)[g].status.Unknown?
      ensures r.NoSuchGoal? <==> g !in old(goals)
    {
      if g !in goals {
        return NoSuchGoal;
      }
      if goals[g].status != Unknown {
        return WrongGoalState;
      }
      goals := goals - {g};
      if !writeOk {
        return WriteError;
      }
      sent := sent + [GoalResponse(req, false, now)];
      r := Done;
    }

    method StartExecutingGoal(g: GoalId) returns (r: GoalResult)
      modifies this`goals, this`sent
      ensures (goals, r) == StartSection(old(goals), g)
      ensures r == if g !in old(goals) then NoSuchGoal
                   else if old(goals)[g].status.Accepted? then Done
                   else WrongGoalState
      ensures goals == if r.Done? then old(goals)[g := old(goals)[g].(status := Executing)] else old(goals)
      ensures sent == old(sent) + if r.Done? then [StatusReport(goals)] else []
    {
      if g !in goals {
        return NoSuchGoal;
      }
      if goals[g].status != Accepted {
        return WrongGoalState;
      }
      goals := goals[g := goals[g].(status := Executing)];
      PublishStatuses();
      r := Done;
    }

    method PublishFeedback(g: GoalId, writeOk: bool) returns (r: GoalResult)
      modifies this`sent
      ensures r.NoSuchGoal? <==> g !in goals
      ensures r.WrongGoalState? <==> g in goals && !goals[g].status.Executing?
      ensures r.WriteError? <==> g in goals && goals[g].status.Executing? && !writeOk
      ensures sent == old(sent) + if r.Done? then [Feedback(g)] else []
    {
      if g !in goals {
        return NoSuchGoal;
      }
      if goals[g].status != Executing {
        return WrongGoalState;
      }
      if !writeOk {
        return WriteError;
      }
      sent := sent + [Feedback(g)];
      r := Done;
    }

    /** The first half of `send_result_response`: finds the request that asks for the result of
        `g`, buffering requests for other goals that it reads from the queue on the way. */
    method FindResultRequest(g: GoalId, incoming: seq<(RequestId, GoalId)>) returns (req: Option<RequestId>, taken: nat)
      modifies this`resultRequests
      ensures g in old(resultRequests) ==>
                req == Some(old(resultRequests)[g]) && taken == 0 && resultRequests == old(resultRequests)
      ensures taken <= |incoming|
      ensures g !in old(resultRequests) && req.Some? ==> taken > 0 && incoming[taken - 1] == (req.value, g)
      ensures req.None? ==> taken == |incoming| && forall i :: 0 <= i < taken ==> incoming[i].1 != g
      ensures g !in old(resultRequests) ==>
                resultRequests == Buffered(old(resultRequests), incoming[..if req.Some? then taken - 1 else taken])
    {
      taken := 0;
      if g in resultRequests {
        return Some(resultRequests[g]), 0;
      }
      while taken < |incoming|
        invariant taken <= |incoming| && g !in resultRequests
        invariant forall i :: 0 <= i < taken ==> incoming[i].1 != g
        invariant resultRequests == Buffered(old(resultRequests), incoming[..taken])
      {
        var (q, h) := incoming[taken];
        assert incoming[..taken + 1][..taken] == incoming[..taken];
        taken := taken + 1;
        if h == g {
          return Some(q), taken;
        }
        resultRequests := resultRequests[h := q];
      }
      req := None;
    }

    /** The second half of `send_result_response`. A failed write leaves the goal ended but
        neither reported nor marked as finished. */
    method SendResult(g: GoalId, end: GoalEndStatus, req: RequestId, writeOk: bool) returns (r: GoalResult)
      modifies this`goals, this`finishedGoals, this`sent
      ensures var (after, section) := FinishSection(old(goals), g, end);
              && goals == after
              && r == (if section.Done? && !writeOk then WriteError else section)
              && finishedGoals == old(finishedGoals) + (if r.Done? then [g] else [])
              && sent == old(sent) + (if r.Done? then [ResultResponse(req, end.Status()), StatusReport(after)] else [])
      ensures r.Done? || r.WriteError? <==> g in old(goals) && old(goals)[g].status in {Accepted, Executing, Canceling}
      ensures r.NoSuchGoal? <==> g !in old(goals)
      ensures r.Done? || r.WriteError? ==>
                exists status :: Means(end, status) && goals == old(goals)[g := old(goals)[g].(status := status)]
      ensures r.Done? ==> exists status :: Means(end, status) && ResultResponse(req, status) in sent[|old(sent)|..]
    {
      if g !in goals {
        return NoSuchGoal;
      }
      if goals[g].status !in {Accepted, Executing, Canceling} {
        return WrongGoalState;
      }
      assert Means(end, end.Status());
      goals := goals[g := goals[g].(status := end.Status())];
      if !writeOk {
        return WriteError;
      }
      sent := sent + [ResultResponse(req, end.Status())];
      PublishStatuses();
      assert sent[|old(sent)|] == ResultResponse(req, end.Status());
      finishedGoals := finishedGoals + [g];
      r := Done;
    }

    method AbortGoal(g: GoalId) returns (r: GoalResult)
      modifies this`goals, this`finishedGoals, this`sent
      ensures (goals, r) == AbortSection(old(goals), g)
      ensures r == if g !in old(goals) then NoSuchGoal
                   else if old(goals)[g].status in {Accepted, Executing} then Done
                   else WrongGoalState
      ensures goals == if r.Done? then old(goals)[g := old(goals)[g].(status := Aborted)] else old(goals)
      ensures finishedGoals == old(finishedGoals) + if r.Done? then [g] else []
      ensures sent == old(sent) + if r.Done? then [StatusReport(goals)] else []
    {
      if g !in goals {
        return NoSuchGoal;
      }
      if goals[g].status !in {Accepted, Executing} {
        return WrongGoalState;
      }
      goals := goals[g := goals[g].(status := Aborted)];
      PublishStatuses();
      finishedGoals := finishedGoals + [g];
      r := Done;
    }

    /** `receive_cancel_request`: filters the goals one by one and offers exactly those that the
        request asks for. */
    method ReceiveCancelRequest(goalId: GoalId, stamp: Time) returns (toCancel: set<GoalId>)
      ensures toCancel == Requested(goals, goalId, stamp)
    {
      toCancel := {};
      var left := goals.Keys;
      while left != {}
        invariant left <= goals.Keys
        invariant toCancel == Requested(goals, goalId, stamp) - left
        decreases left
      {
        var g :| g in left;
        SelectedIsRequested(goals, g, goalId, stamp);
        if goals[g].status in {Executing, Accepted} && Selected(goals, g, goalId, stamp) {
          toCancel := toCancel + {g};
        }
        left := left - {g};
      }
    }

    /** `respond_to_cancel_requests`: tests all goals first and marks them afterwards. Goals that
        were never accepted, or are unknown, are left out of the answer. */
    method RespondToCancelRequests(req: RequestId, toCancel: seq<GoalId>) returns (canceling: seq<(GoalId, Time)>)
      modifies this`goals, this`sent
      ensures canceling == Stamped(old(goals), toCancel)
      ensures goals == MarkAll(old(goals), canceling)
      ensures sent == old(sent) + [StatusReport(goals), CancelResponse(req, canceling == [], canceling)]
    {
      canceling := [];
      for i := 0 to |toCancel|
        invariant canceling == Stamped(goals, toCancel[..i])
      {
        var stamp := CancelStamp(goals, toCancel[i]);
        assert toCancel[..i + 1][..i] == toCancel[..i];
        if stamp.Some? {
          canceling := canceling + [(toCancel[i], stamp.value)];
        }
      }
      assert toCancel[..|toCancel|] == toCancel;
      for i := 0 to |canceling|
        modifies this`goals
        invariant goals == MarkAll(old(goals), canceling[..i])
      {
        assert canceling[..i + 1][..i] == canceling[..i];
        var g := canceling[i].0;
        if g in goals {
          goals := goals[g := goals[g].(status := Canceling)];
        }
      }
      assert canceling[..|canceling|] == canceling;
      PublishStatuses();
      sent := sent + [CancelResponse(req, canceling == [], canceling)];
    }
  }

  lemma FlushStep(goals: Goals, done: seq<GoalId>, g: GoalId)
    ensures FlushIsClean(goals, done + [g]) <==>
              FlushIsClean(goals, done) && g !in done && g in goals && goals[g].status.Terminal()
    ensures Members(done + [g]) == Members(done) + {g}
  {
    var all := done + [g];
    if FlushIsClean(goals, all) {
      assert all[|done|] == g && forall i :: 0 <= i < |done| ==> all[i] == done[i] != all[|done|];
      assert forall h :: h in done ==> h in all;
    }
  }

  /** The goals of the list that have been accepted, each with the time of its acceptance. */
  function Stamped(goals: Goals, list: seq<GoalId>): seq<(GoalId, Time)> {
    if list == [] then []
    else
      var last := list[|list| - 1];
      var stamp := CancelStamp(goals, last);
      Stamped(goals, list[..|list| - 1]) + if stamp.Some? then [(last, stamp.value)] else []
  }

  function MarkAll(goals: Goals, canceling: seq<(GoalId, Time)>): Goals {
    if canceling == [] then goals
    else MarkCanceling(MarkAll(goals, canceling[..|canceling| - 1]), canceling[|canceling| - 1].0)
  }

  /** What becomes of one goal: nothing, or Canceling if it is listed and has been accepted. */
  function Marked(goals: Goals, list: seq<GoalId>, g: GoalId): Goal
    requires g in goals
  {
    if g in list && goals[g].acceptedTime.Some? then goals[g].(status := Canceling) else goals[g]
  }

  lemma {:induction false} MarkAllAt(goals: Goals, list: seq<GoalId>)
    ensures MarkAll(goals, Stamped(goals, list)).Keys == goals.Keys
    ensures forall g :: g in goals ==> MarkAll(goals, Stamped(goals, list))[g] == Marked(goals, list, g)
  {
    if list != [] {
      var n := |list| - 1;
      var front, last, stamp := list[..n], list[n], CancelStamp(goals, list[n]);
      MarkAllAt(goals, front);
      assert list == front + [last];
      if stamp.Some? {
        var before := Stamped(goals, front);
        assert (before + [(last, stamp.value)])[..|before|] == before;
        assert MarkAll(goals, Stamped(goals, list)) == MarkCanceling(MarkAll(goals, before), last);
      } else {
        assert Stamped(goals, list) == Stamped(goals, front);
      }
    }
  }

  /** Run without interference, a cancel response puts exactly the accepted goals of the list
      into Canceling and changes nothing else about any goal. */
  lemma CancelMarksExactlyTheAccepted(goals: Goals, list: seq<GoalId>)
    ensures MarkAll(goals, Stamped(goals, list)) == map g | g in goals :: Marked(goals, list, g)
  {
    MarkAllAt(goals, list);
  }

  lemma {:induction false} StampedKeepsAll(goals: Goals, list: seq<GoalId>)
    requires forall g :: g in list ==> CancelStamp(goals, g).Some?
    ensures |Stamped(goals, list)| == |list|
    ensures forall i :: 0 <= i < |list| ==> Stamped(goals, list)[i] == (list[i], CancelStamp(goals, list[i]).value)
  {
    if list != [] {
      StampedKeepsAll(goals, list[..|list| - 1]);
    }
  }

  /** A server that answers a cancel request with the goals it was offered, all of them and in any
      order, without interference in between: each is confirmed with the time of its acceptance,
      and exactly they become Canceling. */
  lemma OfferIsHonoured(goals: Goals, goalId: GoalId, stamp: Time, list: seq<GoalId>)
    requires Stamps(goals) && Members(list) == Requested(goals, goalId, stamp)
    ensures |Stamped(goals, list)| == |list| && forall i :: 0 <= i < |list| ==> Stamped(goals, list)[i].0 == list[i]
    ensures MarkAll(goals, Stamped(goals, list)) ==
              map g | g in goals ::
                if g in Requested(goals, goalId, stamp) then goals[g].(status := Canceling) else goals[g]
  {
    forall g | g in list ensures g in Cancelable(goals) && CancelStamp(goals, g).Some? {
      assert g in Members(list);
    }
    StampedKeepsAll(goals, list);
    MarkAllAt(goals, list);
    forall g | g in goals
      ensures Marked(goals, list, g) ==
              if g in Requested(goals, goalId, stamp) then goals[g].(status := Canceling) else goals[g]
    {
      assert g in list <==> g in Members(list);
    }
  }
}
