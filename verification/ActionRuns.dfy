/** The action server under concurrency: every lock-held section is one step, and the steps of
    any number of tasks interleave. Goal ids and request ids are not reused by the clients. */
module ActionRuns {
  import opened Basics
  import opened ActionServer

  /** What a task still has to do after a section it has passed. A task may also stop for good
      at any of these points: its future may be dropped, or its write may fail. */
  datatype Task =
    | Respond(req: RequestId, accepted: bool)            // accept/reject decided, answer not sent
    | MarkFinished(goal: GoalId)                         // goal ended, not yet in `finished_goals`
    | AwaitRequest(goal: GoalId, end: GoalEndStatus)     // reading result requests from the queue
    | Finish(goal: GoalId, end: GoalEndStatus, req: RequestId) // has its result request
    | MarkCancel(goal: GoalId)                           // passed the acceptance test of a cancel

  /** Handles that have been given out; they can be copied and used any number of times. */
  datatype Handles = Handles(received: map<GoalId, RequestId>, accepted: set<GoalId>, executing: set<GoalId>)

  /** What the clients have asked, and what has been sent to them. */
  datatype Traffic = Traffic(
    asked: set<(RequestId, GoalId)>,
    answers: multiset<(RequestId, bool)>,
    results: set<(GoalId, RequestId, GoalStatus)>,
    resultsFor: multiset<GoalId>)

  datatype State = State(
    goals: Goals,
    finished: seq<GoalId>,
    resultRequests: map<GoalId, RequestId>,
    tasks: multiset<Task>,
    handles: Handles,
    traffic: Traffic)

  datatype Step =
    | Receive(g: GoalId, req: RequestId)
    | Accept(g: GoalId, now: Time)
    | Reject(g: GoalId)
    | SendAnswer(req: RequestId, accepted: bool)
    | Start(g: GoalId)
    | Abort(g: GoalId)
    | PushFinished(g: GoalId)
    | AskResult(req: RequestId, g: GoalId)
    | BeginResult(g: GoalId, end: GoalEndStatus)
    | ReadRequest(g: GoalId, end: GoalEndStatus, req: RequestId, asker: GoalId)
    | EndGoal(g: GoalId, end: GoalEndStatus, req: RequestId, writeOk: bool)
    | TestCancel(g: GoalId)
    | ApplyCancel(g: GoalId)
    | Flush
    | Stop(task: Task)

  const INITIAL := State(map[], [], map[], multiset{}, Handles(map[], {}, {}), Traffic({}, multiset{}, {}, multiset{}))

  predicate Enabled(s: State, a: Step) {
    match a
    // a goal id is new, or repeats that of a goal the server still has
    case Receive(g, req) => (g in s.goals || g !in s.handles.received) && req !in s.handles.received.Values
    case Accept(g, _) => g in s.handles.received
    case Reject(g) => g in s.handles.received
    case SendAnswer(req, accepted) => Respond(req, accepted) in s.tasks
    case Start(g) => g in s.handles.accepted
    case Abort(g) => g in s.handles.accepted || g in s.handles.executing
    case PushFinished(g) => MarkFinished(g) in s.tasks
    case AskResult(_, _) => true
    case BeginResult(g, _) => g in s.handles.executing
    case ReadRequest(g, end, req, asker) => AwaitRequest(g, end) in s.tasks && (req, asker) in s.traffic.asked
    case EndGoal(g, end, req, _) => Finish(g, end, req) in s.tasks
    case TestCancel(_) => true
    case ApplyCancel(g) => MarkCancel(g) in s.tasks
    case Flush => true
    case Stop(task) => task in s.tasks
  }

  /** The section of the goal table that a step runs, with its result. */
  function Section(s: State, a: Step): (Goals, GoalResult) {
    match a
    case Receive(g, _) => (if g in s.goals then s.goals else s.goals[g := Goal(Unknown, None)], Done)
    case Accept(g, now) => AcceptSection(s.goals, g, now)
    case Reject(g) => RejectSection(s.goals, g)
    case Start(g) => StartSection(s.goals, g)
    case Abort(g) => AbortSection(s.goals, g)
    case EndGoal(g, end, _, _) => FinishSection(s.goals, g, end)
    case ApplyCancel(g) => (MarkCanceling(s.goals, g), Done)
    case Flush => (s.goals - Members(s.finished), Done)
    case _ => (s.goals, Done)
  }

  function HandlesAfter(s: State, a: Step, r: GoalResult): Handles {
    match a
    // a duplicate is discarded, and its request never answered
    case Receive(g, req) => if g in s.goals then s.handles else s.handles.(received := s.handles.received[g := req])
    case Accept(g, _) => if r.Done? then s.handles.(accepted := s.handles.accepted + {g}) else s.handles
    case Start(g) => if r.Done? then s.handles.(executing := s.handles.executing + {g}) else s.handles
    case _ => s.handles
  }

  /** The task of a step, if it had one, has passed it; what is left to do after it is added. */
  function TasksAfter(s: State, a: Step, r: GoalResult): multiset<Task>
    requires Enabled(s, a)
  {
    match a
    case Accept(g, _) => if r.Done? then s.tasks + multiset{Respond(s.handles.received[g], true)} else s.tasks
    case Reject(g) => if r.Done? then s.tasks + multiset{Respond(s.handles.received[g], false)} else s.tasks
    case SendAnswer(req, accepted) => s.tasks - multiset{Respond(req, accepted)}
    case Abort(g) => if r.Done? then s.tasks + multiset{MarkFinished(g)} else s.tasks
    case PushFinished(g) => s.tasks - multiset{MarkFinished(g)}
    case BeginResult(g, end) =>
      s.tasks + multiset{if g in s.resultRequests then Finish(g, end, s.resultRequests[g]) else AwaitRequest(g, end)}
    case ReadRequest(g, end, req, asker) =>
      if asker == g then s.tasks - multiset{AwaitRequest(g, end)} + multiset{Finish(g, end, req)} else s.tasks
    case EndGoal(g, end, req, writeOk) =>
      s.tasks - multiset{Finish(g, end, req)} + if r.Done? && writeOk then multiset{MarkFinished(g)} else multiset{}
    case TestCancel(g) => if CancelStamp(s.goals, g).Some? then s.tasks + multiset{MarkCancel(g)} else s.tasks
    case ApplyCancel(g) => s.tasks - multiset{MarkCancel(g)}
    case Stop(task) => s.tasks - multiset{task}
    case _ => s.tasks
  }

  function TrafficAfter(s: State, a: Step, r: GoalResult): Traffic {
    match a
    case SendAnswer(req, accepted) => s.traffic.(answers := s.traffic.answers + multiset{(req, accepted)})
    case AskResult(req, g) => s.traffic.(asked := s.traffic.asked + {(req, g)})
    case EndGoal(g, end, req, writeOk) =>
      if r.Done? && writeOk then
        s.traffic.(results := s.traffic.results + {(g, req, end.Status())},
                   resultsFor := s.traffic.resultsFor + multiset{g})
      else s.traffic
    case _ => s.traffic
  }

  function Apply(s: State, a: Step): State
    requires Enabled(s, a)
  {
    var (goals, r) := Section(s, a);
    State(
      goals,
      if a.PushFinished? then s.finished + [a.g] else if a.Flush? then [] else s.finished,
      if a.ReadRequest? && a.asker != a.g then s.resultRequests[a.asker := a.req] else s.resultRequests,
      TasksAfter(s, a, r),
      HandlesAfter(s, a, r),
      TrafficAfter(s, a, r))
  }

  ghost predicate IsRun(trace: seq<State>, steps: seq<Step>) {
    && |trace| == |steps| + 1
    && trace[0] == INITIAL
    && forall i :: 0 <= i < |steps| ==> Enabled(trace[i], steps[i]) && trace[i + 1] == Apply(trace[i], steps[i])
  }

  // ---------------------------------------------------------------------------------------
  // The invariant of every run

  /** The goal has left the state in which it can be accepted or rejected. */
  predicate Decided(s: State, g: GoalId) {
    g in s.goals ==> !s.goals[g].status.Unknown?
  }

  ghost predicate GoalInv(s: State, g: GoalId)
    requires g in s.goals
  {
    && g in s.handles.received
    && (s.goals[g].status.Unknown? <==> s.goals[g].acceptedTime.None?)
    && (g in s.handles.executing ==> s.goals[g].status.Rank() >= 2)
    && (s.goals[g].status in {Executing, Succeeded} ==> g in s.handles.executing)
  }

  ghost predicate GoalsInv(s: State) {
    forall g :: g in s.goals ==> GoalInv(s, g)
  }

  ghost predicate HandlesInv(s: State) {
    && (forall g :: g in s.handles.accepted ==> g in s.handles.received && Decided(s, g))
    && (forall g :: g in s.handles.executing ==> g in s.handles.received)
  }

  ghost predicate TaskInv(s: State, t: Task) {
    match t
    case Respond(_, _) => true
    case MarkFinished(g) => g in s.handles.received
    case AwaitRequest(g, _) => g in s.handles.executing
    case Finish(g, _, req) => g in s.handles.executing && (req, g) in s.traffic.asked
    case MarkCancel(g) => g in s.handles.received && Decided(s, g)
  }

  ghost predicate TasksInv(s: State) {
    forall t :: t in s.tasks ==> TaskInv(s, t)
  }

  ghost predicate RequestsInv(s: State) {
    && (forall g :: g in s.resultRequests ==> (s.resultRequests[g], g) in s.traffic.asked)
    && (forall r :: r in s.traffic.results ==> (r.1, r.0) in s.traffic.asked)
  }

  ghost predicate Inv(s: State) {
    GoalsInv(s) && HandlesInv(s) && TasksInv(s) && RequestsInv(s)
  }

  /** What a step can do to the goals: ranks do not fall, and a goal that is gone stays gone. */
  ghost predicate Progress(s: State, t: State) {
    && (forall g :: g in s.handles.received ==> g in t.handles.received)
    && (forall g :: g in s.goals && g in t.goals ==> s.goals[g].status.Rank() <= t.goals[g].status.Rank())
    && (forall g :: g in s.handles.received && g !in s.goals ==> g !in t.goals)
    && s.handles.executing <= t.handles.executing
    && s.traffic.asked <= t.traffic.asked
  }

  /** What a step does to a goal that is in the table before and after. */
  ghost predicate GoalMoves(s: State, a: Step, before: Goal, after: Goal, g: GoalId) {
    && before.status.Rank() <= after.status.Rank()
    && (after.status.Unknown? <==> after.acceptedTime.None?)
    && (after.status.Succeeded? ==> g in s.handles.executing)
    && (after.status.Executing? ==> g in s.handles.executing || a == Start(g))
  }

  lemma GoalStep(s: State, a: Step, g: GoalId)
    requires Inv(s) && Enabled(s, a) && g in s.goals && g in Section(s, a).0
    ensures GoalMoves(s, a, s.goals[g], Section(s, a).0[g], g)
  {
    assert GoalInv(s, g);
    match a
    case EndGoal(h, end, req, _) => assert TaskInv(s, Finish(h, end, req));
    case ApplyCancel(h) => assert TaskInv(s, MarkCancel(h));
    case _ =>
  }

  /** The new goals and handles of a step from `s` to `t`. */
  ghost predicate TableOutline(s: State, a: Step, t: State) {
    && (forall g :: g in s.goals && g in t.goals ==> GoalMoves(s, a, s.goals[g], t.goals[g], g))
    && (forall g :: g in t.goals && g !in s.goals ==> NewlyReceived(s, t, g))
  }

  ghost predicate NewlyReceived(s: State, t: State, g: GoalId)
    requires g in t.goals
  {
    g in t.handles.received && g !in s.handles.received && g !in s.handles.executing && t.goals[g] == Goal(Unknown, None)
  }

  ghost predicate HandlesOutline(s: State, a: Step, t: State) {
    && (forall g :: g in s.handles.received ==> g in t.handles.received)
    && (forall g :: g in t.handles.accepted ==>
          g in s.handles.accepted || (g in s.handles.received && g in t.goals && !t.goals[g].status.Unknown?))
    && (forall g :: g in t.handles.executing ==>
          g in s.handles.executing || (g in s.goals && g in t.goals && t.goals[g].status.Rank() >= 2))
    && (a.Start? && a.g in t.goals && t.goals[a.g].status.Executing? ==> a.g in t.handles.executing)
    && s.handles.executing <= t.handles.executing
    && s.traffic.asked <= t.traffic.asked
  }

  ghost predicate Outline(s: State, a: Step, t: State) {
    TableOutline(s, a, t) && HandlesOutline(s, a, t)
  }

  lemma NewGoalStep(s: State, a: Step, g: GoalId)
    requires Enabled(s, a) && g in Section(s, a).0 && g !in s.goals
    ensures a.Receive? && a.g == g && Section(s, a).0[g] == Goal(Unknown, None)
  {
  }

  lemma ApplyTableOutline(s: State, a: Step)
    requires Inv(s) && Enabled(s, a)
    ensures TableOutline(s, a, Apply(s, a))
  {
    var t := Apply(s, a);
    var goals := Section(s, a).0;
    assert t.goals == goals && t.handles == HandlesAfter(s, a, Section(s, a).1);
    forall g | g in s.goals && g in goals ensures GoalMoves(s, a, s.goals[g], goals[g], g) {
      GoalStep(s, a, g);
    }
    forall g | g in goals && g !in s.goals ensures NewlyReceived(s, t, g) {
      NewGoalStep(s, a, g);
    }
  }

  lemma ApplyHandlesOutline(s: State, a: Step)
    requires Inv(s) && Enabled(s, a)
    ensures HandlesOutline(s, a, Apply(s, a))
  {
    var (goals, r) := Section(s, a);
    if (a.Start? || a.Accept?) && a.g in s.goals {
      assert GoalInv(s, a.g);
    }
  }

  lemma ApplyOutline(s: State, a: Step)
    requires Inv(s) && Enabled(s, a)
    ensures Outline(s, a, Apply(s, a))
  {
    ApplyTableOutline(s, a);
    ApplyHandlesOutline(s, a);
  }

  lemma OutlineMakesProgress(s: State, a: Step, t: State)
    requires Inv(s) && Outline(s, a, t)
    ensures Progress(s, t)
  {
  }

  lemma OutlineKeepsGoalsInv(s: State, a: Step, t: State)
    requires Inv(s) && Outline(s, a, t)
    ensures GoalsInv(t) && HandlesInv(t)
  {
    forall g | g in t.goals ensures GoalInv(t, g) {
      if g in s.goals {
        assert GoalInv(s, g);
      }
    }
    forall g | g in t.handles.accepted ensures g in t.handles.received && Decided(t, g) {
      if g in s.goals && g in t.goals {
        assert GoalMoves(s, a, s.goals[g], t.goals[g], g);
      }
    }
    forall g | g in t.handles.executing ensures g in t.handles.received {
      if g in s.goals {
        assert GoalInv(s, g);
      }
    }
  }

  lemma StepKeepsTasksInv(s: State, a: Step)
    requires Inv(s) && Enabled(s, a) && Progress(s, Apply(s, a))
    ensures TasksInv(Apply(s, a))
  {
    var t := Apply(s, a);
    forall k | k in t.tasks ensures TaskInv(t, k) {
      if k in s.tasks {
        assert TaskInv(s, k);
      } else {
        NewTaskInv(s, a, k);
      }
    }
  }

  lemma NewTaskInv(s: State, a: Step, k: Task)
    requires Inv(s) && Enabled(s, a) && k in Apply(s, a).tasks && k !in s.tasks
    ensures TaskInv(Apply(s, a), k)
  {
    match a
    case ReadRequest(g, end, req, asker) => assert TaskInv(s, AwaitRequest(g, end));
    case TestCancel(g) => assert GoalInv(s, g);
    case Abort(g) => assert GoalInv(s, g);
    case EndGoal(g, end, req, writeOk) => assert TaskInv(s, Finish(g, end, req));
    case _ =>
  }

  lemma TrafficStep(s: State, a: Step, r: GoalResult)
    requires Inv(s) && Enabled(s, a)
    ensures s.traffic.asked <= TrafficAfter(s, a, r).asked
    ensures forall x :: x in TrafficAfter(s, a, r).results ==> (x.1, x.0) in s.traffic.asked
  {
    if a.EndGoal? {
      assert TaskInv(s, Finish(a.g, a.end, a.req));
    }
  }

  lemma StepKeepsRequestsInv(s: State, a: Step)
    requires Inv(s) && Enabled(s, a)
    ensures RequestsInv(Apply(s, a))
  {
    TrafficStep(s, a, Section(s, a).1);
    var t := Apply(s, a);
    assert t.traffic == TrafficAfter(s, a, Section(s, a).1);
    forall g | g in t.resultRequests ensures (t.resultRequests[g], g) in t.traffic.asked {
      if a.ReadRequest? && g == a.asker {
        assert (a.req, a.asker) in s.traffic.asked;
      }
    }
  }

  lemma StepKeepsInv(s: State, a: Step)
    requires Inv(s) && Enabled(s, a)
    ensures Inv(Apply(s, a)) && Progress(s, Apply(s, a))
  {
    var t := Apply(s, a);
    ApplyOutline(s, a);
    OutlineMakesProgress(s, a, t);
    OutlineKeepsGoalsInv(s, a, t);
    StepKeepsTasksInv(s, a);
    StepKeepsRequestsInv(s, a);
  }

  lemma {:induction false} RunKeepsInv(trace: seq<State>, steps: seq<Step>, i: nat)
    requires IsRun(trace, steps) && i < |trace|
    ensures Inv(trace[i])
  {
    if i > 0 {
      RunKeepsInv(trace, steps, i - 1);
      StepKeepsInv(trace[i - 1], steps[i - 1]);
      assert trace[i - 1 + 1] == Apply(trace[i - 1], steps[i - 1]);
    }
  }

  lemma RunStep(trace: seq<State>, steps: seq<Step>, i: nat)
    requires IsRun(trace, steps) && i < |steps|
    ensures Inv(trace[i]) && Enabled(trace[i], steps[i]) && trace[i + 1] == Apply(trace[i], steps[i])
    ensures Inv(trace[i + 1]) && Progress(trace[i], trace[i + 1])
  {
    RunKeepsInv(trace, steps, i);
    StepKeepsInv(trace[i], steps[i]);
  }

  // ---------------------------------------------------------------------------------------
  // Goal history

  /** A goal never falls back: over any stretch of any run its rank does not decrease. */
  lemma {:induction false} RankNeverFalls(trace: seq<State>, steps: seq<Step>, i: nat, j: nat, g: GoalId)
    requires IsRun(trace, steps) && i <= j < |trace| && g in trace[i].goals && g in trace[j].goals
    ensures trace[i].goals[g].status.Rank() <= trace[j].goals[g].status.Rank()
    decreases j - i
  {
    if i < j {
      RunStep(trace, steps, i);
      assert GoalInv(trace[i], g);
      if g !in trace[i + 1].goals {
        GoneStaysGone(trace, steps, i + 1, j, g);
      } else {
        RankNeverFalls(trace, steps, i + 1, j, g);
      }
    }
  }

  lemma {:induction false} GoneStaysGone(trace: seq<State>, steps: seq<Step>, i: nat, j: nat, g: GoalId)
    requires IsRun(trace, steps) && i <= j < |trace| && g in trace[i].handles.received && g !in trace[i].goals
    ensures g !in trace[j].goals
    decreases j - i
  {
    if i < j {
      RunStep(trace, steps, i);
      GoneStaysGone(trace, steps, i + 1, j, g);
    }
  }

  /** A goal is Unknown exactly as long as it has no acceptance time. */
  lemma UnknownIffNotAccepted(trace: seq<State>, steps: seq<Step>, i: nat)
    requires IsRun(trace, steps) && i < |trace|
    ensures Stamps(trace[i].goals)
  {
    RunKeepsInv(trace, steps, i);
    forall g | g in trace[i].goals
      ensures trace[i].goals[g].status.Unknown? <==> trace[i].goals[g].acceptedTime.None?
    {
      assert GoalInv(trace[i], g);
    }
  }

  ghost predicate ExecutingAt(trace: seq<State>, i: nat, g: GoalId) {
    i < |trace| && g in trace[i].goals && trace[i].goals[g].status.Executing?
  }

  /** An executing handle is proof that the goal was Executing at some earlier time. */
  lemma {:induction false} HandleWasExecuting(trace: seq<State>, steps: seq<Step>, j: nat, g: GoalId) returns (i: nat)
    requires IsRun(trace, steps) && j < |trace| && g in trace[j].handles.executing
    ensures i <= j && ExecutingAt(trace, i, g)
  {
    RunStep(trace, steps, j - 1);
    if g in trace[j - 1].handles.executing {
      i := HandleWasExecuting(trace, steps, j - 1, g);
    } else {
      assert steps[j - 1] == Start(g);
      i := j;
    }
  }

  /** Every goal that succeeded was Executing before. */
  lemma SucceededWasExecuting(trace: seq<State>, steps: seq<Step>, j: nat, g: GoalId) returns (i: nat)
    requires IsRun(trace, steps) && j < |trace| && g in trace[j].goals && trace[j].goals[g].status.Succeeded?
    ensures i < j && ExecutingAt(trace, i, g)
  {
    RunKeepsInv(trace, steps, j);
    assert GoalInv(trace[j], g);
    i := HandleWasExecuting(trace, steps, j, g);
  }

  /** `send_result_response` never finds its goal merely accepted: that arm is unreachable. */
  lemma AcceptedArmUnreachable(trace: seq<State>, steps: seq<Step>, i: nat, g: GoalId, end: GoalEndStatus, req: RequestId)
    requires IsRun(trace, steps) && i < |trace| && Finish(g, end, req) in trace[i].tasks && g in trace[i].goals
    ensures trace[i].goals[g].status !in {Unknown, Accepted}
  {
    RunKeepsInv(trace, steps, i);
    assert TaskInv(trace[i], Finish(g, end, req)) && GoalInv(trace[i], g);
  }

  // ---------------------------------------------------------------------------------------
  // Exchanges with the clients

  /** Answers to a SendGoal request: those sent and those about to be. */
  function Answers(s: State, req: RequestId): nat {
    s.tasks[Respond(req, true)] + s.tasks[Respond(req, false)]
    + s.traffic.answers[(req, true)] + s.traffic.answers[(req, false)]
  }

  ghost predicate AnswersInv(s: State) {
    && (forall g, h :: g in s.handles.received && h in s.handles.received && s.handles.received[g] == s.handles.received[h]
          ==> g == h)
    && (forall g :: g in s.handles.received ==> Answers(s, s.handles.received[g]) <= if Decided(s, g) then 1 else 0)
    && (forall req :: req !in s.handles.received.Values ==> Answers(s, req) == 0)
  }

  /** The step has this SendGoal request answered one way or the other. */
  predicate Decides(s: State, a: Step, req: RequestId)
    requires Enabled(s, a)
  {
    (a.Accept? || a.Reject?) && Section(s, a).1.Done? && s.handles.received[a.g] == req
  }

  /** The answers that a step adds to those under way, and the one it passes. */
  function AnswersAdded(s: State, a: Step, r: GoalResult, req: RequestId, accepted: bool): int
    requires Enabled(s, a)
  {
    (if (a.Accept? || a.Reject?) && a.Accept? == accepted && r.Done? && s.handles.received[a.g] == req then 1 else 0)
    - (if a == SendAnswer(req, accepted) then 1 else 0)
  }

  lemma AnswersOnEnd(s: State, a: Step, r: GoalResult, req: RequestId, accepted: bool)
    requires Enabled(s, a) && a.EndGoal?
    ensures var k := Respond(req, accepted);
            TasksAfter(s, a, r)[k] <= s.tasks[k] + AnswersAdded(s, a, r, req, accepted)
  {
  }

  lemma AnswersOnResult(s: State, a: Step, r: GoalResult, req: RequestId, accepted: bool)
    requires Enabled(s, a) && (a.BeginResult? || a.ReadRequest? || a.TestCancel?)
    ensures var k := Respond(req, accepted);
            TasksAfter(s, a, r)[k] <= s.tasks[k] + AnswersAdded(s, a, r, req, accepted)
  {
  }

  lemma RespondTaskStep(s: State, a: Step, r: GoalResult, req: RequestId, accepted: bool)
    requires Enabled(s, a)
    ensures var k := Respond(req, accepted);
            TasksAfter(s, a, r)[k] <= s.tasks[k] + AnswersAdded(s, a, r, req, accepted)
  {
    if a.EndGoal? {
      AnswersOnEnd(s, a, r, req, accepted);
    } else if a.BeginResult? || a.ReadRequest? || a.TestCancel? {
      AnswersOnResult(s, a, r, req, accepted);
    }
  }

  lemma AnswersStep(s: State, a: Step, req: RequestId)
    requires Enabled(s, a)
    ensures Answers(Apply(s, a), req) <= Answers(s, req) + if Decides(s, a, req) then 1 else 0
  {
    var r := Section(s, a).1;
    assert Apply(s, a).tasks == TasksAfter(s, a, r) && Apply(s, a).traffic == TrafficAfter(s, a, r);
    RespondTaskStep(s, a, r, req, true);
    RespondTaskStep(s, a, r, req, false);
    var before, after := s.traffic.answers, TrafficAfter(s, a, r).answers;
    assert after == if a.SendAnswer? then before + multiset{(a.req, a.accepted)} else before;
  }

  lemma ReceivedStep(s: State, a: Step, g: GoalId)
    requires Enabled(s, a)
    ensures g in s.handles.received ==>
              g in Apply(s, a).handles.received && Apply(s, a).handles.received[g] == s.handles.received[g]
    ensures g in Apply(s, a).handles.received && g !in s.handles.received ==>
              a.Receive? && a.g == g && g !in s.goals && Apply(s, a).handles.received[g] !in s.handles.received.Values
              && g in Apply(s, a).goals && Apply(s, a).goals[g].status.Unknown?
  {
  }

  lemma AnswersInvAt(s: State, a: Step, g: GoalId)
    requires Inv(s) && AnswersInv(s) && Enabled(s, a) && Progress(s, Apply(s, a))
    requires g in Apply(s, a).handles.received
    ensures var t := Apply(s, a); Answers(t, t.handles.received[g]) <= if Decided(t, g) then 1 else 0
  {
    var t := Apply(s, a);
    var req := t.handles.received[g];
    AnswersStep(s, a, req);
    ReceivedStep(s, a, g);
    if g in s.handles.received {
      DecidedStays(s, a, g);
      assert Decides(s, a, req) ==> a.g == g;
    }
  }

  lemma StepKeepsAnswersInv(s: State, a: Step)
    requires Inv(s) && AnswersInv(s) && Enabled(s, a) && Progress(s, Apply(s, a))
    ensures AnswersInv(Apply(s, a))
  {
    var t := Apply(s, a);
    forall g | g in t.handles.received ensures Answers(t, t.handles.received[g]) <= if Decided(t, g) then 1 else 0 {
      AnswersInvAt(s, a, g);
    }
    forall req | req !in t.handles.received.Values ensures Answers(t, req) == 0 {
      AnswersStep(s, a, req);
      if g :| g in s.handles.received && s.handles.received[g] == req {
        ReceivedStep(s, a, g);
      }
    }
    forall g, h | g in t.handles.received && h in t.handles.received && t.handles.received[g] == t.handles.received[h]
      ensures g == h
    {
      ReceivedStep(s, a, g);
      ReceivedStep(s, a, h);
    }
  }

  /** A decided goal stays decided, and an accept or reject of it succeeds only while undecided. */
  lemma DecidedStays(s: State, a: Step, g: GoalId)
    requires Inv(s) && Enabled(s, a) && Progress(s, Apply(s, a)) && g in s.handles.received
    ensures Decided(s, g) ==> Decided(Apply(s, a), g)
    ensures (a.Accept? || a.Reject?) && a.g == g && Section(s, a).1.Done? ==> !Decided(s, g) && Decided(Apply(s, a), g)
  {
  }

  lemma {:induction false} RunKeepsAnswersInv(trace: seq<State>, steps: seq<Step>, i: nat)
    requires IsRun(trace, steps) && i < |trace|
    ensures AnswersInv(trace[i])
  {
    if i > 0 {
      RunKeepsAnswersInv(trace, steps, i - 1);
      RunStep(trace, steps, i - 1);
      StepKeepsAnswersInv(trace[i - 1], steps[i - 1]);
    }
  }

  /** Each SendGoal request is answered at most once, accepted or rejected but never both,
      however many tasks use copies of its handle. */
  lemma AnsweredAtMostOnce(trace: seq<State>, steps: seq<Step>, i: nat, req: RequestId)
    requires IsRun(trace, steps) && i < |trace|
    ensures trace[i].traffic.answers[(req, true)] + trace[i].traffic.answers[(req, false)] <= 1
  {
    RunKeepsAnswersInv(trace, steps, i);
    var s := trace[i];
    if req in s.handles.received.Values {
      var g :| g in s.handles.received && s.handles.received[g] == req;
    }
  }

  /** Every result goes to a request that asked for that very goal, whichever of the concurrent
      receive loops read the request. */
  lemma ResultsGoWhereAsked(trace: seq<State>, steps: seq<Step>, i: nat, g: GoalId, req: RequestId, status: GoalStatus)
    requires IsRun(trace, steps) && i < |trace| && (g, req, status) in trace[i].traffic.results
    ensures (req, g) in trace[i].traffic.asked
  {
    RunKeepsInv(trace, steps, i);
  }

  /** An accepted goal is answered positively, to the request it came with, and a rejected one
      negatively, once the task that decided goes on. */
  lemma DecisionIsAnswered(s: State, g: GoalId, now: Time)
    requires g in s.handles.received && g in s.goals && s.goals[g].status.Unknown?
    ensures var req := s.handles.received[g];
            var t := Apply(s, Accept(g, now));
            && t.goals == s.goals[g := Goal(Accepted, Some(now))] && Enabled(t, SendAnswer(req, true))
            && Apply(t, SendAnswer(req, true)).traffic.answers == s.traffic.answers + multiset{(req, true)}
    ensures var req := s.handles.received[g];
            var t := Apply(s, Reject(g));
            && t.goals == s.goals - {g} && Enabled(t, SendAnswer(req, false))
            && Apply(t, SendAnswer(req, false)).traffic.answers == s.traffic.answers + multiset{(req, false)}
  {
  }

  ghost predicate WasAccepted(s: State, req: RequestId) {
    exists g :: g in s.handles.received && s.handles.received[g] == req && g in s.handles.accepted
  }

  ghost predicate WasRejected(s: State, req: RequestId) {
    exists g :: g in s.handles.received && s.handles.received[g] == req && g !in s.handles.accepted && g !in s.goals
  }

  /** An answer that was sent, or is about to be. */
  ghost predicate Answered(s: State, req: RequestId, accepted: bool) {
    s.traffic.answers[(req, accepted)] > 0 || Respond(req, accepted) in s.tasks
  }

  lemma AnsweredStep(s: State, a: Step, req: RequestId, accepted: bool)
    requires Enabled(s, a) && Answered(Apply(s, a), req, accepted) && !Answered(s, req, accepted)
    ensures (a.Accept? || a.Reject?) && a.Accept? == accepted
    ensures s.handles.received[a.g] == req && a.g in s.goals && s.goals[a.g].status.Unknown?
  {
    var r := Section(s, a).1;
    assert Apply(s, a).tasks == TasksAfter(s, a, r) && Apply(s, a).traffic == TrafficAfter(s, a, r);
    RespondTaskStep(s, a, r, req, accepted);
    assert !(a == SendAnswer(req, accepted));
  }

  lemma DecisionsStay(s: State, a: Step, req: RequestId)
    requires Inv(s) && Enabled(s, a)
    ensures WasAccepted(s, req) ==> WasAccepted(Apply(s, a), req)
    ensures WasRejected(s, req) ==> WasRejected(Apply(s, a), req)
  {
    var t := Apply(s, a);
    StepKeepsInv(s, a);
    if WasAccepted(s, req) {
      var g :| g in s.handles.received && s.handles.received[g] == req && g in s.handles.accepted;
      ReceivedStep(s, a, g);
      assert g in t.handles.accepted;
    }
    if WasRejected(s, req) {
      var g :| g in s.handles.received && s.handles.received[g] == req && g !in s.handles.accepted && g !in s.goals;
      ReceivedStep(s, a, g);
      assert g !in t.goals && g !in t.handles.accepted;
    }
  }

  lemma DecisionStep(s: State, a: Step, req: RequestId, accepted: bool)
    requires Inv(s) && Enabled(s, a) && Answered(Apply(s, a), req, accepted) && !Answered(s, req, accepted)
    ensures if accepted then WasAccepted(Apply(s, a), req) else WasRejected(Apply(s, a), req)
  {
    AnsweredStep(s, a, req, accepted);
    var t := Apply(s, a);
    ReceivedStep(s, a, a.g);
    if accepted {
      assert a.g in t.handles.accepted;
    } else {
      assert a.g !in s.handles.accepted;
      assert a.g !in t.goals && a.g !in t.handles.accepted;
    }
  }

  /** Over all runs, a positive answer is that of a request whose goal was accepted, a negative one
      that of a request whose goal was not and is gone. */
  lemma {:induction false} AnswersTellDecisions(trace: seq<State>, steps: seq<Step>, i: nat, req: RequestId)
    requires IsRun(trace, steps) && i < |trace|
    ensures Answered(trace[i], req, true) ==> WasAccepted(trace[i], req)
    ensures Answered(trace[i], req, false) ==> WasRejected(trace[i], req)
  {
    if i > 0 {
      AnswersTellDecisions(trace, steps, i - 1, req);
      RunStep(trace, steps, i - 1);
      var s, a := trace[i - 1], steps[i - 1];
      DecisionsStay(s, a, req);
      if Answered(trace[i], req, true) && !Answered(s, req, true) {
        DecisionStep(s, a, req, true);
      }
      if Answered(trace[i], req, false) && !Answered(s, req, false) {
        DecisionStep(s, a, req, false);
      }
    }
  }

  /** A request for another goal that is read on the way is buffered, and the task for that goal then
      finds it at once. */
  lemma OtherRequestsAreBuffered(s: State, g: GoalId, end: GoalEndStatus, req: RequestId, other: GoalId,
                                 otherEnd: GoalEndStatus)
    requires AwaitRequest(g, end) in s.tasks && (req, other) in s.traffic.asked && other != g
    ensures var t := Apply(s, ReadRequest(g, end, req, other));
            && t.resultRequests == s.resultRequests[other := req] && t.tasks == s.tasks && t.goals == s.goals
            && (other in s.handles.executing ==>
                  Apply(t, BeginResult(other, otherEnd)).tasks == s.tasks + multiset{Finish(other, otherEnd, req)})
  {
  }

  // ---------------------------------------------------------------------------------------
  // How goals end

  /** The goal has the status after the step and had not before. */
  predicate Becomes(s: State, t: State, g: GoalId, status: GoalStatus) {
    g in t.goals && t.goals[g].status == status && !(g in s.goals && s.goals[g].status == status)
  }

  /** Which step gives a goal which status. */
  predicate Gives(a: Step, g: GoalId, status: GoalStatus) {
    match status
    case Unknown => a.Receive? && a.g == g
    case Accepted => a.Accept? && a.g == g
    case Executing => a == Start(g)
    case Canceling => a == ApplyCancel(g)
    case Succeeded => a.EndGoal? && a.g == g && a.end == EndSucceeded
    case Canceled => a.EndGoal? && a.g == g && a.end == EndCanceled
    case Aborted => a == Abort(g) || (a.EndGoal? && a.g == g && a.end == EndAborted)
  }

  lemma StatusStep(s: State, a: Step, g: GoalId)
    requires Enabled(s, a) && g in Section(s, a).0
    ensures var status := Section(s, a).0[g].status;
            (g in s.goals && s.goals[g].status == status) || Gives(a, g, status)
  {
  }

  /** Over all runs, a goal gets each status only by the step that is meant to give it: it is
      aborted only by an abort or by being ended as aborted, and succeeds or is canceled only by
      being ended so. */
  lemma StatusesAreGiven(trace: seq<State>, steps: seq<Step>, i: nat, g: GoalId, status: GoalStatus)
    requires IsRun(trace, steps) && i < |steps|
    ensures Becomes(trace[i], trace[i + 1], g, status) ==> Gives(steps[i], g, status)
  {
    RunStep(trace, steps, i);
    assert trace[i + 1].goals == Section(trace[i], steps[i]).0;
    if g in trace[i + 1].goals {
      StatusStep(trace[i], steps[i], g);
    }
  }

  /** ... and a goal that can be ended gets the status that was asked for. */
  lemma EndsAsAsked(s: State, g: GoalId, end: GoalEndStatus, req: RequestId, writeOk: bool)
    requires Finish(g, end, req) in s.tasks && g in s.goals && s.goals[g].status in {Accepted, Executing, Canceling}
    ensures var t := Apply(s, EndGoal(g, end, req, writeOk));
            g in t.goals && Means(end, t.goals[g].status) && t.goals[g].acceptedTime == s.goals[g].acceptedTime
  {
  }

  /** The step ends the goal and gets its result, with the status, written to the request. */
  predicate SendsResult(s: State, a: Step, g: GoalId, req: RequestId, status: GoalStatus) {
    && a.EndGoal? && a.g == g && a.req == req && a.writeOk && Means(a.end, status)
    && g in s.goals && s.goals[g].status in {Accepted, Executing, Canceling}
  }

  ghost predicate ResultSentBefore(trace: seq<State>, steps: seq<Step>, i: nat, g: GoalId, req: RequestId,
                                   status: GoalStatus) {
    exists k :: 0 <= k < i && k < |steps| && k < |trace| && SendsResult(trace[k], steps[k], g, req, status)
  }

  lemma ResultsStep(s: State, a: Step, g: GoalId, req: RequestId, status: GoalStatus)
    requires Enabled(s, a)
    ensures (g, req, status) in Apply(s, a).traffic.results <==>
              (g, req, status) in s.traffic.results || SendsResult(s, a, g, req, status)
  {
    if a.EndGoal? {
      ResultsOnEnd(s, a, g, req, status);
    } else {
      assert Apply(s, a).traffic.results == s.traffic.results;
    }
  }

  lemma ResultsOnEnd(s: State, a: Step, g: GoalId, req: RequestId, status: GoalStatus)
    requires Enabled(s, a) && a.EndGoal?
    ensures (g, req, status) in Apply(s, a).traffic.results <==>
              (g, req, status) in s.traffic.results || SendsResult(s, a, g, req, status)
  {
    assert FinishSection(s.goals, a.g, a.end).1.Done? <==>
             a.g in s.goals && s.goals[a.g].status in {Accepted, Executing, Canceling};
    assert Means(a.end, status) <==> status == a.end.Status();
  }

  /** The results sent in a run are exactly those of the steps that ended a goal and wrote its
      result, each with the status that the step asked for. */
  lemma {:induction false} ResultsTellEnds(trace: seq<State>, steps: seq<Step>, i: nat, g: GoalId, req: RequestId,
                                            status: GoalStatus)
    requires IsRun(trace, steps) && i < |trace|
    ensures (g, req, status) in trace[i].traffic.results <==> ResultSentBefore(trace, steps, i, g, req, status)
  {
    if i > 0 {
      ResultsTellEnds(trace, steps, i - 1, g, req, status);
      RunStep(trace, steps, i - 1);
      ResultsStep(trace[i - 1], steps[i - 1], g, req, status);
      if ResultSentBefore(trace, steps, i, g, req, status) {
        var k :| 0 <= k < i && k < |steps| && k < |trace| && SendsResult(trace[k], steps[k], g, req, status);
      }
    }
  }

  // ---------------------------------------------------------------------------------------
  // Ended goals

  predicate Ended(s: State, g: GoalId) {
    g in s.goals && s.goals[g].status.Terminal()
  }

  ghost predicate KeepsEnded(s: State, t: State) {
    forall g :: Ended(s, g) && g in t.goals ==> t.goals[g] == s.goals[g]
  }

  /** A cancel that is marked only on a goal that has not ended meanwhile. The code itself does
      not check this. */
  predicate SparesEnded(s: State, a: Step) {
    a.ApplyCancel? ==> !Ended(s, a.g)
  }

  lemma EndedGoalStep(s: State, a: Step, g: GoalId)
    requires Inv(s) && Enabled(s, a) && Ended(s, g) && g in Section(s, a).0
    ensures Section(s, a).0[g] == (if a == ApplyCancel(g) then Goal(Canceling, s.goals[g].acceptedTime) else s.goals[g])
  {
    assert GoalInv(s, g);
  }

  /** Terminal states are absorbing in a step exactly if it is not a cancel of an ended goal. */
  lemma EndedKeptIff(s: State, a: Step)
    requires Inv(s) && Enabled(s, a)
    ensures KeepsEnded(s, Apply(s, a)) <==> SparesEnded(s, a)
  {
    assert Apply(s, a).goals == Section(s, a).0;
    forall g | Ended(s, g) && g in Section(s, a).0
      ensures Section(s, a).0[g] == s.goals[g] <==> a != ApplyCancel(g)
    {
      EndedGoalStep(s, a, g);
    }
    if !SparesEnded(s, a) {
      assert Ended(s, a.g);
    }
  }

  ghost predicate EndedKeptAt(trace: seq<State>, i: nat) {
    i + 1 < |trace| ==> KeepsEnded(trace[i], trace[i + 1])
  }

  predicate CancelSparesAt(trace: seq<State>, steps: seq<Step>, i: nat) {
    i < |trace| && i < |steps| ==> SparesEnded(trace[i], steps[i])
  }

  /** ... and so over whole runs. */
  lemma EndedKeptInRunsIff(trace: seq<State>, steps: seq<Step>)
    requires IsRun(trace, steps)
    ensures (forall i: nat :: EndedKeptAt(trace, i)) <==> (forall i: nat :: CancelSparesAt(trace, steps, i))
  {
    forall i: nat ensures EndedKeptAt(trace, i) <==> CancelSparesAt(trace, steps, i) {
      if i < |steps| {
        RunStep(trace, steps, i);
        EndedKeptIff(trace[i], steps[i]);
      }
    }
  }

  // ---------------------------------------------------------------------------------------
  // What the future of a state holds

  /** `t` is reached from `s` by the steps. */
  ghost predicate Leads(s: State, steps: seq<Step>, t: State)
    decreases |steps|
  {
    if steps == [] then s == t
    else Enabled(s, steps[0]) && Leads(Apply(s, steps[0]), steps[1..], t)
  }

  /** No cancel is marked. */
  predicate Quiet(steps: seq<Step>) {
    forall i :: 0 <= i < |steps| ==> !steps[i].ApplyCancel?
  }

  lemma LeadsByOneMore(s: State, a: Step, steps: seq<Step>, t: State) returns (more: seq<Step>)
    requires Enabled(s, a) && Leads(Apply(s, a), steps, t)
    ensures more == [a] + steps && Leads(s, more, t)
  {
    more := [a] + steps;
    assert more[1..] == steps;
  }

  /** `t` is `s` after the goal has been ended with a result; cancels that were under way are so
      still. */
  ghost predicate Reported(s: State, t: State, g: GoalId, end: GoalEndStatus) {
    && t.handles == s.handles
    && t.traffic.resultsFor == s.traffic.resultsFor + multiset{g}
    && g in t.goals && Means(end, t.goals[g].status)
    && forall h :: MarkCancel(h) in s.tasks ==> MarkCancel(h) in t.tasks
  }

  predicate CanBeReported(s: State, g: GoalId) {
    g in s.handles.executing && g in s.goals && s.goals[g].status in {Executing, Canceling}
  }

  lemma SendFound(s: State, g: GoalId, end: GoalEndStatus, req: RequestId) returns (steps: seq<Step>, t: State)
    requires CanBeReported(s, g) && Finish(g, end, req) in s.tasks
    ensures Quiet(steps) && Leads(s, steps, t) && Reported(s, t, g, end)
  {
    t := Apply(s, EndGoal(g, end, req, true));
    steps := LeadsByOneMore(s, EndGoal(g, end, req, true), [], t);
  }

  /** What the steps before the end of a goal leave alone. */
  ghost predicate Prepared(s: State, t: State) {
    && t.goals == s.goals && t.handles == s.handles && t.traffic.resultsFor == s.traffic.resultsFor
    && forall h :: MarkCancel(h) in s.tasks ==> MarkCancel(h) in t.tasks
  }

  lemma ReadPrepares(s: State, g: GoalId, end: GoalEndStatus, req: RequestId)
    requires AwaitRequest(g, end) in s.tasks && (req, g) in s.traffic.asked
    ensures var t := Apply(s, ReadRequest(g, end, req, g)); Prepared(s, t) && Finish(g, end, req) in t.tasks
  {
  }

  lemma BeginPrepares(s: State, g: GoalId, end: GoalEndStatus)
    requires g in s.handles.executing
    ensures var t := Apply(s, BeginResult(g, end));
            && Prepared(s, t) && t.traffic == s.traffic
            && (if g in s.resultRequests then Finish(g, end, s.resultRequests[g]) in t.tasks
                else AwaitRequest(g, end) in t.tasks)
  {
  }

  lemma ReportedAfter(s: State, u: State, t: State, g: GoalId, end: GoalEndStatus)
    requires Prepared(s, u) && Reported(u, t, g, end)
    ensures Reported(s, t, g, end)
  {
  }

  lemma SendRead(s: State, g: GoalId, end: GoalEndStatus, req: RequestId) returns (steps: seq<Step>, t: State)
    requires CanBeReported(s, g) && AwaitRequest(g, end) in s.tasks && (req, g) in s.traffic.asked
    ensures Quiet(steps) && Leads(s, steps, t) && Reported(s, t, g, end)
  {
    var u := Apply(s, ReadRequest(g, end, req, g));
    ReadPrepares(s, g, end, req);
    steps, t := SendFound(u, g, end, req);
    ReportedAfter(s, u, t, g, end);
    steps := LeadsByOneMore(s, ReadRequest(g, end, req, g), steps, t);
  }

  lemma SendBegun(s: State, g: GoalId, end: GoalEndStatus, req: RequestId) returns (steps: seq<Step>, t: State)
    requires CanBeReported(s, g) && (req, g) in s.traffic.asked
    ensures Quiet(steps) && Leads(s, steps, t) && Reported(s, t, g, end)
  {
    var u := Apply(s, BeginResult(g, end));
    BeginPrepares(s, g, end);
    if g in s.resultRequests {
      steps, t := SendFound(u, g, end, s.resultRequests[g]);
    } else {
      steps, t := SendRead(u, g, end, req);
    }
    ReportedAfter(s, u, t, g, end);
    steps := LeadsByOneMore(s, BeginResult(g, end), steps, t);
  }

  /** A goal that executes can be ended with a result, whatever else is under way, once a client
      asks for it. */
  lemma SendResult(s: State, g: GoalId, end: GoalEndStatus, req: RequestId) returns (steps: seq<Step>, t: State)
    requires CanBeReported(s, g)
    ensures Quiet(steps) && Leads(s, steps, t) && Reported(s, t, g, end)
  {
    steps, t := SendBegun(Apply(s, AskResult(req, g)), g, end, req);
    steps := LeadsByOneMore(s, AskResult(req, g), steps, t);
  }

  // ---------------------------------------------------------------------------------------
  // When flushing stays clean

  /** Entries for `g` in the list of finished goals, and pushes to it that are under way. */
  function Closings(s: State, g: GoalId): nat {
    multiset(s.finished)[g] + s.tasks[MarkFinished(g)]
  }

  ghost predicate ClosingsInv(s: State) {
    forall g :: Closings(s, g) <= if Ended(s, g) then 1 else 0
  }

  /** A cancel that is not marked on an ended goal whose entry in the list of finished goals is
      there or under way. The code does not check this. */
  predicate SparesListed(s: State, a: Step) {
    a.ApplyCancel? ==> !(Ended(s, a.g) && Closings(s, a.g) > 0)
  }

  /** The step ends goal `g`. */
  predicate Ends(s: State, a: Step, g: GoalId) {
    (a.Abort? || (a.EndGoal? && a.writeOk)) && a.g == g && Section(s, a).1.Done?
  }

  /** The pushes that a step adds to those under way, and the one it passes. */
  function PushesAdded(s: State, a: Step, r: GoalResult, g: GoalId): int {
    (if (a.Abort? || (a.EndGoal? && a.writeOk)) && a.g == g && r.Done? then 1 else 0)
    - (if a.PushFinished? && a.g == g then 1 else 0)
  }

  lemma PushesOnEnd(s: State, a: Step, r: GoalResult, g: GoalId)
    requires Enabled(s, a) && a.EndGoal?
    ensures TasksAfter(s, a, r)[MarkFinished(g)] <= s.tasks[MarkFinished(g)] + PushesAdded(s, a, r, g)
  {
  }

  lemma PushesOnResult(s: State, a: Step, r: GoalResult, g: GoalId)
    requires Enabled(s, a) && (a.BeginResult? || a.ReadRequest? || a.TestCancel?)
    ensures TasksAfter(s, a, r)[MarkFinished(g)] <= s.tasks[MarkFinished(g)] + PushesAdded(s, a, r, g)
  {
  }

  lemma PushesStep(s: State, a: Step, r: GoalResult, g: GoalId)
    requires Enabled(s, a)
    ensures TasksAfter(s, a, r)[MarkFinished(g)] <= s.tasks[MarkFinished(g)] + PushesAdded(s, a, r, g)
  {
    if a.EndGoal? {
      PushesOnEnd(s, a, r, g);
    } else if a.BeginResult? || a.ReadRequest? || a.TestCancel? {
      PushesOnResult(s, a, r, g);
    }
  }

  lemma ClosingsStep(s: State, a: Step, g: GoalId)
    requires Enabled(s, a)
    ensures Closings(Apply(s, a), g) <= Closings(s, g) + if Ends(s, a, g) then 1 else 0
    ensures a.Flush? && g in s.finished ==> Closings(Apply(s, a), g) < Closings(s, g)
  {
    var r := Section(s, a).1;
    var finished := Apply(s, a).finished;
    assert Apply(s, a).tasks == TasksAfter(s, a, r);
    PushesStep(s, a, r, g);
    assert g in s.finished <==> multiset(s.finished)[g] > 0;
    if a.PushFinished? {
      assert multiset(finished) == multiset(s.finished) + multiset{a.g};
    } else if a.Flush? {
      assert finished == [];
    } else {
      assert finished == s.finished;
    }
  }

  lemma EndsStep(s: State, a: Step, g: GoalId)
    requires Enabled(s, a) && Ends(s, a, g)
    ensures g in s.goals && !Ended(s, g) && Ended(Apply(s, a), g)
  {
  }

  /** An ended goal stays ended, unless it is flushed or canceled. */
  lemma EndedStep(s: State, a: Step, g: GoalId)
    requires Inv(s) && Enabled(s, a) && Ended(s, g) && a != ApplyCancel(g) && !(a.Flush? && g in s.finished)
    ensures Ended(Apply(s, a), g)
  {
    var goals := Section(s, a).0;
    assert GoalInv(s, g);
    assert g in goals && goals[g] == s.goals[g];
  }

  lemma StepKeepsClosingsInv(s: State, a: Step)
    requires Inv(s) && ClosingsInv(s) && Enabled(s, a) && SparesListed(s, a)
    ensures ClosingsInv(Apply(s, a))
  {
    forall g ensures Closings(Apply(s, a), g) <= if Ended(Apply(s, a), g) then 1 else 0 {
      ClosingsStep(s, a, g);
      if Ends(s, a, g) {
        EndsStep(s, a, g);
      } else if Closings(s, g) > 0 && !(a.Flush? && g in s.finished) {
        EndedStep(s, a, g);
      }
    }
  }

  lemma ClosingsInvIsClean(s: State)
    requires ClosingsInv(s)
    ensures FlushIsClean(s.goals, s.finished)
  {
    forall g | g in s.finished ensures Ended(s, g) {
      assert multiset(s.finished)[g] > 0 && Closings(s, g) <= 1;
    }
    forall j, k | 0 <= j < k < |s.finished| ensures s.finished[j] != s.finished[k] {
      var f := s.finished;
      assert f == f[..k] + [f[k]] + f[k + 1..];
      assert f[j] in f[..k];
      assert Closings(s, f[j]) <= 1 && Closings(s, f[k]) <= 1;
      assert multiset(f) == multiset(f[..k]) + multiset{f[k]} + multiset(f[k + 1..]);
    }
  }

  /** However the state goes on without another cancel mark, a flush never meets a lost goal, a
      repeated entry, or one that has not ended. */
  ghost predicate CleanFrom(s: State) {
    forall steps, t :: Quiet(steps) && Leads(s, steps, t) ==> FlushIsClean(t.goals, t.finished)
  }

  lemma {:induction false} QuietKeepsClosingsInv(s: State, steps: seq<Step>, t: State)
    requires Inv(s) && ClosingsInv(s) && Quiet(steps) && Leads(s, steps, t)
    ensures ClosingsInv(t)
    decreases |steps|
  {
    if steps != [] {
      StepKeepsInv(s, steps[0]);
      StepKeepsClosingsInv(s, steps[0]);
      QuietKeepsClosingsInv(Apply(s, steps[0]), steps[1..], t);
    }
  }

  lemma PushSpoils(s: State, g: GoalId)
    requires MarkFinished(g) in s.tasks && !Ended(s, g)
    ensures !CleanFrom(s)
  {
    var t := Apply(s, PushFinished(g));
    var steps := LeadsByOneMore(s, PushFinished(g), [], t);
    assert t.finished[|s.finished|] == g;
    assert Quiet(steps) && Leads(s, steps, t) && !FlushIsClean(t.goals, t.finished);
  }

  /** A cancel mark on a listed goal: the flush is not clean at once, or after the push. */
  lemma ListedCancelSpoils(s: State, g: GoalId)
    requires Enabled(s, ApplyCancel(g)) && !SparesListed(s, ApplyCancel(g))
    ensures !CleanFrom(Apply(s, ApplyCancel(g)))
  {
    var t := Apply(s, ApplyCancel(g));
    assert !Ended(t, g) && Closings(t, g) == Closings(s, g);
    if g in t.finished {
      assert Quiet([]) && Leads(t, [], t) && !FlushIsClean(t.goals, t.finished);
    } else {
      assert multiset(t.finished)[g] == 0;
      PushSpoils(t, g);
    }
  }

  ghost predicate CleanFromAt(trace: seq<State>, i: nat) {
    i < |trace| ==> CleanFrom(trace[i])
  }

  predicate SparesListedAt(trace: seq<State>, steps: seq<Step>, i: nat) {
    i < |trace| && i < |steps| ==> SparesListed(trace[i], steps[i])
  }

  lemma {:induction false} RunKeepsClosingsInv(trace: seq<State>, steps: seq<Step>, i: nat)
    requires IsRun(trace, steps) && i < |trace| && forall k: nat :: SparesListedAt(trace, steps, k)
    ensures ClosingsInv(trace[i])
  {
    if i > 0 {
      RunKeepsClosingsInv(trace, steps, i - 1);
      RunStep(trace, steps, i - 1);
      assert SparesListedAt(trace, steps, i - 1);
      StepKeepsClosingsInv(trace[i - 1], steps[i - 1]);
    }
  }

  /** Flushing is clean in every state of a run and in all that can follow it exactly if no cancel
      is marked on an ended goal that is listed, or about to be, as finished. */
  lemma FlushCleanIff(trace: seq<State>, steps: seq<Step>)
    requires IsRun(trace, steps)
    ensures (forall i: nat :: CleanFromAt(trace, i)) <==> (forall i: nat :: SparesListedAt(trace, steps, i))
  {
    if forall i: nat :: SparesListedAt(trace, steps, i) {
      forall i: nat ensures CleanFromAt(trace, i) {
        if i < |trace| {
          RunKeepsInv(trace, steps, i);
          RunKeepsClosingsInv(trace, steps, i);
          forall more, t | Quiet(more) && Leads(trace[i], more, t) ensures FlushIsClean(t.goals, t.finished) {
            QuietKeepsClosingsInv(trace[i], more, t);
            ClosingsInvIsClean(t);
          }
        }
      }
    } else {
      var i: nat :| !SparesListedAt(trace, steps, i);
      RunStep(trace, steps, i);
      ListedCancelSpoils(trace[i], steps[i].g);
      assert !CleanFromAt(trace, i + 1);
    }
  }

  // ---------------------------------------------------------------------------------------
  // When a goal gets one result

  ghost predicate ResultsInv(s: State) {
    forall g :: s.traffic.resultsFor[g] <= if g in s.handles.received && (g in s.goals ==> Ended(s, g)) then 1 else 0
  }

  /** A goal has executed before its result is sent. */
  ghost predicate ReportedInv(s: State) {
    forall g :: s.traffic.resultsFor[g] > 0 ==> g in s.handles.executing
  }

  /** A cancel that is not marked on an ended goal whose result has been sent. */
  predicate SparesReported(s: State, a: Step) {
    a.ApplyCancel? ==> !(Ended(s, a.g) && s.traffic.resultsFor[a.g] > 0)
  }

  /** The step sends a result for `g`. */
  predicate Reports(s: State, a: Step, g: GoalId) {
    a.EndGoal? && a.g == g && a.writeOk && Section(s, a).1.Done?
  }

  lemma ReportsStep(s: State, a: Step, g: GoalId)
    requires Enabled(s, a)
    ensures Apply(s, a).traffic.resultsFor[g] == s.traffic.resultsFor[g] + if Reports(s, a, g) then 1 else 0
  {
    assert Apply(s, a).traffic == TrafficAfter(s, a, Section(s, a).1);
  }

  lemma StepKeepsResultsInvAt(s: State, a: Step, g: GoalId)
    requires Inv(s) && ResultsInv(s) && Enabled(s, a) && SparesReported(s, a) && Progress(s, Apply(s, a))
    ensures var t := Apply(s, a);
            t.traffic.resultsFor[g] <= if g in t.handles.received && (g in t.goals ==> Ended(t, g)) then 1 else 0
  {
    var t := Apply(s, a);
    ReportsStep(s, a, g);
    if Reports(s, a, g) {
      assert Ends(s, a, g);
      EndsStep(s, a, g);
      assert GoalInv(s, g);
    } else if s.traffic.resultsFor[g] > 0 && g in t.goals {
      assert g in s.goals && Ended(s, g);
      assert !(a.Flush? && g in s.finished) by {
        if a.Flush? {
          assert t.goals == s.goals - Members(s.finished);
        }
      }
      EndedStep(s, a, g);
    }
  }

  lemma StepKeepsResultsInv(s: State, a: Step)
    requires Inv(s) && ResultsInv(s) && Enabled(s, a) && SparesReported(s, a)
    ensures ResultsInv(Apply(s, a))
  {
    StepKeepsInv(s, a);
    forall g ensures var t := Apply(s, a);
        t.traffic.resultsFor[g] <= if g in t.handles.received && (g in t.goals ==> Ended(t, g)) then 1 else 0
    {
      StepKeepsResultsInvAt(s, a, g);
    }
  }

  lemma StepKeepsReportedInvAt(s: State, a: Step, g: GoalId)
    requires Inv(s) && ReportedInv(s) && Enabled(s, a) && s.handles.executing <= Apply(s, a).handles.executing
    ensures Apply(s, a).traffic.resultsFor[g] > 0 ==> g in Apply(s, a).handles.executing
  {
    ReportsStep(s, a, g);
    if Reports(s, a, g) {
      assert TaskInv(s, Finish(a.g, a.end, a.req));
    }
  }

  lemma {:induction false} RunKeepsReportedInv(trace: seq<State>, steps: seq<Step>, i: nat)
    requires IsRun(trace, steps) && i < |trace|
    ensures ReportedInv(trace[i])
  {
    if i > 0 {
      RunKeepsReportedInv(trace, steps, i - 1);
      RunStep(trace, steps, i - 1);
      forall g | trace[i].traffic.resultsFor[g] > 0 ensures g in trace[i].handles.executing {
        StepKeepsReportedInvAt(trace[i - 1], steps[i - 1], g);
      }
    }
  }

  /** However the state goes on without another cancel mark, each goal has at most one result. */
  ghost predicate OneResultFrom(s: State) {
    forall steps, t, g :: Quiet(steps) && Leads(s, steps, t) ==> t.traffic.resultsFor[g] <= 1
  }

  lemma {:induction false} QuietKeepsResultsInv(s: State, steps: seq<Step>, t: State)
    requires Inv(s) && ResultsInv(s) && Quiet(steps) && Leads(s, steps, t)
    ensures ResultsInv(t)
    decreases |steps|
  {
    if steps != [] {
      StepKeepsInv(s, steps[0]);
      StepKeepsResultsInv(s, steps[0]);
      QuietKeepsResultsInv(Apply(s, steps[0]), steps[1..], t);
    }
  }

  /** A cancel mark on a reported goal revives it, and a further result can be sent for it. */
  lemma ReportedCancelSpoils(s: State, g: GoalId)
    requires ReportedInv(s) && Enabled(s, ApplyCancel(g)) && !SparesReported(s, ApplyCancel(g))
    ensures !OneResultFrom(Apply(s, ApplyCancel(g)))
  {
    var t := Apply(s, ApplyCancel(g));
    assert g in t.handles.executing && t.traffic.resultsFor[g] > 0;
    var steps, u := SendResult(t, g, EndSucceeded, 0);
    assert Quiet(steps) && Leads(t, steps, u) && u.traffic.resultsFor[g] > 1;
  }

  ghost predicate OneResultFromAt(trace: seq<State>, i: nat) {
    i < |trace| ==> OneResultFrom(trace[i])
  }

  predicate SparesReportedAt(trace: seq<State>, steps: seq<Step>, i: nat) {
    i < |trace| && i < |steps| ==> SparesReported(trace[i], steps[i])
  }

  lemma {:induction false} RunKeepsResultsInv(trace: seq<State>, steps: seq<Step>, i: nat)
    requires IsRun(trace, steps) && i < |trace| && forall k: nat :: SparesReportedAt(trace, steps, k)
    ensures ResultsInv(trace[i])
  {
    if i > 0 {
      RunKeepsResultsInv(trace, steps, i - 1);
      RunStep(trace, steps, i - 1);
      assert SparesReportedAt(trace, steps, i - 1);
      StepKeepsResultsInv(trace[i - 1], steps[i - 1]);
    }
  }

  /** Each goal gets at most one result, in a run and in all that can follow it, exactly if no
      cancel is marked on an ended goal whose result has been sent. */
  lemma OneResultIff(trace: seq<State>, steps: seq<Step>)
    requires IsRun(trace, steps)
    ensures (forall i: nat :: OneResultFromAt(trace, i)) <==> (forall i: nat :: SparesReportedAt(trace, steps, i))
  {
    if forall i: nat :: SparesReportedAt(trace, steps, i) {
      forall i: nat ensures OneResultFromAt(trace, i) {
        if i < |trace| {
          RunKeepsInv(trace, steps, i);
          RunKeepsResultsInv(trace, steps, i);
          forall more, t, g | Quiet(more) && Leads(trace[i], more, t) ensures t.traffic.resultsFor[g] <= 1 {
            QuietKeepsResultsInv(trace[i], more, t);
          }
        }
      }
    } else {
      var i: nat :| !SparesReportedAt(trace, steps, i);
      RunStep(trace, steps, i);
      RunKeepsReportedInv(trace, steps, i);
      ReportedCancelSpoils(trace[i], steps[i].g);
      assert !OneResultFromAt(trace, i + 1);
    }
  }

  // ---------------------------------------------------------------------------------------
  // When a goal can leave Canceling

  predicate IsCanceling(s: State, g: GoalId) {
    g in s.goals && s.goals[g].status.Canceling?
  }

  /** Some future of the state has the goal ended or gone. */
  ghost predicate CanLeaveCanceling(s: State, g: GoalId) {
    exists steps, t :: Leads(s, steps, t) && !IsCanceling(t, g)
  }

  /** There is neither a handle to end the goal with nor an entry to flush it by. */
  predicate Stuck(s: State, g: GoalId) {
    IsCanceling(s, g) && g !in s.handles.executing && Closings(s, g) == 0
  }

  lemma StuckStep(s: State, a: Step, g: GoalId)
    requires Inv(s) && Enabled(s, a) && Stuck(s, g)
    ensures Stuck(Apply(s, a), g) && Apply(s, a).goals[g] == s.goals[g]
  {
    ClosingsStep(s, a, g);
    StuckGoalStep(s, a, g);
  }

  lemma StuckGoalStep(s: State, a: Step, g: GoalId)
    requires Inv(s) && Enabled(s, a) && Stuck(s, g)
    ensures var goals := Section(s, a).0; g in goals && goals[g] == s.goals[g]
    ensures g !in Apply(s, a).handles.executing && !Ends(s, a, g)
  {
    assert g in s.finished <==> multiset(s.finished)[g] > 0;
    if a.EndGoal? {
      assert TaskInv(s, Finish(a.g, a.end, a.req));
    }
  }

  lemma {:induction false} StuckForGood(s: State, steps: seq<Step>, t: State, g: GoalId)
    requires Inv(s) && Stuck(s, g) && Leads(s, steps, t)
    ensures Stuck(t, g) && t.goals[g] == s.goals[g]
    decreases |steps|
  {
    if steps != [] {
      StepKeepsInv(s, steps[0]);
      StuckStep(s, steps[0], g);
      StuckForGood(Apply(s, steps[0]), steps[1..], t, g);
    }
  }

  lemma FlushTakesAway(s: State, g: GoalId)
    requires Closings(s, g) > 0
    ensures CanLeaveCanceling(s, g)
  {
    if g in s.finished {
      var t := Apply(s, Flush);
      var steps := LeadsByOneMore(s, Flush, [], t);
      assert Leads(s, steps, t) && !IsCanceling(t, g);
    } else {
      assert multiset(s.finished)[g] == 0;
      var u := Apply(s, PushFinished(g));
      assert u.finished[|s.finished|] == g && g in u.finished;
      var t := Apply(u, Flush);
      var steps := LeadsByOneMore(u, Flush, [], t);
      steps := LeadsByOneMore(s, PushFinished(g), steps, t);
      assert Leads(s, steps, t) && !IsCanceling(t, g);
    }
  }

  /** In every state of every run, a goal that is Canceling can leave that state exactly if its
      execution was started or its entry in the list of finished goals is there or under way.
      A goal that is canceled before it executes is stuck, however the run goes on. */
  lemma LeavesCancelingIff(trace: seq<State>, steps: seq<Step>, i: nat, g: GoalId)
    requires IsRun(trace, steps) && i < |trace| && IsCanceling(trace[i], g)
    ensures CanLeaveCanceling(trace[i], g) <==> g in trace[i].handles.executing || Closings(trace[i], g) > 0
  {
    var s := trace[i];
    RunKeepsInv(trace, steps, i);
    if g in s.handles.executing {
      var more, t := SendResult(s, g, EndCanceled, 0);
      assert Leads(s, more, t) && !IsCanceling(t, g);
    } else if Closings(s, g) > 0 {
      FlushTakesAway(s, g);
    } else {
      forall more, t | Leads(s, more, t) ensures IsCanceling(t, g) {
        StuckForGood(s, more, t, g);
      }
    }
  }

  // ---------------------------------------------------------------------------------------
  // Concrete runs

  lemma ExtendRun(trace: seq<State>, steps: seq<Step>, a: Step) returns (longer: seq<State>, more: seq<Step>)
    requires IsRun(trace, steps) && Enabled(trace[|steps|], a)
    ensures more == steps + [a] && longer == trace + [Apply(trace[|steps|], a)]
    ensures IsRun(longer, more)
  {
    more, longer := steps + [a], trace + [Apply(trace[|steps|], a)];
  }

  /** A state with the one goal 1, received with request 100. */
  function OneGoal(goal: Goal, finished: seq<GoalId>, accepted: set<GoalId>, tasks: multiset<Task>): State {
    State(map[1 := goal], finished, map[], tasks, Handles(map[1 := 100], accepted, {}), INITIAL.traffic)
  }

  lemma CancelTested() returns (trace: seq<State>, steps: seq<Step>)
    ensures IsRun(trace, steps)
    ensures trace[|steps|] == OneGoal(Goal(Accepted, Some(5)), [], {1}, multiset{Respond(100, true), MarkCancel(1)})
  {
    trace, steps := [INITIAL], [];
    trace, steps := ExtendRun(trace, steps, Receive(1, 100));
    trace, steps := ExtendRun(trace, steps, Accept(1, 5));
    trace, steps := ExtendRun(trace, steps, TestCancel(1));
  }

  lemma AbortedAndPushed(trace: seq<State>, steps: seq<Step>, tasks: multiset<Task>)
      returns (longer: seq<State>, more: seq<Step>)
    requires IsRun(trace, steps) && trace[|steps|] == OneGoal(Goal(Accepted, Some(5)), [], {1}, tasks)
    ensures IsRun(longer, more) && longer[|more|] == OneGoal(Goal(Aborted, Some(5)), [1], {1}, tasks)
  {
    var aborted := OneGoal(Goal(Aborted, Some(5)), [], {1}, tasks + multiset{MarkFinished(1)});
    longer, more := ExtendRun(trace, steps, Abort(1));
    assert longer[|more|] == aborted;
    PushedAfterAbort(tasks);
    longer, more := ExtendRun(longer, more, PushFinished(1));
  }

  lemma PushedAfterAbort(tasks: multiset<Task>)
    ensures Apply(OneGoal(Goal(Aborted, Some(5)), [], {1}, tasks + multiset{MarkFinished(1)}), PushFinished(1)) ==
            OneGoal(Goal(Aborted, Some(5)), [1], {1}, tasks)
  {
    assert tasks + multiset{MarkFinished(1)} - multiset{MarkFinished(1)} == tasks;
  }

  /** A goal ends between the test and the mark of a cancel; the mark revives it, and the flush
      meets a goal that has not ended. */
  lemma LateCancelBreaksFlush() returns (trace: seq<State>, steps: seq<Step>)
    ensures IsRun(trace, steps) && !FlushIsClean(trace[|steps|].goals, trace[|steps|].finished)
  {
    trace, steps := CancelTested();
    trace, steps := AbortedAndPushed(trace, steps, multiset{Respond(100, true), MarkCancel(1)});
    trace, steps := ExtendRun(trace, steps, ApplyCancel(1));
    assert 1 in trace[|steps|].finished;
  }

  lemma {:induction false} ExtendBy(trace: seq<State>, steps: seq<Step>, future: seq<Step>, t: State)
      returns (longer: seq<State>, more: seq<Step>)
    requires IsRun(trace, steps) && Leads(trace[|steps|], future, t)
    ensures more == steps + future && IsRun(longer, more) && longer[|more|] == t
    decreases |future|
  {
    if future == [] {
      longer, more := trace, steps;
    } else {
      longer, more := ExtendRun(trace, steps, future[0]);
      longer, more := ExtendBy(longer, more, future[1..], t);
    }
  }

  /** A goal that executes while a cancel that has passed its test is under way. */
  lemma ExecutingWithCancel() returns (trace: seq<State>, steps: seq<Step>)
    ensures IsRun(trace, steps)
    ensures var s := trace[|steps|];
            CanBeReported(s, 1) && MarkCancel(1) in s.tasks && s.traffic.resultsFor == multiset{}
  {
    trace, steps := CancelTested();
    trace, steps := ExtendRun(trace, steps, Start(1));
  }

  /** The result of a goal is sent between the test and the mark of a cancel; the mark revives the
      goal, and another result is sent for it, to another request. */
  lemma TwoResults() returns (trace: seq<State>, steps: seq<Step>)
    ensures IsRun(trace, steps) && trace[|steps|].traffic.resultsFor[1] == 2
  {
    trace, steps := ExecutingWithCancel();
    var future, t := SendResult(trace[|steps|], 1, EndSucceeded, 200);
    trace, steps := ExtendBy(trace, steps, future, t);
    assert Enabled(t, ApplyCancel(1));
    trace, steps := ExtendRun(trace, steps, ApplyCancel(1));
    future, t := SendResult(trace[|steps|], 1, EndSucceeded, 201);
    trace, steps := ExtendBy(trace, steps, future, t);
  }

  /** A goal that is canceled between its acceptance and its execution is stuck. */
  lemma StuckGoalIsReachable() returns (trace: seq<State>, steps: seq<Step>)
    ensures IsRun(trace, steps) && IsCanceling(trace[|steps|], 1) && !CanLeaveCanceling(trace[|steps|], 1)
  {
    trace, steps := CancelTested();
    trace, steps := ExtendRun(trace, steps, ApplyCancel(1));
    LeavesCancelingIff(trace, steps, |steps|, 1);
  }
}
