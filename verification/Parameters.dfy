/** Parameters: their conversion to and from the wire form, the store of a DDS node and of the
    Zenoh parameter server, and the log of parameter events that both publish. */
module Parameters {
  import opened Basics

  /** A floating-point number, as its bits. */
  type Float = UInt64

  datatype ParameterValue =
    | NotSet
    | Boolean(b: bool)
    | Integer(i: Int64)
    | Double(d: Float)
    | Text(s: string)
    | ByteArray(bytes: seq<Byte>)
    | BooleanArray(bools: seq<bool>)
    | IntegerArray(ints: seq<Int64>)
    | DoubleArray(doubles: seq<Float>)
    | TextArray(texts: seq<string>)

  datatype Parameter = Parameter(name: string, value: ParameterValue)

  /** `raw::ParameterValue`: a tag and a field for every type. */
  datatype RawValue = RawValue(
    ptype: Byte,
    boolValue: bool,
    intValue: Int64,
    doubleValue: Float,
    stringValue: string,
    byteArray: seq<Byte>,
    boolArray: seq<bool>,
    intArray: seq<Int64>,
    doubleArray: seq<Float>,
    stringArray: seq<string>)

  datatype RawParameter = RawParameter(name: string, value: RawValue)

  const NOT_SET := 0
  const BOOL := 1
  const INTEGER := 2
  const DOUBLE := 3
  const STRING := 4
  const BYTE_ARRAY := 5
  const BOOL_ARRAY := 6
  const INTEGER_ARRAY := 7
  const DOUBLE_ARRAY := 8
  const STRING_ARRAY := 9

  const UNSET := RawValue(NOT_SET, false, 0, 0, "", [], [], [], [], [])

  function FromRaw(r: RawValue): ParameterValue {
    if r.ptype == BOOL then Boolean(r.boolValue)
    else if r.ptype == INTEGER then Integer(r.intValue)
    else if r.ptype == DOUBLE then Double(r.doubleValue)
    else if r.ptype == STRING then Text(r.stringValue)
    else if r.ptype == BYTE_ARRAY then ByteArray(r.byteArray)
    else if r.ptype == BOOL_ARRAY then BooleanArray(r.boolArray)
    else if r.ptype == INTEGER_ARRAY then IntegerArray(r.intArray)
    else if r.ptype == DOUBLE_ARRAY then DoubleArray(r.doubleArray)
    else if r.ptype == STRING_ARRAY then TextArray(r.stringArray)
    else NotSet
  }

  function ToRaw(v: ParameterValue): RawValue {
    match v
    case NotSet => UNSET
    case Boolean(b) => UNSET.(ptype := BOOL, boolValue := b)
    case Integer(i) => UNSET.(ptype := INTEGER, intValue := i)
    case Double(d) => UNSET.(ptype := DOUBLE, doubleValue := d)
    case Text(s) => UNSET.(ptype := STRING, stringValue := s)
    case ByteArray(a) => UNSET.(ptype := BYTE_ARRAY, byteArray := a)
    case BooleanArray(a) => UNSET.(ptype := BOOL_ARRAY, boolArray := a)
    case IntegerArray(a) => UNSET.(ptype := INTEGER_ARRAY, intArray := a)
    case DoubleArray(a) => UNSET.(ptype := DOUBLE_ARRAY, doubleArray := a)
    case TextArray(a) => UNSET.(ptype := STRING_ARRAY, stringArray := a)
  }

  /** `From<ParameterValue> for raw::ParameterValue`: starts from the unset value and fills in the
      tag and one field. */
  method Encode(v: ParameterValue) returns (r: RawValue)
    ensures r == ToRaw(v)
  {
    r := UNSET;
    match v {
      case NotSet =>
      case Boolean(b) => r := r.(ptype := BOOL, boolValue := b);
      case Integer(i) => r := r.(ptype := INTEGER, intValue := i);
      case Double(d) => r := r.(ptype := DOUBLE, doubleValue := d);
      case Text(s) => r := r.(ptype := STRING, stringValue := s);
      case ByteArray(a) => r := r.(ptype := BYTE_ARRAY, byteArray := a);
      case BooleanArray(a) => r := r.(ptype := BOOL_ARRAY, boolArray := a);
      case IntegerArray(a) => r := r.(ptype := INTEGER_ARRAY, intArray := a);
      case DoubleArray(a) => r := r.(ptype := DOUBLE_ARRAY, doubleArray := a);
      case TextArray(a) => r := r.(ptype := STRING_ARRAY, stringArray := a);
    }
  }

  /** `to_parameter_type`, as the number it has on the wire. */
  function TypeNumber(v: ParameterValue): Byte {
    match v
    case NotSet => 0
    case Boolean(_) => 1
    case Integer(_) => 2
    case Double(_) => 3
    case Text(_) => 4
    case ByteArray(_) => 5
    case BooleanArray(_) => 6
    case IntegerArray(_) => 7
    case DoubleArray(_) => 8
    case TextArray(_) => 9
  }

  /** The tag is a known one and every field that it does not select has its default. */
  predicate Normal(r: RawValue) {
    && r.ptype <= STRING_ARRAY
    && (r.ptype != BOOL ==> r.boolValue == UNSET.boolValue)
    && (r.ptype != INTEGER ==> r.intValue == UNSET.intValue)
    && (r.ptype != DOUBLE ==> r.doubleValue == UNSET.doubleValue)
    && (r.ptype != STRING ==> r.stringValue == UNSET.stringValue)
    && (r.ptype != BYTE_ARRAY ==> r.byteArray == UNSET.byteArray)
    && (r.ptype != BOOL_ARRAY ==> r.boolArray == UNSET.boolArray)
    && (r.ptype != INTEGER_ARRAY ==> r.intArray == UNSET.intArray)
    && (r.ptype != DOUBLE_ARRAY ==> r.doubleArray == UNSET.doubleArray)
    && (r.ptype != STRING_ARRAY ==> r.stringArray == UNSET.stringArray)
  }

  /** Every value survives the wire, with the tag that `to_parameter_type` reports for it; a wire
      form survives the way back exactly if it is normal. */
  lemma RawRoundTrip(v: ParameterValue, r: RawValue)
    ensures FromRaw(ToRaw(v)) == v && ToRaw(v).ptype == TypeNumber(v) && Normal(ToRaw(v))
    ensures ToRaw(FromRaw(r)) == r <==> Normal(r)
  {
    assert FromRaw(r).NotSet? <==> r.ptype == NOT_SET || r.ptype > STRING_ARRAY;
  }

  // ---------------------------------------------------------------------------------------
  // Stores and events

  type Store = map<string, ParameterValue>

  datatype ParameterEvent = ParameterEvent(
    newParameters: seq<RawParameter>,
    changedParameters: seq<RawParameter>,
    deletedParameters: seq<RawParameter>)

  const USE_SIM_TIME := "use_sim_time"

  /** What is published when a name gets a value. */
  function SetEvent(store: Store, name: string, value: ParameterValue): ParameterEvent {
    var p := RawParameter(name, ToRaw(value));
    if name in store then ParameterEvent([], [p], []) else ParameterEvent([p], [], [])
  }

  /** The store after writing what a listener reads from raw parameters. */
  function Written(store: Store, params: seq<RawParameter>): Store {
    if params == [] then store
    else
      var last := params[|params| - 1];
      Written(store, params[..|params| - 1])[last.name := FromRaw(last.value)]
  }

  ghost function NamesIn(params: seq<RawParameter>): set<string> {
    set i | 0 <= i < |params| :: params[i].name
  }

  /** How a listener follows the events. */
  ghost function After(store: Store, e: ParameterEvent): Store {
    Written(Written(store, e.newParameters), e.changedParameters) - NamesIn(e.deletedParameters)
  }

  /** The event tells the truth about the store: what is new was not there, what is changed or
      deleted was, and what is deleted is reported with its value. */
  ghost predicate Truthful(store: Store, e: ParameterEvent) {
    && (forall p :: p in e.newParameters ==> p.name !in store)
    && (forall p :: p in e.changedParameters ==> p.name in store)
    && (forall p :: p in e.deletedParameters ==> p.name in store && store[p.name] == FromRaw(p.value))
  }

  ghost function ReplayedTo(store: Store, log: seq<ParameterEvent>): Store {
    if log == [] then store else After(ReplayedTo(store, log[..|log| - 1]), log[|log| - 1])
  }

  ghost predicate TruthfulLog(store: Store, log: seq<ParameterEvent>) {
    log == [] || (TruthfulLog(store, log[..|log| - 1]) && Truthful(ReplayedTo(store, log[..|log| - 1]), log[|log| - 1]))
  }

  /** The log, replayed over the first store, is true at every event and ends in the second. */
  ghost predicate Rebuilds(before: Store, log: seq<ParameterEvent>, after: Store) {
    TruthfulLog(before, log) && ReplayedTo(before, log) == after
  }

  lemma WrittenOne(store: Store, p: RawParameter)
    ensures Written(store, [p]) == store[p.name := FromRaw(p.value)]
  {
    assert [p][..0] == [];
  }

  lemma SetEventRebuilds(store: Store, name: string, value: ParameterValue)
    ensures Truthful(store, SetEvent(store, name, value))
    ensures After(store, SetEvent(store, name, value)) == store[name := value]
  {
    RawRoundTrip(value, UNSET);
    WrittenOne(store, RawParameter(name, ToRaw(value)));
  }

  lemma UndeclareEventRebuilds(store: Store, name: string)
    requires name in store
    ensures Truthful(store, ParameterEvent([], [], [RawParameter(name, ToRaw(store[name]))]))
    ensures After(store, ParameterEvent([], [], [RawParameter(name, ToRaw(store[name]))])) == store - {name}
  {
    var p := RawParameter(name, ToRaw(store[name]));
    RawRoundTrip(store[name], UNSET);
    assert NamesIn([p]) == {name} by {
      assert [p][0].name in NamesIn([p]);
    }
  }

  lemma RebuildsOneMore(before: Store, log: seq<ParameterEvent>, middle: Store, e: ParameterEvent, after: Store)
    requires Rebuilds(before, log, middle) && Truthful(middle, e) && After(middle, e) == after
    ensures Rebuilds(before, log + [e], after)
  {
    assert (log + [e])[..|log|] == log;
  }

  // ---------------------------------------------------------------------------------------
  // The parameters of a DDS node; `Node` and `Spinner` share them

  datatype SetResult = Done | Refused(reason: string)

  /** What the validator and the action of the application say to one value. */
  datatype Verdicts = Verdicts(validator: SetResult, action: SetResult)

  datatype NodeState = NodeState(store: Store, useSimTime: bool, log: seq<ParameterEvent>)

  datatype Op = Set(name: string, value: ParameterValue, verdicts: Verdicts) | Undeclare(name: string)

  function Judged(name: string, value: ParameterValue, verdicts: Verdicts): SetResult {
    if name == USE_SIM_TIME then
      if value.Boolean? then Done else Refused("Parameter'use_sim_time' must be Boolean.")
    else if verdicts.validator.Refused? then verdicts.validator
    else verdicts.action
  }

  function SetOutcome(s: NodeState, allowUndeclared: bool, name: string, value: ParameterValue,
                      verdicts: Verdicts): SetResult {
    if allowUndeclared || name in s.store then Judged(name, value, verdicts)
    else Refused("Setting undeclared parameter '" + name + "' is not allowed.")
  }

  function ApplySet(s: NodeState, allowUndeclared: bool, name: string, value: ParameterValue,
                    verdicts: Verdicts): NodeState {
    if SetOutcome(s, allowUndeclared, name, value, verdicts).Refused? then s
    else NodeState(
      s.store[name := value],
      if name == USE_SIM_TIME then value == Boolean(true) else s.useSimTime,
      s.log + [SetEvent(s.store, name, value)])
  }

  function ApplyUndeclare(s: NodeState, name: string): NodeState {
    if name in s.store then
      s.(store := s.store - {name},
         log := s.log + [ParameterEvent([], [], [RawParameter(name, ToRaw(s.store[name]))])])
    else s
  }

  function ApplyOp(s: NodeState, allowUndeclared: bool, op: Op): NodeState {
    match op
    case Set(name, value, verdicts) => ApplySet(s, allowUndeclared, name, value, verdicts)
    case Undeclare(name) => ApplyUndeclare(s, name)
  }

  function Ran(s: NodeState, allowUndeclared: bool, ops: seq<Op>): NodeState {
    if ops == [] then s
    else ApplyOp(Ran(s, allowUndeclared, ops[..|ops| - 1]), allowUndeclared, ops[|ops| - 1])
  }

  /** The flag that `time_now` reads is the value of the parameter, while there is one. */
  predicate ClockAgrees(s: NodeState) {
    USE_SIM_TIME in s.store ==> s.store[USE_SIM_TIME] == Boolean(s.useSimTime)
  }

  /** The store that `BTreeMap::collect` makes of declarations: the last one of a name counts. */
  function Collected(declared: seq<Parameter>): Store {
    if declared == [] then map[]
    else
      var last := declared[|declared| - 1];
      Collected(declared[..|declared| - 1])[last.name := last.value]
  }

  /** The last declaration of a name counts. */
  lemma {:induction false} CollectedIsLast(declared: seq<Parameter>, i: nat)
    requires i < |declared| && forall j :: i < j < |declared| ==> declared[j].name != declared[i].name
    ensures declared[i].name in Collected(declared) && Collected(declared)[declared[i].name] == declared[i].value
  {
    var n := |declared| - 1;
    if i < n {
      assert declared[n].name != declared[i].name;
      CollectedIsLast(declared[..n], i);
    }
  }

  /** Only declared names are there. */
  lemma {:induction false} CollectedIsDeclared(declared: seq<Parameter>, name: string)
    requires forall i :: 0 <= i < |declared| ==> declared[i].name != name
    ensures name !in Collected(declared)
  {
    if declared != [] {
      CollectedIsDeclared(declared[..|declared| - 1], name);
    }
  }

  class NodeParameters {
    const allowUndeclared: bool
    var parameters: Store
    var useSimTime: bool
    var events: seq<ParameterEvent>

    ghost function State(): NodeState
      reads this
    {
      NodeState(parameters, useSimTime, events)
    }

    /** The part of `Node::new` that fills the store. */
    constructor (declared: seq<Parameter>, allowUndeclared: bool)
      ensures this.allowUndeclared == allowUndeclared
      ensures State() == NodeState(Collected(declared)[USE_SIM_TIME := Boolean(false)], false, [])
      ensures ClockAgrees(State())
    {
      this.allowUndeclared := allowUndeclared;
      var all := declared + [Parameter(USE_SIM_TIME, Boolean(false))];
      assert all[..|declared|] == declared;
      parameters := Collected(all);
      useSimTime := false;
      events := [];
    }

    /** The last part of `Node::new`: the names are visited in their order, up to the first that
        is refused. */
    method CheckDeclared(order: seq<string>, judge: string -> Verdicts) returns (r: SetResult)
      requires ClockAgrees(State()) && forall n :: n in order <==> n in parameters
      modifies this`useSimTime
      ensures ClockAgrees(State())
      ensures r.Done? <==> forall n :: n in parameters ==> Judged(n, parameters[n], judge(n)).Done?
      ensures r.Refused? ==>
                exists i :: 0 <= i < |order| && r == Judged(order[i], parameters[order[i]], judge(order[i]))
                            && forall j :: 0 <= j < i ==> Judged(order[j], parameters[order[j]], judge(order[j])).Done?
    {
      for i := 0 to |order|
        invariant ClockAgrees(State())
        invariant forall j :: 0 <= j < i ==> Judged(order[j], parameters[order[j]], judge(order[j])).Done?
      {
        var value := parameters[order[i]];
        r := ValidateOnSet(order[i], value, judge(order[i]).validator);
        if r.Done? {
          r := ExecuteSetActions(order[i], value, judge(order[i]).action);
        }
        if r.Refused? {
          assert r == Judged(order[i], value, judge(order[i]));
          return;
        }
      }
      r := Done;
    }

    method ValidateOnSet(name: string, value: ParameterValue, verdict: SetResult) returns (r: SetResult)
      ensures r == if name != USE_SIM_TIME then verdict
                   else if value.Boolean? then Done
                   else Refused("Parameter'use_sim_time' must be Boolean.")
    {
      if name == USE_SIM_TIME {
        r := if value.Boolean? then Done else Refused("Parameter'use_sim_time' must be Boolean.");
      } else {
        r := verdict;
      }
    }

    method ExecuteSetActions(name: string, value: ParameterValue, verdict: SetResult) returns (r: SetResult)
      modifies this`useSimTime
      ensures r == if name != USE_SIM_TIME then verdict
                   else if value.Boolean? then Done
                   else Refused("Parameter 'use_sim_time' must be Boolean.")
      ensures useSimTime == if name == USE_SIM_TIME && value.Boolean? then value.b else old(useSimTime)
    {
      if name == USE_SIM_TIME {
        if value.Boolean? {
          useSimTime := value.b;
          r := Done;
        } else {
          r := Refused("Parameter 'use_sim_time' must be Boolean.");
        }
      } else {
        r := verdict;
      }
    }

    method SetParameter(name: string, value: ParameterValue, verdicts: Verdicts) returns (r: SetResult)
      modifies this
      ensures State() == ApplySet(old(State()), allowUndeclared, name, value, verdicts)
      ensures r == SetOutcome(old(State()), allowUndeclared, name, value, verdicts)
    {
      var alreadySet := name in parameters;
      if !(allowUndeclared || alreadySet) {
        return Refused("Setting undeclared parameter '" + name + "' is not allowed.");
      }
      r := ValidateOnSet(name, value, verdicts.validator);
      if r.Refused? {
        return;
      }
      r := ExecuteSetActions(name, value, verdicts.action);
      if r.Refused? {
        return;
      }
      var raw := Encode(value);
      var p := RawParameter(name, raw);
      var added, changed := [p], [];
      if alreadySet {
        added, changed := [], [p];
      }
      parameters := parameters[name := value];
      events := events + [ParameterEvent(added, changed, [])];
    }

    method UndeclareParameter(name: string)
      modifies this
      ensures State() == ApplyUndeclare(old(State()), name)
      ensures useSimTime == old(useSimTime) && parameters == old(parameters) - {name}
      ensures events == old(events) + if name in old(parameters)
                                      then [ParameterEvent([], [], [RawParameter(name, ToRaw(old(parameters)[name]))])]
                                      else []
    {
      if name in parameters {
        var raw := Encode(parameters[name]);
        parameters := parameters - {name};
        events := events + [ParameterEvent([], [], [RawParameter(name, raw)])];
      } else {
        assert parameters - {name} == parameters;
      }
    }

    /** `time_now`: while the parameter is declared, its value says which clock is read. */
    method TimeNow(simulated: int, system: int) returns (t: int)
      requires ClockAgrees(State())
      ensures USE_SIM_TIME in parameters ==>
                t == if parameters[USE_SIM_TIME] == Boolean(true) then simulated else system
    {
      t := if useSimTime then simulated else system;
    }
  }

  /** A set either changes nothing at all, exactly when it is refused, or adds one event. */
  lemma FailedSetIff(s: NodeState, allowUndeclared: bool, name: string, value: ParameterValue, verdicts: Verdicts)
    ensures var t := ApplySet(s, allowUndeclared, name, value, verdicts);
            && (t == s <==> SetOutcome(s, allowUndeclared, name, value, verdicts).Refused?)
            && (t != s ==>
                  && t.store == s.store[name := value]
                  && t.useSimTime == (if name == "use_sim_time" then value == Boolean(true) else s.useSimTime)
                  && var p := RawParameter(name, ToRaw(value));
                     t.log == s.log + [if name in s.store then ParameterEvent([], [p], []) else ParameterEvent([p], [], [])])
  {
    var t := ApplySet(s, allowUndeclared, name, value, verdicts);
    if SetOutcome(s, allowUndeclared, name, value, verdicts).Done? {
      assert |t.log| == |s.log| + 1;
    }
  }

  /** A set is refused exactly if the parameter is not declared and has to be, if it would give the
      clock parameter something else than a Boolean, or if the application refuses another one. */
  lemma RefusedIff(s: NodeState, allowUndeclared: bool, name: string, value: ParameterValue, verdicts: Verdicts)
    ensures SetOutcome(s, allowUndeclared, name, value, verdicts).Refused? <==>
              || (name !in s.store && !allowUndeclared)
              || (name == "use_sim_time" && !value.Boolean?)
              || (name != "use_sim_time" && (verdicts.validator.Refused? || verdicts.action.Refused?))
    ensures name !in s.store && !allowUndeclared ==>
              SetOutcome(s, allowUndeclared, name, value, verdicts) ==
              Refused("Setting undeclared parameter '" + name + "' is not allowed.")
  {
  }

  lemma {:induction false} RunKeepsClock(s: NodeState, allowUndeclared: bool, ops: seq<Op>)
    requires ClockAgrees(s)
    ensures ClockAgrees(Ran(s, allowUndeclared, ops))
  {
    if ops != [] {
      RunKeepsClock(s, allowUndeclared, ops[..|ops| - 1]);
    }
  }

  lemma OpRebuilds(s: NodeState, allowUndeclared: bool, op: Op, start: Store, log: seq<ParameterEvent>)
    requires Rebuilds(start, log, s.store)
    ensures var t := ApplyOp(s, allowUndeclared, op);
            s.log <= t.log && Rebuilds(start, log + t.log[|s.log|..], t.store)
  {
    var t := ApplyOp(s, allowUndeclared, op);
    if t == s {
      assert log + t.log[|s.log|..] == log;
    } else {
      var e := t.log[|s.log|];
      assert t.log[|s.log|..] == [e];
      match op
      case Set(name, value, _) =>
        SetEventRebuilds(s.store, name, value);
        RebuildsOneMore(start, log, s.store, e, t.store);
      case Undeclare(name) =>
        UndeclareEventRebuilds(s.store, name);
        RebuildsOneMore(start, log, s.store, e, t.store);
    }
  }

  /** Whatever is set and undeclared, the events published meanwhile are true when they are
      published and rebuild the store from the one at the start. */
  lemma {:induction false} RunRebuilds(s: NodeState, allowUndeclared: bool, ops: seq<Op>)
    ensures var t := Ran(s, allowUndeclared, ops);
            s.log <= t.log && Rebuilds(s.store, t.log[|s.log|..], t.store)
  {
    if ops != [] {
      var before := ops[..|ops| - 1];
      RunRebuilds(s, allowUndeclared, before);
      var m := Ran(s, allowUndeclared, before);
      var t := ApplyOp(m, allowUndeclared, ops[|ops| - 1]);
      OpRebuilds(m, allowUndeclared, ops[|ops| - 1], s.store, m.log[|s.log|..]);
      assert t.log[|s.log|..] == m.log[|s.log|..] + t.log[|m.log|..];
    }
  }

  // ---------------------------------------------------------------------------------------
  // The Zenoh parameter server

  /** A request of a service, or one that cannot be read. */
  datatype Incoming<+T> = Request(id: int, body: T) | Malformed

  datatype Response<+T> = Response(id: int, body: T)

  /** The requests that a loop over `try_receive_request` serves: those before the first that
      cannot be read. */
  function Served<T>(queue: seq<Incoming<T>>): (n: nat)
    ensures n <= |queue| && (n < |queue| ==> queue[n].Malformed?)
    ensures forall i :: 0 <= i < n ==> queue[i].Request?
  {
    ServedFrom(queue, 0)
  }

  function ServedFrom<T>(queue: seq<Incoming<T>>, k: nat): (n: nat)
    requires k <= |queue|
    ensures k <= n <= |queue| && (n < |queue| ==> queue[n].Malformed?)
    ensures forall i :: k <= i < n ==> queue[i].Request?
    decreases |queue| - k
  {
    if k == |queue| || queue[k].Malformed? then k else ServedFrom(queue, k + 1)
  }

  /** What the loop leaves in the queue; the request that cannot be read is gone. */
  function Left<T>(queue: seq<Incoming<T>>): seq<Incoming<T>> {
    if Served(queue) == |queue| then [] else queue[Served(queue) + 1..]
  }

  /** All the parameters of the first `n` requests, in order. */
  function AllParams(queue: seq<Incoming<seq<RawParameter>>>, n: nat): seq<RawParameter>
    requires n <= Served(queue)
  {
    if n == 0 then [] else AllParams(queue, n - 1) + queue[n - 1].body
  }

  /** The parameters of a request come right after those of the earlier ones. */
  lemma {:induction false} AllParamsInOrder(queue: seq<Incoming<seq<RawParameter>>>, n: nat, i: nat)
    requires i < n <= Served(queue)
    ensures AllParams(queue, 0) == []
    ensures AllParams(queue, i) + queue[i].body <= AllParams(queue, n)
    ensures i == n - 1 ==> AllParams(queue, i) + queue[i].body == AllParams(queue, n)
  {
    if i < n - 1 {
      AllParamsInOrder(queue, n - 1, i);
    }
  }

  /** One event for each parameter, in order. */
  function EventsOf(store: Store, params: seq<RawParameter>): seq<ParameterEvent> {
    if params == [] then []
    else
      var before := params[..|params| - 1];
      var last := params[|params| - 1];
      EventsOf(store, before) + [SetEvent(Written(store, before), last.name, FromRaw(last.value))]
  }

  /** The value that a get request sees. */
  function Seen(store: Store, name: string): ParameterValue {
    if name in store then store[name] else NotSet
  }

  /** The server has carried out the first `n` requests. */
  ghost predicate SetSoFar(before: Store, log: seq<ParameterEvent>, queue: seq<Incoming<seq<RawParameter>>>, n: nat,
                           store: Store, events: seq<ParameterEvent>)
    requires n <= Served(queue)
  {
    store == Written(before, AllParams(queue, n)) && events == log + EventsOf(before, AllParams(queue, n))
  }

  lemma OneRequestMore(before: Store, log: seq<ParameterEvent>, queue: seq<Incoming<seq<RawParameter>>>, n: nat,
                       store: Store, events: seq<ParameterEvent>)
    requires n < Served(queue) && SetSoFar(before, log, queue, n, store, events)
    ensures SetSoFar(before, log, queue, n + 1,
              Written(store, queue[n].body), events + EventsOf(store, queue[n].body))
  {
    WrittenAppend(before, AllParams(queue, n), queue[n].body);
    EventsAppend(before, AllParams(queue, n), queue[n].body);
  }

  function Repeated(r: SetResult, n: nat): (s: seq<SetResult>)
    ensures |s| == n && forall i :: 0 <= i < n ==> s[i] == r
  {
    seq(n, _ => r)
  }

  /** The responses to the first `n` requests: each under its id, a success for each parameter. */
  function AllDone(queue: seq<Incoming<seq<RawParameter>>>, n: nat): seq<Response<seq<SetResult>>>
    requires n <= Served(queue)
  {
    if n == 0 then []
    else AllDone(queue, n - 1) + [Response(queue[n - 1].id, Repeated(Done, |queue[n - 1].body|))]
  }

  lemma {:induction false} AllDoneAt(queue: seq<Incoming<seq<RawParameter>>>, n: nat, i: nat)
    requires i < n <= Served(queue)
    ensures |AllDone(queue, n)| == n
    ensures AllDone(queue, n)[i] == Response(queue[i].id, Repeated(Done, |queue[i].body|))
  {
    if i < n - 1 {
      AllDoneAt(queue, n - 1, i);
    } else {
      AllDoneLength(queue, n - 1);
    }
  }

  lemma {:induction false} AllDoneLength(queue: seq<Incoming<seq<RawParameter>>>, n: nat)
    requires n <= Served(queue)
    ensures |AllDone(queue, n)| == n
  {
    if n > 0 {
      AllDoneLength(queue, n - 1);
    }
  }

  const ATOMIC_MISSING := "Setting parameters atomically is not implemented."

  class ParameterServer {
    var store: Store
    var events: seq<ParameterEvent>

    constructor (declared: seq<Parameter>)
      ensures store == map[USE_SIM_TIME := Boolean(false)] + Collected(declared) && events == []
    {
      var s := Collected(declared);
      if USE_SIM_TIME !in s {
        s := s[USE_SIM_TIME := Boolean(false)];
      }
      store, events := s, [];
    }

    /** `set_and_notify`; it never fails. */
    method SetAndNotify(name: string, value: ParameterValue)
      modifies this
      ensures store == old(store)[name := value]
      ensures events == old(events) + [SetEvent(old(store), name, value)]
    {
      var raw := Encode(value);
      var p := RawParameter(name, raw);
      var already := name in store;
      store := store[name := value];
      if already {
        events := events + [ParameterEvent([], [p], [])];
      } else {
        events := events + [ParameterEvent([p], [], [])];
      }
    }

    method SetAll(params: seq<RawParameter>) returns (results: seq<SetResult>)
      modifies this
      ensures store == Written(old(store), params)
      ensures events == old(events) + EventsOf(old(store), params)
      ensures results == Repeated(Done, |params|)
    {
      results := [];
      for i := 0 to |params|
        invariant store == Written(old(store), params[..i])
        invariant events == old(events) + EventsOf(old(store), params[..i])
        invariant results == Repeated(Done, i)
      {
        assert params[..i + 1][..i] == params[..i];
        SetAndNotify(params[i].name, FromRaw(params[i].value));
        results := results + [Done];
      }
      assert params[..|params|] == params;
    }

    /** `handle_set_parameters`. */
    method HandleSetParameters(queue: seq<Incoming<seq<RawParameter>>>)
      returns (rest: seq<Incoming<seq<RawParameter>>>, responses: seq<Response<seq<SetResult>>>)
      modifies this
      ensures rest == Left(queue) && responses == AllDone(queue, Served(queue))
      ensures store == Written(old(store), AllParams(queue, Served(queue)))
      ensures events == old(events) + EventsOf(old(store), AllParams(queue, Served(queue)))
    {
      responses := [];
      var n := 0;
      ghost var before, log := store, events;
      while n < |queue| && queue[n].Request?
        invariant n <= Served(queue)
        invariant responses == AllDone(queue, n)
        invariant SetSoFar(before, log, queue, n, store, events)
      {
        ServedAt(queue, n);
        ghost var middle, published := store, events;
        var results := SetAll(queue[n].body);
        OneRequestMore(before, log, queue, n, middle, published);
        responses := responses + [Response(queue[n].id, results)];
        n := n + 1;
      }
      ServedAt(queue, n);
      rest := if n < |queue| then queue[n + 1..] else [];
    }

    /** `handle_set_parameters_atomically`: every entry fails and nothing is set. */
    method HandleSetAtomically(queue: seq<Incoming<seq<RawParameter>>>)
      returns (rest: seq<Incoming<seq<RawParameter>>>, responses: seq<Response<seq<SetResult>>>)
      ensures rest == Left(queue) && |responses| == Served(queue)
      ensures forall i :: 0 <= i < Served(queue) ==>
                responses[i] == Response(queue[i].id, Repeated(Refused(ATOMIC_MISSING), |queue[i].body|))
    {
      responses := [];
      var n := 0;
      while n < |queue| && queue[n].Request?
        invariant n <= Served(queue) && |responses| == n
        invariant forall i :: 0 <= i < n ==>
                    responses[i] == Response(queue[i].id, Repeated(Refused(ATOMIC_MISSING), |queue[i].body|))
      {
        ServedAt(queue, n);
        responses := responses + [Response(queue[n].id, Repeated(Refused(ATOMIC_MISSING), |queue[n].body|))];
        n := n + 1;
      }
      ServedAt(queue, n);
      rest := if n < |queue| then queue[n + 1..] else [];
    }

    /** `handle_get_parameters`: each request is answered under its id, with what is in the store
        for each name it asks for, in a form that reads back as that value. */
    method HandleGetParameters(queue: seq<Incoming<seq<string>>>)
      returns (rest: seq<Incoming<seq<string>>>, responses: seq<Response<seq<RawValue>>>)
      ensures rest == Left(queue) && |responses| == Served(queue)
      ensures forall i :: 0 <= i < Served(queue) ==>
                responses[i].id == queue[i].id && |responses[i].body| == |queue[i].body|
      ensures forall i, j :: 0 <= i < Served(queue) && 0 <= j < |queue[i].body| ==>
                FromRaw(responses[i].body[j]) == Seen(store, queue[i].body[j])
    {
      responses := [];
      var n := 0;
      while n < |queue| && queue[n].Request?
        invariant n <= Served(queue) && |responses| == n
        invariant forall i :: 0 <= i < n ==>
                    responses[i].id == queue[i].id && |responses[i].body| == |queue[i].body|
        invariant forall i, j :: 0 <= i < n && 0 <= j < |queue[i].body| ==>
                    FromRaw(responses[i].body[j]) == Seen(store, queue[i].body[j])
      {
        ServedAt(queue, n);
        var values := Look(queue[n].body);
        responses := responses + [Response(queue[n].id, values)];
        n := n + 1;
      }
      ServedAt(queue, n);
      rest := if n < |queue| then queue[n + 1..] else [];
    }

    method Look(names: seq<string>) returns (values: seq<RawValue>)
      ensures |values| == |names|
      ensures forall j :: 0 <= j < |names| ==> FromRaw(values[j]) == Seen(store, names[j])
    {
      values := [];
      for j := 0 to |names|
        invariant |values| == j
        invariant forall k :: 0 <= k < j ==> FromRaw(values[k]) == Seen(store, names[k])
      {
        RawRoundTrip(Seen(store, names[j]), UNSET);
        var raw := Encode(if names[j] in store then store[names[j]] else NotSet);
        values := values + [raw];
      }
    }
  }

  /** Whether the request at position `n` is served is seen from that request, if those before it
      are served. */
  lemma {:induction false} ServedAt<T>(queue: seq<Incoming<T>>, n: nat)
    requires n <= Served(queue)
    ensures n < Served(queue) <==> n < |queue| && queue[n].Request?
  {
  }

  lemma {:induction false} WrittenAppend(store: Store, a: seq<RawParameter>, b: seq<RawParameter>)
    ensures Written(store, a + b) == Written(Written(store, a), b)
  {
    if b == [] {
      assert a + b == a;
    } else {
      assert (a + b)[..|a + b| - 1] == a + b[..|b| - 1];
      WrittenAppend(store, a, b[..|b| - 1]);
    }
  }

  lemma {:induction false} EventsAppend(store: Store, a: seq<RawParameter>, b: seq<RawParameter>)
    ensures EventsOf(store, a + b) == EventsOf(store, a) + EventsOf(Written(store, a), b)
  {
    if b == [] {
      assert a + b == a;
    } else {
      assert (a + b)[..|a + b| - 1] == a + b[..|b| - 1];
      WrittenAppend(store, a, b[..|b| - 1]);
      EventsAppend(store, a, b[..|b| - 1]);
    }
  }

  /** The events of the server rebuild its store, too. */
  lemma {:induction false} ServerRebuilds(store: Store, params: seq<RawParameter>)
    ensures Rebuilds(store, EventsOf(store, params), Written(store, params))
    ensures |EventsOf(store, params)| == |params|
  {
    if params != [] {
      var before := params[..|params| - 1];
      var last := params[|params| - 1];
      ServerRebuilds(store, before);
      SetEventRebuilds(Written(store, before), last.name, FromRaw(last.value));
      RebuildsOneMore(store, EventsOf(store, before), Written(store, before),
        SetEvent(Written(store, before), last.name, FromRaw(last.value)), Written(store, params));
    }
  }

  /** After any number of requests, what is seen for a name is the last value sent for it, or what
      was seen before if none was sent. */
  lemma {:induction false} LastSetIsSeen(store: Store, params: seq<RawParameter>, i: nat)
    requires i < |params| && forall j :: i < j < |params| ==> params[j].name != params[i].name
    ensures Seen(Written(store, params), params[i].name) == FromRaw(params[i].value)
  {
    var n := |params| - 1;
    if i < n {
      assert params[n].name != params[i].name;
      LastSetIsSeen(store, params[..n], i);
    }
  }

  lemma {:induction false} OthersAreKept(store: Store, params: seq<RawParameter>, name: string)
    requires name !in NamesIn(params)
    ensures Seen(Written(store, params), name) == Seen(store, name)
    ensures name in Written(store, params) <==> name in store
  {
    if params != [] {
      var n := |params| - 1;
      assert params[n].name in NamesIn(params);
      forall i | 0 <= i < n ensures params[..n][i].name in NamesIn(params) {
        assert params[i].name in NamesIn(params);
      }
      OthersAreKept(store, params[..n], name);
    }
  }

  /** The two backends start from the same store exactly if no declaration of `use_sim_time`, or
      the last one, asks for anything but `false`: the DDS node overwrites it. */
  lemma InitialStoresAgreeIff(declared: seq<Parameter>)
    ensures var c := Collected(declared);
            c[USE_SIM_TIME := Boolean(false)] == map[USE_SIM_TIME := Boolean(false)] + c
            <==> Seen(c, USE_SIM_TIME) == Boolean(false) || USE_SIM_TIME !in c
  {
    var c := Collected(declared);
    var zenoh := map[USE_SIM_TIME := Boolean(false)] + c;
    if USE_SIM_TIME in c {
      assert zenoh == c;
      assert c[USE_SIM_TIME := Boolean(false)][USE_SIM_TIME] == Boolean(false);
    }
  }

  /** On a DDS node the clock parameter takes exactly the Booleans; the server takes any value. */
  lemma ClockValuesIff(s: NodeState, allowUndeclared: bool, value: ParameterValue, verdicts: Verdicts)
    requires USE_SIM_TIME in s.store
    ensures SetOutcome(s, allowUndeclared, USE_SIM_TIME, value, verdicts).Done? <==> value.Boolean?
    ensures Seen(Written(s.store, [RawParameter(USE_SIM_TIME, ToRaw(value))]), USE_SIM_TIME) == value
  {
    RawRoundTrip(value, UNSET);
    WrittenOne(s.store, RawParameter(USE_SIM_TIME, ToRaw(value)));
  }
}
