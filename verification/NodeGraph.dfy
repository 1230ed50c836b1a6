/** The ROS graph as one participant publishes it: what nodes report to the context, what the
    context broadcasts, and what the last broadcast says about the live nodes. */
module NodeGraph {
  import opened Basics
  import opened Names

  type Gid = nat

  predicate NoDuplicates<T(==)>(s: seq<T>) {
    forall i, j :: 0 <= i < j < |s| ==> s[i] != s[j]
  }

  /** The elements as they appear in `s`, once each. */
  ghost predicate IsSet(s: seq<Gid>, elements: set<Gid>) {
    NoDuplicates(s) && forall g :: g in s <==> g in elements
  }

  function Added(s: seq<Gid>, g: Gid): (t: seq<Gid>)
    ensures NoDuplicates(s) ==> NoDuplicates(t)
    ensures forall h :: h in t <==> h in s || h == g
  {
    if g in s then s else s + [g]
  }

  /** `NodeEntitiesInfo`. */
  datatype Info = Info(name: NodeName, readers: seq<Gid>, writers: seq<Gid>) {
    function AddReader(g: Gid): Info {
      this.(readers := Added(readers, g))
    }

    function AddWriter(g: Gid): Info {
      this.(writers := Added(writers, g))
    }
  }

  datatype NodeState = NodeState(
    name: NodeName,
    readers: set<Gid>,
    writers: set<Gid>,
    parameterEvents: Gid,
    rosout: Option<Gid>,
    suppressed: bool)

  function AllWriters(node: NodeState): set<Gid> {
    node.writers + {node.parameterEvents} + (if node.rosout.Some? then {node.rosout.value} else {})
  }

  /** The entry tells exactly what belongs to the node. */
  ghost predicate Describes(info: Info, node: NodeState, others: set<Gid>) {
    info.name == node.name && IsSet(info.readers, node.readers) && IsSet(info.writers, AllWriters(node) + others)
  }

  type LocalNodes = map<string, Info>

  /** Every entry is filed under the fully qualified name of its node. */
  predicate Filed(local: LocalNodes) {
    forall k :: k in local ==> FullyQualifiedName(local[k].name) == k
  }

  /** The values of the table, in some order. */
  ghost predicate Lists(infos: seq<Info>, local: LocalNodes) {
    && (forall i :: 0 <= i < |infos| ==>
          FullyQualifiedName(infos[i].name) in local && local[FullyQualifiedName(infos[i].name)] == infos[i])
    && (forall k :: k in local ==> local[k] in infos)
    && (forall i, j :: 0 <= i < j < |infos| ==> FullyQualifiedName(infos[i].name) != FullyQualifiedName(infos[j].name))
  }

  lemma SomethingListed(infos: seq<Info>, local: LocalNodes)
    requires Lists(infos, local)
    ensures infos != [] ==> local != map[]
  {
    if infos != [] {
      assert FullyQualifiedName(infos[0].name) in local;
    }
  }

  /** The table after an update by the node; `discovery` is the writer of the context itself. */
  ghost predicate Refreshed(before: LocalNodes, after: LocalNodes, node: NodeState, discovery: Gid) {
    var fqn := FullyQualifiedName(node.name);
    fqn in after && after == before[fqn := after[fqn]] && Describes(after[fqn], node, {discovery})
  }

  // ---------------------------------------------------------------------------------------
  // The context and its nodes

  class ContextInner {
    const discovery: Gid
    var localNodes: LocalNodes
    var lastBroadcast: seq<Info>

    ghost predicate Valid()
      reads this
    {
      Filed(localNodes) && Lists(lastBroadcast, localNodes)
    }

    constructor (discovery: Gid)
      ensures Valid() && this.discovery == discovery && localNodes == map[]
    {
      this.discovery := discovery;
      localNodes, lastBroadcast := map[], [];
    }

    method UpdateNode(nodeInfo: Info)
      requires Filed(localNodes)
      modifies this
      ensures Valid()
      ensures localNodes == old(localNodes)[FullyQualifiedName(nodeInfo.name) := nodeInfo.AddWriter(discovery)]
    {
      var info := nodeInfo.AddWriter(discovery);
      var fqn := FullyQualified(info.name);
      localNodes := localNodes[fqn := info];
      BroadcastNodeInfos();
    }

    method RemoveNode(fqn: string)
      requires Filed(localNodes)
      modifies this
      ensures Valid() && localNodes == old(localNodes) - {fqn}
    {
      localNodes := localNodes - {fqn};
      BroadcastNodeInfos();
    }

    method BroadcastNodeInfos()
      requires Filed(localNodes)
      modifies this`lastBroadcast
      ensures Lists(lastBroadcast, localNodes)
    {
      var left := localNodes.Keys;
      lastBroadcast := [];
      while left != {}
        invariant left <= localNodes.Keys
        invariant Lists(lastBroadcast, localNodes - left)
        decreases left
      {
        var k :| k in left;
        assert forall j :: j in localNodes - (left - {k}) ==> j == k || j in localNodes - left;
        lastBroadcast := lastBroadcast + [localNodes[k]];
        left := left - {k};
      }
      assert localNodes - {} == localNodes;
    }

    /** When the last handle is dropped. */
    method Drop()
      modifies this
      ensures Valid() && localNodes == map[] && lastBroadcast == []
    {
      localNodes := map[];
      BroadcastNodeInfos();
      SomethingListed(lastBroadcast, localNodes);
    }
  }

  class Node {
    const name: NodeName
    const context: ContextInner
    const parameterEvents: Gid
    var rosout: Option<Gid>
    var readers: set<Gid>
    var writers: set<Gid>
    var suppressed: bool

    ghost function State(): NodeState
      reads this
    {
      NodeState(name, readers, writers, parameterEvents, rosout, suppressed)
    }

    /** The node as `Node::new` builds it, with updates suppressed. */
    constructor (name: NodeName, context: ContextInner, parameterEvents: Gid)
      ensures State() == NodeState(name, {}, {}, parameterEvents, None, true) && this.context == context
    {
      this.name, this.context, this.parameterEvents := name, context, parameterEvents;
      rosout, readers, writers, suppressed := None, {}, {}, true;
    }

    method GenerateNodeInfo() returns (info: Info)
      ensures Describes(info, State(), {})
      ensures info.name == name && NoDuplicates(info.readers) && NoDuplicates(info.writers)
      ensures forall g :: g in info.readers <==> g in readers
      ensures forall g :: g in info.writers <==> g in writers || g == parameterEvents || rosout == Some(g)
    {
      info := Info(name, [], []).AddWriter(parameterEvents);
      if rosout.Some? {
        info := info.AddWriter(rosout.value);
      }
      ghost var builtin := set g | g in info.writers;
      var left := readers;
      while left != {}
        invariant left <= readers && IsSet(info.readers, readers - left)
        invariant info.name == name && IsSet(info.writers, builtin)
      {
        var g :| g in left;
        info := info.AddReader(g);
        left := left - {g};
      }
      left := writers;
      while left != {}
        invariant left <= writers && IsSet(info.writers, builtin + (writers - left))
        invariant info.name == name && IsSet(info.readers, readers)
      {
        var g :| g in left;
        info := info.AddWriter(g);
        left := left - {g};
      }
      assert AllWriters(State()) + {} == builtin + (writers - {});
    }

    /** `update_node` with the information of this node. */
    method Announce()
      requires context.Valid()
      modifies context
      ensures context.Valid()
      ensures Refreshed(old(context.localNodes), context.localNodes, State(), context.discovery)
    {
      var info := GenerateNodeInfo();
      context.UpdateNode(info);
    }

    method SuppressNodeInfoUpdates(suppress: bool)
      requires context.Valid()
      modifies this`suppressed, context
      ensures context.Valid() && State() == old(State()).(suppressed := suppress)
      ensures if suppress then unchanged(context)
              else Refreshed(old(context.localNodes), context.localNodes, State(), context.discovery)
    {
      suppressed := suppress;
      if !suppress {
        Announce();
      }
    }

    method AddReader(reader: Gid)
      requires context.Valid()
      modifies this`readers, context
      ensures context.Valid() && State() == old(State()).(readers := old(readers) + {reader})
      ensures if suppressed then unchanged(context)
              else Refreshed(old(context.localNodes), context.localNodes, State(), context.discovery)
    {
      readers := readers + {reader};
      if !suppressed {
        Announce();
      }
    }

    method AddWriter(writer: Gid)
      requires context.Valid()
      modifies this`writers, context
      ensures context.Valid() && State() == old(State()).(writers := old(writers) + {writer})
      ensures if suppressed then unchanged(context)
              else Refreshed(old(context.localNodes), context.localNodes, State(), context.discovery)
    {
      writers := writers + {writer};
      if !suppressed {
        Announce();
      }
    }

    /** How `Node::new` turns rosout on. */
    method EnableRosout(writer: Gid)
      requires context.Valid() && suppressed
      modifies this`writers, this`rosout, context
      ensures context.Valid() && unchanged(context)
      ensures State() == old(State()).(writers := old(writers) + {writer}, rosout := Some(writer))
    {
      AddWriter(writer);
      rosout := Some(writer);
    }

    /** `Drop for Node`, also for a node that `Node::new` gives up. */
    method Drop()
      requires context.Valid()
      modifies context
      ensures context.Valid()
      ensures context.localNodes == old(context.localNodes) - {FullyQualifiedName(name)}
    {
      var fqn := FullyQualified(name);
      context.RemoveNode(fqn);
    }
  }

  // ---------------------------------------------------------------------------------------
  // Runs of many nodes over one context

  type NodeId = nat

  datatype State = State(nodes: map<NodeId, NodeState>, local: LocalNodes, broadcast: seq<Info>)

  datatype Step =
    | Begin(id: NodeId, name: NodeName, parameterEvents: Gid)
    | EnableRosout(id: NodeId, writer: Gid)
    | AddReader(id: NodeId, reader: Gid)
    | AddWriter(id: NodeId, writer: Gid)
    | Suppress(id: NodeId, suppress: bool)
    | Drop(id: NodeId)

  const INITIAL := State(map[], map[], [])

  predicate Enabled(s: State, a: Step) {
    match a
    case Begin(id, name, _) => id !in s.nodes && ValidNodeName(name)
    case EnableRosout(id, _) => id in s.nodes && s.nodes[id].suppressed
    case _ => a.id in s.nodes
  }

  /** The node the step is about, after the step. */
  function NodeAfter(s: State, a: Step): NodeState
    requires Enabled(s, a) && !a.Drop?
  {
    match a
    case Begin(_, name, parameterEvents) => NodeState(name, {}, {}, parameterEvents, None, true)
    case EnableRosout(id, g) => s.nodes[id].(writers := s.nodes[id].writers + {g}, rosout := Some(g))
    case AddReader(id, g) => s.nodes[id].(readers := s.nodes[id].readers + {g})
    case AddWriter(id, g) => s.nodes[id].(writers := s.nodes[id].writers + {g})
    case Suppress(id, on) => s.nodes[id].(suppressed := on)
  }

  ghost predicate Next(discovery: Gid, s: State, a: Step, t: State)
    requires Enabled(s, a)
  {
    if a.Drop? then
      && t.nodes == s.nodes - {a.id}
      && t.local == s.local - {FullyQualifiedName(s.nodes[a.id].name)}
      && Lists(t.broadcast, t.local)
    else
      && t.nodes == s.nodes[a.id := NodeAfter(s, a)]
      && if NodeAfter(s, a).suppressed then t.local == s.local && t.broadcast == s.broadcast
         else Refreshed(s.local, t.local, NodeAfter(s, a), discovery) && Lists(t.broadcast, t.local)
  }

  ghost predicate IsRun(discovery: Gid, trace: seq<State>, steps: seq<Step>) {
    && |trace| == |steps| + 1
    && trace[0] == INITIAL
    && forall i :: 0 <= i < |steps| ==> Enabled(trace[i], steps[i]) && Next(discovery, trace[i], steps[i], trace[i + 1])
  }

  predicate DistinctNames(s: State) {
    forall a, b :: a in s.nodes && b in s.nodes && s.nodes[a].name == s.nodes[b].name ==> a == b
  }

  /** No two live nodes had the same name up to this point. */
  ghost predicate AlwaysDistinct(trace: seq<State>, t: nat) {
    forall i :: 0 <= i <= t < |trace| ==> DistinctNames(trace[i])
  }

  ghost predicate NodeInv(discovery: Gid, s: State, id: NodeId)
    requires id in s.nodes
  {
    var fqn := FullyQualifiedName(s.nodes[id].name);
    !s.nodes[id].suppressed ==> fqn in s.local && Describes(s.local[fqn], s.nodes[id], {discovery})
  }

  /** The entry is that of a live node. */
  ghost predicate Owned(s: State, k: string)
    requires k in s.local
  {
    exists id :: id in s.nodes && s.local[k].name == s.nodes[id].name && k == FullyQualifiedName(s.nodes[id].name)
  }

  ghost predicate Inv(discovery: Gid, s: State) {
    && (forall id :: id in s.nodes ==> NodeInv(discovery, s, id))
    && (forall k :: k in s.local ==> Owned(s, k))
    && Lists(s.broadcast, s.local)
  }

  predicate ValidNames(s: State) {
    forall id :: id in s.nodes ==> ValidNodeName(s.nodes[id].name)
  }

  /** Live nodes are filed under different keys. */
  predicate DistinctKeys(s: State) {
    forall a, b :: a in s.nodes && b in s.nodes && a != b ==>
                     FullyQualifiedName(s.nodes[a].name) != FullyQualifiedName(s.nodes[b].name)
  }

  lemma NamesGiveKeys(s: State)
    requires ValidNames(s) && DistinctNames(s)
    ensures DistinctKeys(s)
  {
    forall a, b | a in s.nodes && b in s.nodes && a != b
      ensures FullyQualifiedName(s.nodes[a].name) != FullyQualifiedName(s.nodes[b].name)
    {
      if FullyQualifiedName(s.nodes[a].name) == FullyQualifiedName(s.nodes[b].name) {
        FullyQualifiedInjective(s.nodes[a].name, s.nodes[b].name);
      }
    }
  }

  lemma OwnerOf(s: State, k: string) returns (id: NodeId)
    requires k in s.local && Owned(s, k)
    ensures id in s.nodes && s.local[k].name == s.nodes[id].name && k == FullyQualifiedName(s.nodes[id].name)
  {
    id :| id in s.nodes && s.local[k].name == s.nodes[id].name && k == FullyQualifiedName(s.nodes[id].name);
  }

  lemma DropKeepsNode(discovery: Gid, s: State, a: NodeId, t: State, b: NodeId)
    requires Inv(discovery, s) && DistinctKeys(s) && a in s.nodes && Next(discovery, s, Step.Drop(a), t)
    requires b in t.nodes
    ensures NodeInv(discovery, t, b)
  {
    assert NodeInv(discovery, s, b);
  }

  lemma DropKeepsOwned(discovery: Gid, s: State, a: NodeId, t: State, k: string)
    requires Inv(discovery, s) && a in s.nodes && Next(discovery, s, Step.Drop(a), t) && k in t.local
    ensures Owned(t, k)
  {
    var b := OwnerOf(s, k);
    assert b in t.nodes;
  }

  lemma OtherKeepsNode(discovery: Gid, s: State, a: Step, t: State, b: NodeId)
    requires Inv(discovery, s) && Enabled(s, a) && !a.Drop? && Next(discovery, s, a, t) && DistinctKeys(t)
    requires b in t.nodes
    ensures NodeInv(discovery, t, b)
  {
    if b != a.id {
      assert NodeInv(discovery, s, b);
      assert FullyQualifiedName(t.nodes[b].name) != FullyQualifiedName(t.nodes[a.id].name);
    }
  }

  lemma OtherKeepsOwned(discovery: Gid, s: State, a: Step, t: State, k: string)
    requires Inv(discovery, s) && Enabled(s, a) && !a.Drop? && Next(discovery, s, a, t) && k in t.local
    ensures Owned(t, k)
  {
    assert t.nodes[a.id] == NodeAfter(s, a);
    if k == FullyQualifiedName(t.nodes[a.id].name) && !t.nodes[a.id].suppressed {
      assert t.local[k].name == t.nodes[a.id].name;
    } else {
      assert k in s.local && t.local[k] == s.local[k];
      var b := OwnerOf(s, k);
      assert b in t.nodes && t.nodes[b].name == s.nodes[b].name;
    }
  }

  lemma StepKeepsInv(discovery: Gid, s: State, a: Step, t: State)
    requires Inv(discovery, s) && Enabled(s, a) && Next(discovery, s, a, t) && DistinctKeys(s) && DistinctKeys(t)
    ensures Inv(discovery, t)
  {
    forall b | b in t.nodes ensures NodeInv(discovery, t, b) {
      if a.Drop? {
        DropKeepsNode(discovery, s, a.id, t, b);
      } else {
        OtherKeepsNode(discovery, s, a, t, b);
      }
    }
    forall k | k in t.local ensures Owned(t, k) {
      if a.Drop? {
        DropKeepsOwned(discovery, s, a.id, t, k);
      } else {
        OtherKeepsOwned(discovery, s, a, t, k);
      }
    }
  }

  lemma {:induction false} RunKeepsInv(discovery: Gid, trace: seq<State>, steps: seq<Step>, t: nat)
    requires IsRun(discovery, trace, steps) && t < |trace| && AlwaysDistinct(trace, t)
    ensures Inv(discovery, trace[t]) && ValidNames(trace[t])
  {
    if t > 0 {
      var a := steps[t - 1];
      assert Enabled(trace[t - 1], a) && Next(discovery, trace[t - 1], a, trace[t - 1 + 1]);
      assert DistinctNames(trace[t - 1]) && DistinctNames(trace[t]);
      RunKeepsInv(discovery, trace, steps, t - 1);
      NamesGiveKeys(trace[t - 1]);
      NamesGiveKeys(trace[t]);
      StepKeepsInv(discovery, trace[t - 1], a, trace[t]);
    }
  }

  lemma DescribesMeans(info: Info, node: NodeState, discovery: Gid)
    requires Describes(info, node, {discovery})
    ensures NoDuplicates(info.readers) && forall g :: g in info.readers <==> g in node.readers
    ensures NoDuplicates(info.writers)
    ensures forall g :: g in info.writers <==>
                          g in node.writers || g == node.parameterEvents || node.rosout == Some(g) || g == discovery
  {
  }

  /** A live node that is not suppressed has exactly one entry in the last broadcast, with exactly
      its readers and writers, each once. */
  lemma LiveNodeIsBroadcastOnce(discovery: Gid, trace: seq<State>, steps: seq<Step>, t: nat, id: NodeId)
    returns (i: nat)
    requires IsRun(discovery, trace, steps) && t < |trace| && AlwaysDistinct(trace, t)
    requires id in trace[t].nodes && !trace[t].nodes[id].suppressed
    ensures i < |trace[t].broadcast| && Describes(trace[t].broadcast[i], trace[t].nodes[id], {discovery})
    ensures var (info, node) := (trace[t].broadcast[i], trace[t].nodes[id]);
            && NoDuplicates(info.readers) && forall g :: g in info.readers <==> g in node.readers
    ensures var (info, node) := (trace[t].broadcast[i], trace[t].nodes[id]);
            && NoDuplicates(info.writers)
            && forall g :: g in info.writers <==>
                             g in node.writers || g == node.parameterEvents || node.rosout == Some(g) || g == discovery
    ensures forall j :: 0 <= j < |trace[t].broadcast| && trace[t].broadcast[j].name == trace[t].nodes[id].name ==> j == i
  {
    RunKeepsInv(discovery, trace, steps, t);
    var s := trace[t];
    assert NodeInv(discovery, s, id);
    var info := s.local[FullyQualifiedName(s.nodes[id].name)];
    assert info in s.broadcast;
    i :| 0 <= i < |s.broadcast| && s.broadcast[i] == info;
    DescribesMeans(info, s.nodes[id], discovery);
  }

  ghost predicate ReaderAdded(steps: seq<Step>, b: nat, t: nat, id: NodeId, g: Gid) {
    exists k :: b < k < t && k < |steps| && steps[k] == Step.AddReader(id, g)
  }

  ghost predicate WriterAdded(steps: seq<Step>, b: nat, t: nat, id: NodeId, g: Gid) {
    exists k :: b < k < t && k < |steps| && steps[k] in {Step.AddWriter(id, g), Step.EnableRosout(id, g)}
  }

  ghost predicate RosoutEnabled(steps: seq<Step>, b: nat, t: nat, id: NodeId, g: Gid) {
    exists k :: b < k < t && k < |steps| && steps[k] == Step.EnableRosout(id, g)
  }

  /** Updates are suppressed from the beginning and then as was last asked for. */
  ghost predicate LastSuppress(steps: seq<Step>, b: nat, t: nat, id: NodeId) {
    if t <= b + 1 || t > |steps| then true
    else if steps[t - 1].Suppress? && steps[t - 1].id == id then steps[t - 1].suppress
    else LastSuppress(steps, b, t - 1, id)
  }

  /** The node is what was made of it since step `b`. */
  ghost predicate MadeSince(node: NodeState, steps: seq<Step>, b: nat, t: nat, id: NodeId) {
    && (forall g :: g in node.readers <==> ReaderAdded(steps, b, t, id, g))
    && (forall g :: g in node.writers <==> WriterAdded(steps, b, t, id, g))
    && (forall g :: node.rosout == Some(g) ==> RosoutEnabled(steps, b, t, id, g))
    && (node.rosout.None? ==> forall g :: !RosoutEnabled(steps, b, t, id, g))
    && node.suppressed == LastSuppress(steps, b, t, id)
  }

  lemma MadeByOneMore(s: State, steps: seq<Step>, b: nat, t: nat, id: NodeId)
    requires b < t < |steps| && Enabled(s, steps[t]) && id in s.nodes && MadeSince(s.nodes[id], steps, b, t, id)
    requires !(steps[t].id == id && (steps[t].Drop? || steps[t].Begin?))
    ensures MadeSince(if steps[t].id == id then NodeAfter(s, steps[t]) else s.nodes[id], steps, b, t + 1, id)
  {
    forall g
      ensures ReaderAdded(steps, b, t + 1, id, g) <==> ReaderAdded(steps, b, t, id, g) || steps[t] == Step.AddReader(id, g)
      ensures WriterAdded(steps, b, t + 1, id, g) <==>
                WriterAdded(steps, b, t, id, g) || steps[t] in {Step.AddWriter(id, g), Step.EnableRosout(id, g)}
      ensures RosoutEnabled(steps, b, t + 1, id, g) <==>
                RosoutEnabled(steps, b, t, id, g) || steps[t] == Step.EnableRosout(id, g)
    {
    }
  }

  /** Over any run, a live node has the name and the parameter-events writer it began with, and
      exactly the readers and writers that were added to it since. */
  lemma {:induction false} NodeHistory(discovery: Gid, trace: seq<State>, steps: seq<Step>, t: nat, id: NodeId)
    returns (b: nat)
    requires IsRun(discovery, trace, steps) && t < |trace| && id in trace[t].nodes
    ensures var node := trace[t].nodes[id];
            b < t && steps[b] == Begin(id, node.name, node.parameterEvents) && MadeSince(node, steps, b, t, id)
  {
    var s, a := trace[t - 1], steps[t - 1];
    assert Enabled(s, a) && Next(discovery, s, a, trace[t - 1 + 1]);
    if a.Begin? && a.id == id {
      b := t - 1;
      assert forall g :: !ReaderAdded(steps, b, t, id, g) && !WriterAdded(steps, b, t, id, g) && !RosoutEnabled(steps, b, t, id, g);
    } else {
      b := NodeHistory(discovery, trace, steps, t - 1, id);
      MadeByOneMore(s, steps, b, t - 1, id);
    }
  }

  /** Every entry in the last broadcast is that of a live node; none is left of a dropped one. */
  lemma BroadcastNamesLiveNodes(discovery: Gid, trace: seq<State>, steps: seq<Step>, t: nat, i: nat)
    returns (id: NodeId)
    requires IsRun(discovery, trace, steps) && t < |trace| && AlwaysDistinct(trace, t) && i < |trace[t].broadcast|
    ensures id in trace[t].nodes && trace[t].nodes[id].name == trace[t].broadcast[i].name
  {
    RunKeepsInv(discovery, trace, steps, t);
    var s := trace[t];
    var k := FullyQualifiedName(s.broadcast[i].name);
    assert k in s.local && s.local[k] == s.broadcast[i] && Owned(s, k);
    id :| id in s.nodes && s.local[k].name == s.nodes[id].name && k == FullyQualifiedName(s.nodes[id].name);
  }

  /** Distinct names are needed: dropping one of two namesakes takes the entry of the other away,
      although that one stays alive. */
  lemma NamesakeLosesItsEntry(discovery: Gid, s: State, a: NodeId, b: NodeId, t: State)
    requires a in s.nodes && b in s.nodes && a != b && s.nodes[a].name == s.nodes[b].name
    requires Next(discovery, s, Step.Drop(a), t)
    ensures b in t.nodes && forall i :: 0 <= i < |t.broadcast| ==> t.broadcast[i].name != t.nodes[b].name
  {
    forall i | 0 <= i < |t.broadcast| ensures t.broadcast[i].name != t.nodes[b].name {
      assert FullyQualifiedName(t.broadcast[i].name) in t.local;
    }
  }
}
