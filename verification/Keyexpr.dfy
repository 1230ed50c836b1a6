/** Liveliness keys: the printer and the parser of the tokens by which entities are discovered. */
module Keyexpr {
  import opened Basics
  import opened Text
  import QosEncoding

  const ADMIN_SPACE := "@ros2_lv"
  const U16_MAX := 0xFFFF

  datatype EntityKind = Node | Publisher | Subscription | ServiceServer | ServiceClient

  function Code(kind: EntityKind): string {
    match kind
    case Node => "NN"
    case Publisher => "MP"
    case Subscription => "MS"
    case ServiceServer => "SS"
    case ServiceClient => "SC"
  }

  function ParseKind(code: string): Option<EntityKind> {
    if code == "NN" then Some(Node)
    else if code == "MP" then Some(Publisher)
    else if code == "MS" then Some(Subscription)
    else if code == "SS" then Some(ServiceServer)
    else if code == "SC" then Some(ServiceClient)
    else None
  }

  function Replace(s: string, from: char, to: char): (r: string)
    ensures |r| == |s| && forall i :: 0 <= i < |s| ==> r[i] == if s[i] == from then to else s[i]
  {
    if s == [] then [] else [if s[0] == from then to else s[0]] + Replace(s[1..], from, to)
  }

  function Mangle(name: string): string {
    if name == "" then "%" else Replace(name, '/', '%')
  }

  function Demangle(name: string): string {
    Replace(name, '%', '/')
  }

  /** The empty name and the root are not told apart by a key. */
  function Rooted(name: string): string {
    if name == "" then "/" else name
  }

  datatype EntityIds = EntityIds(
    sessionId: string, nodeId: nat, entityId: nat, enclave: string, namespace: string, nodeName: string)

  /** What a publisher, subscription or service adds to the ids of its node. */
  datatype Endpoint = Endpoint(kind: EntityKind, qualifiedName: string, typeName: string, typeHash: string, qos: string)

  function CommonParts(domain: nat, ids: EntityIds, entityId: nat, kind: EntityKind): seq<string> {
    [ADMIN_SPACE, Dec(domain), ids.sessionId, Dec(ids.nodeId), Dec(entityId), Code(kind),
     Mangle(ids.enclave), Mangle(ids.namespace), Mangle(ids.nodeName)]
  }

  function EndpointParts(e: Endpoint): seq<string> {
    [Mangle(e.qualifiedName), e.typeName, e.typeHash, e.qos]
  }

  function NodeKey(domain: nat, ids: EntityIds): string {
    Join(CommonParts(domain, ids, ids.nodeId, Node), '/')
  }

  function EntityKey(domain: nat, ids: EntityIds, e: Endpoint): string {
    Join(CommonParts(domain, ids, ids.entityId, e.kind) + EndpointParts(e), '/')
  }

  datatype Details = Details(topicName: string, typeName: string, typeHash: string, qos: string)

  datatype ParsedEntity = ParsedEntity(
    domainId: nat, zid: string, nodeId: nat, entityId: nat, kind: EntityKind,
    namespace: string, nodeName: string, details: Option<Details>)

  function ParseParts(p: seq<string>): Option<ParsedEntity> {
    if |p| < 9 || p[0] != ADMIN_SPACE then None
    else
      match (ParseUnsigned(p[1], U16_MAX), ParseUnsigned(p[3], U64_MAX), ParseUnsigned(p[4], U64_MAX), ParseKind(p[5]))
      case (Some(domain), Some(node), Some(entity), Some(kind)) =>
        if kind.Node? then
          Some(ParsedEntity(domain, p[2], node, entity, kind, Demangle(p[7]), Demangle(p[8]), None))
        else if |p| < 13 then None
        else
          Some(ParsedEntity(domain, p[2], node, entity, kind, Demangle(p[7]), Demangle(p[8]),
            Some(Details(Demangle(p[9]), p[10], p[11], p[12]))))
      case _ => None
  }

  function ParseLivelinessKey(key: string): Option<ParsedEntity> {
    ParseParts(Split(key, '/'))
  }

  // ---------------------------------------------------------------------------------------
  // Names

  lemma MangleFree(name: string)
    ensures Free(Mangle(name), '/')
  {
  }

  /** A name survives mangling exactly if it has no percent sign, up to empty being root. */
  lemma DemangleMangle(name: string)
    ensures Demangle(Mangle(name)) == Rooted(name) <==> Free(name, '%')
  {
    var back := Demangle(Mangle(name));
    if name != "" {
      assert |back| == |name| && forall i :: 0 <= i < |name| ==> back[i] == if name[i] == '%' then '/' else name[i];
      if !Free(name, '%') {
        var i :| 0 <= i < |name| && name[i] == '%';
        assert back[i] != name[i];
      }
    }
  }

  lemma ParseKindCode(kind: EntityKind)
    ensures ParseKind(Code(kind)) == Some(kind) && Free(Code(kind), '/')
  {
  }

  /** Every slash becomes a percent sign, and the empty name is one percent sign. */
  lemma MangleIs(name: string)
    ensures name == "" ==> Mangle(name) == "%"
    ensures name != "" ==>
              && |Mangle(name)| == |name|
              && forall i :: 0 <= i < |name| ==> Mangle(name)[i] == if name[i] == '/' then '%' else name[i]
  {
  }

  /** The nine parts of a node key, and the thirteen of an entity key with the five codes. */
  lemma KeysWrittenOut(domain: nat, ids: EntityIds, e: Endpoint)
    ensures NodeKey(domain, ids) ==
              Join(["@ros2_lv", Dec(domain), ids.sessionId, Dec(ids.nodeId), Dec(ids.nodeId), "NN",
                    Mangle(ids.enclave), Mangle(ids.namespace), Mangle(ids.nodeName)], '/')
    ensures var code := match e.kind
                        case Node => "NN"
                        case Publisher => "MP"
                        case Subscription => "MS"
                        case ServiceServer => "SS"
                        case ServiceClient => "SC";
            EntityKey(domain, ids, e) ==
              Join(["@ros2_lv", Dec(domain), ids.sessionId, Dec(ids.nodeId), Dec(ids.entityId), code,
                    Mangle(ids.enclave), Mangle(ids.namespace), Mangle(ids.nodeName),
                    Mangle(e.qualifiedName), e.typeName, e.typeHash, e.qos], '/')
  {
    var code := Code(e.kind);
    assert CommonParts(domain, ids, ids.entityId, e.kind) + EndpointParts(e) ==
           ["@ros2_lv", Dec(domain), ids.sessionId, Dec(ids.nodeId), Dec(ids.entityId), code,
            Mangle(ids.enclave), Mangle(ids.namespace), Mangle(ids.nodeName),
            Mangle(e.qualifiedName), e.typeName, e.typeHash, e.qos];
  }

  // ---------------------------------------------------------------------------------------
  // The round trip

  predicate IdsInRange(domain: nat, ids: EntityIds) {
    domain <= U16_MAX && ids.nodeId <= U64_MAX && ids.entityId <= U64_MAX
  }

  lemma CommonPartsFree(domain: nat, ids: EntityIds, entityId: nat, kind: EntityKind)
    ensures AllFree(CommonParts(domain, ids, entityId, kind), '/') <==> Free(ids.sessionId, '/')
  {
    MangleFree(ids.enclave);
    MangleFree(ids.namespace);
    MangleFree(ids.nodeName);
    ParseKindCode(kind);
    var p := CommonParts(domain, ids, entityId, kind);
    assert p[2] == ids.sessionId;
    assert Free(ADMIN_SPACE, '/');
  }

  /** Which keys are accepted. */
  lemma ParsesIff(key: string)
    ensures var p := Split(key, '/');
            ParseLivelinessKey(key).Some? <==>
              && |p| >= 9 && p[0] == "@ros2_lv"
              && ParseUnsigned(p[1], 65535).Some?
              && ParseUnsigned(p[3], U64_MAX).Some? && ParseUnsigned(p[4], U64_MAX).Some?
              && (p[5] == "NN" || (p[5] in ["MP", "MS", "SS", "SC"] && |p| >= 13))
  {
  }

  function ExpectedNode(domain: nat, ids: EntityIds): ParsedEntity {
    ParsedEntity(domain, ids.sessionId, ids.nodeId, ids.nodeId, Node, Rooted(ids.namespace), Rooted(ids.nodeName), None)
  }

  function ExpectedEntity(domain: nat, ids: EntityIds, e: Endpoint): ParsedEntity {
    ParsedEntity(domain, ids.sessionId, ids.nodeId, ids.entityId, e.kind, Rooted(ids.namespace), Rooted(ids.nodeName),
      Some(Details(Rooted(e.qualifiedName), e.typeName, e.typeHash, e.qos)))
  }

  /** The parts that are printed as they are come back iff they do not contain the separator:
      a split part never does. */
  lemma SplitPartsFree(key: string)
    ensures AllFree(Split(key, '/'), '/')
  {
    JoinSplit(key, '/');
  }

  /** A node key is read back with every field but the enclave exactly if the session id has no slash
      and the names have no percent sign. */
  lemma NodeKeyRoundTrip(domain: nat, ids: EntityIds)
    requires IdsInRange(domain, ids)
    ensures ParseLivelinessKey(NodeKey(domain, ids)) == Some(ExpectedNode(domain, ids))
       <==> Free(ids.sessionId, '/') && Free(ids.namespace, '%') && Free(ids.nodeName, '%')
  {
    var parts := CommonParts(domain, ids, ids.nodeId, Node);
    CommonPartsFree(domain, ids, ids.nodeId, Node);
    SplitPartsFree(NodeKey(domain, ids));
    if Free(ids.sessionId, '/') {
      SplitJoin(parts, '/');
      ParseUnsignedDec(domain, U16_MAX);
      ParseUnsignedDec(ids.nodeId, U64_MAX);
      DemangleMangle(ids.namespace);
      DemangleMangle(ids.nodeName);
    } else {
      // the session id in a parsed key is a part of the split, so it has no slash
      assert ParseLivelinessKey(NodeKey(domain, ids)).Some? ==>
          Free(ParseLivelinessKey(NodeKey(domain, ids)).value.zid, '/');
    }
  }

  predicate PlainFieldsFree(ids: EntityIds, e: Endpoint) {
    Free(ids.sessionId, '/') && Free(e.typeName, '/') && Free(e.typeHash, '/') && Free(e.qos, '/')
  }

  lemma EntityPartsFree(domain: nat, ids: EntityIds, e: Endpoint)
    requires PlainFieldsFree(ids, e)
    ensures AllFree(CommonParts(domain, ids, ids.entityId, e.kind) + EndpointParts(e), '/')
  {
    CommonPartsFree(domain, ids, ids.entityId, e.kind);
    MangleFree(e.qualifiedName);
    assert AllFree(EndpointParts(e), '/');
  }

  lemma ParsedFieldsFree(key: string)
    ensures var r := ParseLivelinessKey(key);
            r.Some? ==>
              && Free(r.value.zid, '/')
              && (r.value.details.Some? ==>
                    var d := r.value.details.value; Free(d.typeName, '/') && Free(d.typeHash, '/') && Free(d.qos, '/'))
  {
    SplitPartsFree(key);
  }

  lemma EntityKeyParsed(domain: nat, ids: EntityIds, e: Endpoint)
    requires IdsInRange(domain, ids) && !e.kind.Node? && PlainFieldsFree(ids, e)
    ensures ParseLivelinessKey(EntityKey(domain, ids, e)) ==
              Some(ParsedEntity(domain, ids.sessionId, ids.nodeId, ids.entityId, e.kind,
                Demangle(Mangle(ids.namespace)), Demangle(Mangle(ids.nodeName)),
                Some(Details(Demangle(Mangle(e.qualifiedName)), e.typeName, e.typeHash, e.qos))))
  {
    EntityPartsFree(domain, ids, e);
    SplitJoin(CommonParts(domain, ids, ids.entityId, e.kind) + EndpointParts(e), '/');
    ParseUnsignedDec(domain, U16_MAX);
    ParseUnsignedDec(ids.nodeId, U64_MAX);
    ParseUnsignedDec(ids.entityId, U64_MAX);
    ParseKindCode(e.kind);
  }

  /** A publisher, subscription or service key is read back with every field but the enclave
      exactly if the fields printed as they are have no slash and the names no percent sign. */
  lemma EntityKeyRoundTrip(domain: nat, ids: EntityIds, e: Endpoint)
    requires IdsInRange(domain, ids) && !e.kind.Node?
    ensures ParseLivelinessKey(EntityKey(domain, ids, e)) == Some(ExpectedEntity(domain, ids, e))
       <==> PlainFieldsFree(ids, e) && Free(ids.namespace, '%') && Free(ids.nodeName, '%') && Free(e.qualifiedName, '%')
  {
    if PlainFieldsFree(ids, e) {
      EntityKeyParsed(domain, ids, e);
      DemangleMangle(ids.namespace);
      DemangleMangle(ids.nodeName);
      DemangleMangle(e.qualifiedName);
    } else {
      ParsedFieldsFree(EntityKey(domain, ids, e));
    }
  }

  /** The token's QoS chunk decodes to the profile it was made from. */
  lemma KeyCarriesQos(domain: nat, ids: EntityIds, e: Endpoint, q: QosEncoding.QosProfile)
    requires IdsInRange(domain, ids) && !e.kind.Node? && QosEncoding.Valid(q) && e.qos == QosEncoding.EncodeQos(q)
    requires Free(ids.sessionId, '/') && Free(e.typeName, '/') && Free(e.typeHash, '/')
    ensures var r := ParseLivelinessKey(EntityKey(domain, ids, e));
            r.Some? && r.value.details.Some? && QosEncoding.DecodeQos(r.value.details.value.qos) == QosEncoding.Ok(q)
  {
    QosEncoding.GroupsFree(q, '/');
    QosEncoding.JoinFree(QosEncoding.Groups(q), ':', '/');
    EntityKeyParsed(domain, ids, e);
    QosEncoding.DecodeEncode(q);
  }

  predicate Printable(domain: nat, ids: EntityIds, e: Endpoint) {
    && IdsInRange(domain, ids) && !e.kind.Node? && PlainFieldsFree(ids, e)
    && Free(ids.namespace, '%') && Free(ids.nodeName, '%') && Free(e.qualifiedName, '%')
  }

  /** So a key determines all the fields of the entity (the empty namespace counting as root), and
      the enclave, which the parser skips, as it is printed. */
  lemma KeyDeterminesEntity(domain: nat, ids: EntityIds, e: Endpoint, domain': nat, ids': EntityIds, e': Endpoint)
    requires Printable(domain, ids, e) && Printable(domain', ids', e')
    requires EntityKey(domain, ids, e) == EntityKey(domain', ids', e')
    ensures ExpectedEntity(domain, ids, e) == ExpectedEntity(domain', ids', e')
    ensures Mangle(ids.enclave) == Mangle(ids'.enclave)
  {
    EntityKeyRoundTrip(domain, ids, e);
    EntityKeyRoundTrip(domain', ids', e');
    var p, p' := CommonParts(domain, ids, ids.entityId, e.kind) + EndpointParts(e),
                 CommonParts(domain', ids', ids'.entityId, e'.kind) + EndpointParts(e');
    EntityPartsFree(domain, ids, e);
    EntityPartsFree(domain', ids', e');
    SplitJoin(p, '/');
    SplitJoin(p', '/');
    assert p[6] == Mangle(ids.enclave) && p'[6] == Mangle(ids'.enclave);
  }

  predicate PrintableNode(domain: nat, ids: EntityIds) {
    IdsInRange(domain, ids) && Free(ids.sessionId, '/') && Free(ids.namespace, '%') && Free(ids.nodeName, '%')
  }

  /** ... and the same for the key of a node. */
  lemma KeyDeterminesNode(domain: nat, ids: EntityIds, domain': nat, ids': EntityIds)
    requires PrintableNode(domain, ids) && PrintableNode(domain', ids')
    requires NodeKey(domain, ids) == NodeKey(domain', ids')
    ensures ExpectedNode(domain, ids) == ExpectedNode(domain', ids')
    ensures Mangle(ids.enclave) == Mangle(ids'.enclave)
  {
    NodeKeyRoundTrip(domain, ids);
    NodeKeyRoundTrip(domain', ids');
    var p, p' := CommonParts(domain, ids, ids.nodeId, Node), CommonParts(domain', ids', ids'.nodeId, Node);
    CommonPartsFree(domain, ids, ids.nodeId, Node);
    CommonPartsFree(domain', ids', ids'.nodeId, Node);
    SplitJoin(p, '/');
    SplitJoin(p', '/');
    assert p[6] == Mangle(ids.enclave) && p'[6] == Mangle(ids'.enclave);
  }

  // ---------------------------------------------------------------------------------------
  // Keys declared by one context

  datatype Declared =
    | NodeToken(ids: EntityIds)
    | EntityToken(ids: EntityIds, endpoint: Endpoint)

  /** What the context and its nodes have created so far: the node counter, and for each node its
      namespace and name and the counter of its entities. */
  datatype Counters = Counters(nodes: nat, names: seq<(string, string)>, entities: seq<nat>)

  datatype Creation =
    | CreateNode(namespace: string, nodeName: string)
    | CreateEntity(node: nat, endpoint: Endpoint)

  /** `fetch_add` on an `AtomicU64`: the id handed out by a counter that has been used `n` times. */
  function FetchedId(n: nat): nat {
    n % (U64_MAX + 1)
  }

  predicate CanCreate(c: Counters, a: Creation) {
    c.nodes == |c.names| == |c.entities| && (a.CreateEntity? ==> a.node < c.nodes && !a.endpoint.kind.Node?)
  }

  function Create(zid: string, c: Counters, a: Creation): (Counters, Declared)
    requires CanCreate(c, a)
  {
    match a
    case CreateNode(ns, name) =>
      var id := FetchedId(c.nodes);
      (Counters(c.nodes + 1, c.names + [(ns, name)], c.entities + [0]), NodeToken(EntityIds(zid, id, id, "", ns, name)))
    case CreateEntity(node, e) =>
      var (ns, name) := c.names[node];
      (c.(entities := c.entities[node := c.entities[node] + 1]),
       EntityToken(EntityIds(zid, FetchedId(node), FetchedId(c.entities[node]), "", ns, name), e))
  }

  function KeyOf(domain: nat, d: Declared): string {
    if d.NodeToken? then NodeKey(domain, d.ids) else EntityKey(domain, d.ids, d.endpoint)
  }

  /** A run of creations on one context: the counters before each, and the tokens it declared. */
  ghost predicate IsRun(zid: string, counters: seq<Counters>, actions: seq<Creation>, tokens: seq<Declared>) {
    && |counters| == |actions| + 1 && |tokens| == |actions|
    && counters[0] == Counters(0, [], [])
    && forall i :: 0 <= i < |actions| ==>
         CanCreate(counters[i], actions[i]) && (counters[i + 1], tokens[i]) == Create(zid, counters[i], actions[i])
  }

  lemma {:induction false} CountersGrow(zid: string, counters: seq<Counters>, actions: seq<Creation>,
                                          tokens: seq<Declared>, i: nat, j: nat)
    requires IsRun(zid, counters, actions, tokens) && i <= j < |counters|
    ensures counters[i].nodes <= counters[j].nodes <= counters[i].nodes + (j - i)
    ensures |counters[i].entities| == counters[i].nodes == |counters[i].names|
    ensures |counters[j].entities| == counters[j].nodes == |counters[j].names|
    ensures forall n :: 0 <= n < counters[i].nodes ==> counters[i].entities[n] <= counters[j].entities[n]
    ensures forall n :: 0 <= n < counters[j].nodes ==> counters[j].entities[n] <= j
    decreases j
  {
    if i < j {
      CountersGrow(zid, counters, actions, tokens, i, j - 1);
    } else if j > 0 {
      CountersGrow(zid, counters, actions, tokens, j - 1, j - 1);
    }
  }

  predicate PrintableToken(domain: nat, d: Declared) {
    if d.EntityToken? then Printable(domain, d.ids, d.endpoint)
    else PrintableNode(domain, d.ids)
  }

  /** The kind and the two ids of a token, which its key determines. */
  lemma KeyDeterminesIds(domain: nat, a: Declared, b: Declared)
    requires PrintableToken(domain, a) && PrintableToken(domain, b)
    requires a.NodeToken? ==> a.ids.entityId == a.ids.nodeId
    requires b.NodeToken? ==> b.ids.entityId == b.ids.nodeId
    requires KeyOf(domain, a) == KeyOf(domain, b)
    ensures a.NodeToken? == b.NodeToken? && a.ids.nodeId == b.ids.nodeId && a.ids.entityId == b.ids.entityId
  {
    if a.NodeToken? { NodeKeyRoundTrip(domain, a.ids); } else { EntityKeyRoundTrip(domain, a.ids, a.endpoint); }
    if b.NodeToken? { NodeKeyRoundTrip(domain, b.ids); } else { EntityKeyRoundTrip(domain, b.ids, b.endpoint); }
  }

  /** The token a creation declares carries the counters as they were, and bumps its own. */
  lemma TokenAt(zid: string, counters: seq<Counters>, actions: seq<Creation>, tokens: seq<Declared>, i: nat)
    requires IsRun(zid, counters, actions, tokens) && i < |tokens| && |actions| <= U64_MAX + 1
    ensures var (c, d, a, t) := (counters[i], counters[i + 1], actions[i], tokens[i]);
            if a.CreateNode? then
              && t.NodeToken? && t.ids.nodeId == t.ids.entityId == c.nodes && d.nodes == c.nodes + 1
            else
              && t.EntityToken? && t.ids.nodeId == a.node < c.nodes == |c.entities| == |d.entities|
              && t.ids.entityId == c.entities[a.node] && d.entities[a.node] == c.entities[a.node] + 1
  {
    CountersGrow(zid, counters, actions, tokens, 0, i);
    assert CanCreate(counters[i], actions[i]) && (counters[i + 1], tokens[i]) == Create(zid, counters[i], actions[i]);
  }

  /** All keys that one context declares over any run are pairwise distinct, as long as the
      64-bit counters have not wrapped around. */
  lemma KeysDistinct(zid: string, domain: nat, counters: seq<Counters>, actions: seq<Creation>,
                     tokens: seq<Declared>, i: nat, j: nat)
    requires IsRun(zid, counters, actions, tokens) && i < j < |tokens|
    requires |actions| <= U64_MAX + 1
    requires PrintableToken(domain, tokens[i]) && PrintableToken(domain, tokens[j])
    ensures KeyOf(domain, tokens[i]) != KeyOf(domain, tokens[j])
  {
    TokenAt(zid, counters, actions, tokens, i);
    TokenAt(zid, counters, actions, tokens, j);
    CountersGrow(zid, counters, actions, tokens, i + 1, j);
    if KeyOf(domain, tokens[i]) == KeyOf(domain, tokens[j]) {
      KeyDeterminesIds(domain, tokens[i], tokens[j]);
    }
  }

  /** Every node of a run has the names it was created with. */
  lemma {:induction false} CreationOf(zid: string, counters: seq<Counters>, actions: seq<Creation>,
                                      tokens: seq<Declared>, i: nat, node: nat) returns (j: nat)
    requires IsRun(zid, counters, actions, tokens) && i < |counters| && node < counters[i].nodes == |counters[i].names|
    ensures j < i && actions[j].CreateNode? && counters[j].nodes == node
    ensures counters[i].names[node] == (actions[j].namespace, actions[j].nodeName)
  {
    CountersGrow(zid, counters, actions, tokens, i - 1, i);
    if node == counters[i - 1].nodes {
      j := i - 1;
    } else {
      j := CreationOf(zid, counters, actions, tokens, i - 1, node);
    }
  }

  /** The token of a node is read back as that node: under the session, with its id, namespace and
      name, and nothing else. */
  lemma NodeTokenTells(zid: string, domain: nat, counters: seq<Counters>, actions: seq<Creation>,
                       tokens: seq<Declared>, i: nat)
    requires IsRun(zid, counters, actions, tokens) && i < |tokens| && PrintableToken(domain, tokens[i])
    requires actions[i].CreateNode?
    ensures var id := counters[i].nodes % (U64_MAX + 1);
            ParseLivelinessKey(KeyOf(domain, tokens[i])) ==
              Some(ParsedEntity(domain, zid, id, id, Node, Rooted(actions[i].namespace), Rooted(actions[i].nodeName), None))
  {
    assert CanCreate(counters[i], actions[i]) && (counters[i + 1], tokens[i]) == Create(zid, counters[i], actions[i]);
    NodeKeyRoundTrip(domain, tokens[i].ids);
  }

  /** The token of a publisher, subscription or service is read back as that entity of the node that
      was created as number `actions[i].node`: with the namespace and name that node was given, its
      own id, and the kind, topic, type, hash and QoS it was created with. */
  lemma EntityTokenTells(zid: string, domain: nat, counters: seq<Counters>, actions: seq<Creation>,
                         tokens: seq<Declared>, i: nat) returns (j: nat)
    requires IsRun(zid, counters, actions, tokens) && i < |tokens| && PrintableToken(domain, tokens[i])
    requires actions[i].CreateEntity?
    ensures j < i && actions[j].CreateNode? && counters[j].nodes == actions[i].node
    ensures var (node, e) := (actions[i].node, actions[i].endpoint);
            && node < |counters[i].entities|
            && ParseLivelinessKey(KeyOf(domain, tokens[i])) ==
                 Some(ParsedEntity(domain, zid, node % (U64_MAX + 1), counters[i].entities[node] % (U64_MAX + 1), e.kind,
                   Rooted(actions[j].namespace), Rooted(actions[j].nodeName),
                   Some(Details(Rooted(e.qualifiedName), e.typeName, e.typeHash, e.qos))))
  {
    assert CanCreate(counters[i], actions[i]) && (counters[i + 1], tokens[i]) == Create(zid, counters[i], actions[i]);
    j := CreationOf(zid, counters, actions, tokens, i, actions[i].node);
    EntityKeyRoundTrip(domain, tokens[i].ids, tokens[i].endpoint);
  }
}
