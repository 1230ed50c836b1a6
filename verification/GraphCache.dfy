/** The graph cache built from liveliness tokens, its event streams, and what both say about the
    log of PUT and DELETE samples they were fed with. */
module GraphCaches {
  import opened Basics
  import opened Text
  import opened Keyexpr

  datatype GraphEntity = GraphEntity(kind: EntityKind, nodeName: string, name: Option<string>, typeName: Option<string>)

  datatype GraphEvent = EntityDeclared(entity: GraphEntity) | EntityUndeclared(entity: GraphEntity)

  datatype Sample = Put(key: string) | Delete(key: string)

  type Cache = map<string, ParsedEntity>

  function JoinFqn(namespace: string, name: string): string {
    if namespace == "" || namespace == "/" then "/" + name else namespace + "/" + name
  }

  function Entity(e: ParsedEntity): GraphEntity {
    GraphEntity(
      e.kind,
      JoinFqn(e.namespace, e.nodeName),
      if e.details.Some? then Some(e.details.value.topicName) else None,
      if e.details.Some? then Some(e.details.value.typeName) else None)
  }

  /** The cache after one sample. */
  function Apply(c: Cache, s: Sample): Cache {
    match s
    case Put(key) =>
      var e := ParseLivelinessKey(key);
      if e.Some? then c[key := e.value] else c
    case Delete(key) => c - {key}
  }

  /** The event a sample is announced with, if any. */
  function Announce(c: Cache, s: Sample): seq<GraphEvent> {
    match s
    case Put(key) =>
      var e := ParseLivelinessKey(key);
      if e.Some? then [EntityDeclared(Entity(e.value))] else []
    case Delete(key) => if key in c then [EntityUndeclared(Entity(c[key]))] else []
  }

  function Replay(c: Cache, log: seq<Sample>): Cache {
    if log == [] then c else Apply(Replay(c, log[..|log| - 1]), log[|log| - 1])
  }

  function Events(c: Cache, log: seq<Sample>): seq<GraphEvent> {
    if log == [] then []
    else
      var before := log[..|log| - 1];
      Events(c, before) + Announce(Replay(c, before), log[|log| - 1])
  }

  /** A printed token is announced as what it was printed from: a node with its full name, and an
      entity with the full name of its node, its topic and its type; a later DELETE of the same
      token takes exactly that back. */
  lemma TokensAnnounce(c: Cache, domain: nat, ids: EntityIds, e: Endpoint)
    requires Printable(domain, ids, e) && PrintableNode(domain, ids)
    ensures var fqn := if ids.namespace in ["", "/"] then "/" + Rooted(ids.nodeName)
                       else ids.namespace + "/" + Rooted(ids.nodeName);
            var (node, entity) := (GraphEntity(Node, fqn, None, None),
                                   GraphEntity(e.kind, fqn, Some(Rooted(e.qualifiedName)), Some(e.typeName)));
            var (nodeKey, key) := (NodeKey(domain, ids), EntityKey(domain, ids, e));
            && Announce(c, Put(nodeKey)) == [EntityDeclared(node)]
            && Announce(c, Put(key)) == [EntityDeclared(entity)]
            && Announce(Apply(c, Put(nodeKey)), Delete(nodeKey)) == [EntityUndeclared(node)]
            && Announce(Apply(c, Put(key)), Delete(key)) == [EntityUndeclared(entity)]
  {
    NodeKeyRoundTrip(domain, ids);
    EntityKeyRoundTrip(domain, ids, e);
  }

  // ---------------------------------------------------------------------------------------
  // The cache is what the log says

  ghost predicate PutAt(log: seq<Sample>, i: nat, key: string) {
    i < |log| && log[i] == Put(key) && forall j :: i < j < |log| ==> log[j].key != key
  }

  /** The last sample for the key was a PUT. */
  ghost predicate LastIsPut(log: seq<Sample>, key: string) {
    exists i: nat :: PutAt(log, i, key)
  }

  lemma {:induction false} CacheIsLog(log: seq<Sample>, key: string)
    ensures var c := Replay(map[], log);
            && (key in c <==> LastIsPut(log, key) && ParseLivelinessKey(key).Some?)
            && (key in c ==> c[key] == ParseLivelinessKey(key).value)
  {
    if log != [] {
      var n := |log| - 1;
      var before := log[..n];
      CacheIsLog(before, key);
      if log[n].key == key {
        if log[n].Put? {
          assert PutAt(log, n, key);
        }
      } else {
        if i: nat :| PutAt(before, i, key) {
          assert PutAt(log, i, key);
        }
        if i: nat :| PutAt(log, i, key) {
          assert forall j :: i < j < n ==> before[j] == log[j];
          assert PutAt(before, i, key);
        }
      }
    }
  }

  predicate OnTopic(e: ParsedEntity, kind: EntityKind, topic: string) {
    e.kind == kind && e.details.Some? && e.details.value.topicName == topic
  }

  ghost function KeysNamed(log: seq<Sample>): set<string> {
    set i | 0 <= i < |log| :: log[i].key
  }

  /** The keys of the entities of a kind on a topic, from the log alone. */
  ghost function LiveOnTopic(log: seq<Sample>, kind: EntityKind, topic: string): set<string> {
    set k | k in KeysNamed(log) && LastIsPut(log, k) && ParseLivelinessKey(k).Some?
            && OnTopic(ParseLivelinessKey(k).value, kind, topic)
  }

  lemma CountIsLog(log: seq<Sample>, kind: EntityKind, topic: string)
    ensures var c := Replay(map[], log);
            (set k | k in c && OnTopic(c[k], kind, topic)) == LiveOnTopic(log, kind, topic)
  {
    var c := Replay(map[], log);
    forall k ensures (k in c && OnTopic(c[k], kind, topic)) <==> k in LiveOnTopic(log, kind, topic) {
      CacheIsLog(log, k);
      if i: nat :| PutAt(log, i, k) {
        assert log[i].key in KeysNamed(log);
      }
    }
  }

  // ---------------------------------------------------------------------------------------
  // The event stream and the cache

  function LiveKeys(c: Cache, x: GraphEntity): set<string> {
    set k | k in c && Entity(c[k]) == x
  }

  function Occurrences(events: seq<GraphEvent>, e: GraphEvent): nat {
    multiset(events)[e]
  }

  /** A PUT of a key that is in the cache already. */
  predicate Repeats(c: Cache, s: Sample) {
    s.Put? && s.key in c
  }

  /** How often the log repeats a live key of entity `x`. */
  function Repetitions(c: Cache, log: seq<Sample>, x: GraphEntity): nat {
    if log == [] then 0
    else
      var now := Replay(c, log[..|log| - 1]);
      var s := log[|log| - 1];
      Repetitions(c, log[..|log| - 1], x) + if Repeats(now, s) && Entity(now[s.key]) == x then 1 else 0
  }

  /** Every entry is the parse of its own key. */
  ghost predicate Consistent(c: Cache) {
    forall k :: k in c ==> ParseLivelinessKey(k) == Some(c[k])
  }

  lemma {:induction false} ReplayConsistent(c: Cache, log: seq<Sample>)
    requires Consistent(c)
    ensures Consistent(Replay(c, log))
  {
    if log != [] {
      ReplayConsistent(c, log[..|log| - 1]);
    }
  }

  lemma LiveKeysPut(c: Cache, key: string, e: ParsedEntity, x: GraphEntity)
    requires key in c ==> c[key] == e
    ensures LiveKeys(c[key := e], x) == LiveKeys(c, x) + if Entity(e) == x then {key} else {}
    ensures key in LiveKeys(c, x) <==> key in c && Entity(e) == x
  {
  }

  lemma LiveKeysDelete(c: Cache, key: string, x: GraphEntity)
    ensures LiveKeys(c - {key}, x) == LiveKeys(c, x) - {key}
    ensures key in LiveKeys(c, x) <==> key in c && Entity(c[key]) == x
  {
  }

  lemma OneEvent(e: GraphEvent, f: GraphEvent)
    ensures Occurrences([e], f) == if e == f then 1 else 0
    ensures Occurrences([], f) == 0
  {
  }

  lemma LiveKeysAfterPut(c: Cache, key: string, x: GraphEntity)
    requires key in c ==> ParseLivelinessKey(key) == Some(c[key])
    ensures |LiveKeys(Apply(c, Put(key)), x)| + Occurrences(Announce(c, Put(key)), EntityUndeclared(x))
              + (if Repeats(c, Put(key)) && Entity(c[key]) == x then 1 else 0)
         == |LiveKeys(c, x)| + Occurrences(Announce(c, Put(key)), EntityDeclared(x))
  {
    var e := ParseLivelinessKey(key);
    if e.Some? {
      var live := LiveKeys(c, x);
      LiveKeysPut(c, key, e.value, x);
      OneEvent(EntityDeclared(Entity(e.value)), EntityDeclared(x));
      OneEvent(EntityDeclared(Entity(e.value)), EntityUndeclared(x));
      if key in live { assert live + {key} == live; }
    }
  }

  lemma LiveKeysAfterDelete(c: Cache, key: string, x: GraphEntity)
    ensures |LiveKeys(Apply(c, Delete(key)), x)| + Occurrences(Announce(c, Delete(key)), EntityUndeclared(x))
         == |LiveKeys(c, x)| + Occurrences(Announce(c, Delete(key)), EntityDeclared(x))
  {
    var live := LiveKeys(c, x);
    LiveKeysDelete(c, key, x);
    if key in c {
      OneEvent(EntityUndeclared(Entity(c[key])), EntityDeclared(x));
      OneEvent(EntityUndeclared(Entity(c[key])), EntityUndeclared(x));
    } else {
      assert c - {key} == c;
    }
    assert |live - {key}| == |live| - if key in live then 1 else 0;
  }

  /** Conservation: for every entity, what was live at first plus what was declared since is what
      is live now plus what was undeclared since, plus the repeated PUTs of live keys. */
  lemma {:induction false} EventsBalance(c: Cache, log: seq<Sample>, x: GraphEntity)
    requires Consistent(c)
    ensures |LiveKeys(c, x)| + Occurrences(Events(c, log), EntityDeclared(x))
         == |LiveKeys(Replay(c, log), x)| + Occurrences(Events(c, log), EntityUndeclared(x)) + Repetitions(c, log, x)
  {
    if log != [] {
      var before := log[..|log| - 1];
      EventsBalance(c, before, x);
      ReplayConsistent(c, before);
      var now, s := Replay(c, before), log[|log| - 1];
      if s.Put? { LiveKeysAfterPut(now, s.key, x); } else { LiveKeysAfterDelete(now, s.key, x); }
    }
  }

  ghost predicate RepeatAt(c: Cache, log: seq<Sample>, i: nat) {
    i < |log| && Repeats(Replay(c, log[..i]), log[i])
  }

  /** No PUT of the log repeats a key that is live at its time. */
  ghost predicate NeverRepeats(c: Cache, log: seq<Sample>) {
    forall i: nat :: !RepeatAt(c, log, i)
  }

  lemma NeverRepeatsStep(c: Cache, log: seq<Sample>)
    requires log != []
    ensures var n := |log| - 1;
            NeverRepeats(c, log) <==> NeverRepeats(c, log[..n]) && !Repeats(Replay(c, log[..n]), log[n])
  {
    var n := |log| - 1;
    var before := log[..n];
    forall i: nat | i < n ensures RepeatAt(c, log, i) <==> RepeatAt(c, before, i) {
      assert before[..i] == log[..i];
    }
    assert RepeatAt(c, log, n) <==> Repeats(Replay(c, before), log[n]);
  }

  lemma {:induction false} NoRepetitionIfNever(c: Cache, log: seq<Sample>, x: GraphEntity)
    requires NeverRepeats(c, log)
    ensures Repetitions(c, log, x) == 0
  {
    if log != [] {
      NeverRepeatsStep(c, log);
      NoRepetitionIfNever(c, log[..|log| - 1], x);
    }
  }

  lemma {:induction false} SomeRepetition(c: Cache, log: seq<Sample>) returns (x: GraphEntity)
    requires !NeverRepeats(c, log)
    ensures Repetitions(c, log, x) > 0
  {
    NeverRepeatsStep(c, log);
    var before, s := log[..|log| - 1], log[|log| - 1];
    if NeverRepeats(c, before) {
      x := Entity(Replay(c, before)[s.key]);
    } else {
      x := SomeRepetition(c, before);
    }
  }

  /** By the events, the number of live keys of `x` went from what it was to what it is. */
  ghost predicate Tells(c: Cache, log: seq<Sample>, x: GraphEntity) {
    |LiveKeys(c, x)| + Occurrences(Events(c, log), EntityDeclared(x))
    == |LiveKeys(Replay(c, log), x)| + Occurrences(Events(c, log), EntityUndeclared(x))
  }

  lemma TellsIff(c: Cache, log: seq<Sample>, x: GraphEntity)
    requires Consistent(c)
    ensures Tells(c, log, x) <==> Repetitions(c, log, x) == 0
  {
    EventsBalance(c, log, x);
  }

  /** A subscriber can keep track of the graph by counting its events exactly if no PUT repeats a
      key that is live. */
  lemma EventsTellTheGraphIff(c: Cache, log: seq<Sample>)
    requires Consistent(c)
    ensures (forall x :: Tells(c, log, x)) <==> NeverRepeats(c, log)
  {
    if NeverRepeats(c, log) {
      forall x ensures Tells(c, log, x) {
        TellsIff(c, log, x);
        NoRepetitionIfNever(c, log, x);
      }
    } else {
      var x := SomeRepetition(c, log);
      TellsIff(c, log, x);
      assert !Tells(c, log, x);
    }
  }

  lemma EventsStep(c: Cache, log: seq<Sample>, i: nat)
    requires i < |log|
    ensures Replay(c, log[..i + 1]) == Apply(Replay(c, log[..i]), log[i])
    ensures Events(c, log[..i + 1]) == Events(c, log[..i]) + Announce(Replay(c, log[..i]), log[i])
  {
    assert log[..i + 1][..i] == log[..i];
  }

  lemma OneMore(a: seq<GraphEvent>, b: seq<GraphEvent>, c: seq<GraphEvent>)
    ensures a + b + c == a + (b + c)
  {
  }

  // ---------------------------------------------------------------------------------------

  /** The unbounded channel of one subscriber. */
  class EventStream {
    var events: seq<GraphEvent>
    var closed: bool

    constructor ()
      ensures events == [] && !closed
    {
      events, closed := [], false;
    }

    method TrySend(e: GraphEvent)
      modifies this`events
      ensures events == old(events) + [e]
    {
      events := events + [e];
    }
  }

  class GraphCache {
    var entities: Cache
    var subscribers: seq<EventStream>

    ghost predicate Valid()
      reads this
    {
      Consistent(entities) && forall i, j :: 0 <= i < j < |subscribers| ==> subscribers[i] != subscribers[j]
    }

    constructor ()
      ensures Valid() && entities == Replay(map[], []) && subscribers == []
    {
      entities, subscribers := map[], [];
    }

    method Subscribe() returns (stream: EventStream)
      requires Valid() && forall s :: s in subscribers ==> allocated(s)
      modifies this`subscribers
      ensures Valid() && fresh(stream) && stream.events == [] && !stream.closed
      ensures subscribers == old(subscribers) + [stream]
    {
      stream := new EventStream();
      subscribers := subscribers + [stream];
    }

    /** `retain`: drops the streams whose receiver is gone. */
    method Retain()
      requires Valid()
      modifies this`subscribers
      ensures Valid()
      ensures forall s :: s in subscribers ==> s in old(subscribers)
      ensures forall s :: s in old(subscribers) ==> (s in subscribers <==> !s.closed)
    {
      var kept: seq<EventStream> := [];
      for i := 0 to |subscribers|
        invariant forall s :: s in kept ==> s in subscribers[..i]
        invariant forall s :: s in subscribers[..i] ==> (s in kept <==> !s.closed)
        invariant forall a, b :: 0 <= a < b < |kept| ==> kept[a] != kept[b]
      {
        assert subscribers[..i + 1] == subscribers[..i] + [subscribers[i]];
        if !subscribers[i].closed {
          kept := kept + [subscribers[i]];
        }
      }
      assert subscribers[..|subscribers|] == subscribers;
      subscribers := kept;
    }

    method Broadcast(e: GraphEvent)
      requires Valid()
      modifies this`subscribers, subscribers
      ensures Valid()
      ensures forall s :: s in subscribers ==> s in old(subscribers)
      ensures forall s :: s in old(subscribers) ==> s.closed == old(s.closed) && (s in subscribers <==> !s.closed)
      ensures forall s :: s in old(subscribers) ==> s.events == old(s.events) + if s.closed then [] else [e]
    {
      Retain();
      var open := subscribers;
      for i := 0 to |open|
        invariant subscribers == open && forall k :: 0 <= k < |open| ==> open[k] in old(subscribers)
        invariant forall s :: s in old(subscribers) ==> s.closed == old(s.closed)
        invariant forall s :: s in old(subscribers) && s !in open ==> s.events == old(s.events)
        invariant forall k :: 0 <= k < i ==> open[k].events == old(open[k].events) + [e]
        invariant forall k :: i <= k < |open| ==> open[k].events == old(open[k].events)
      {
        open[i].TrySend(e);
      }
    }

    /** The liveliness callback: `apply_put` or `apply_delete`. */
    method OnSample(s: Sample)
      requires Valid()
      modifies this, subscribers
      ensures Valid() && entities == Apply(old(entities), s)
      ensures forall t :: t in subscribers ==> t in old(subscribers)
      ensures forall t :: t in old(subscribers) ==> t.closed == old(t.closed) && (!t.closed ==> t in subscribers)
      ensures forall t :: t in old(subscribers) && !t.closed ==> t.events == old(t.events) + Announce(old(entities), s)
    {
      match s {
        case Put(key) =>
          var e := ParseLivelinessKey(key);
          if e.Some? {
            entities := entities[key := e.value];
            Broadcast(EntityDeclared(Entity(e.value)));
          }
        case Delete(key) =>
          if key in entities {
            var e := entities[key];
            entities := entities - {key};
            Broadcast(EntityUndeclared(Entity(e)));
          } else {
            assert entities - {key} == entities;
          }
      }
    }

    /** A whole log of samples: a stream that is open throughout has seen exactly the events that
        the log announces, so `EventsTellTheGraphIff` is about its reader. */
    method OnSamples(log: seq<Sample>)
      requires Valid()
      modifies this, subscribers
      ensures Valid() && entities == Replay(old(entities), log)
      ensures forall t :: t in old(subscribers) ==> t.closed == old(t.closed) && (!t.closed ==> t in subscribers)
      ensures forall t :: t in old(subscribers) && !t.closed ==> t.events == old(t.events) + Events(old(entities), log)
    {
      ghost var start := subscribers;
      for i := 0 to |log|
        invariant Valid() && entities == Replay(old(entities), log[..i])
        invariant forall k :: 0 <= k < |subscribers| ==> subscribers[k] in start
        invariant forall t :: t in start ==> t.closed == old(t.closed) && (!t.closed ==> t in subscribers)
        invariant forall t :: t in start && !t.closed ==> t.events == old(t.events) + Events(old(entities), log[..i])
      {
        ghost var before, now := subscribers, entities;
        EventsStep(old(entities), log, i);
        OnSample(log[i]);
        assert forall k :: 0 <= k < |subscribers| ==> subscribers[k] in subscribers && subscribers[k] in before;
        forall t | t in start && !t.closed ensures t.events == old(t.events) + Events(old(entities), log[..i + 1]) {
          OneMore(old(t.events), Events(old(entities), log[..i]), Announce(now, log[i]));
        }
      }
      assert log[..|log|] == log;
    }

    /** `count_kind_on_topic`: counts the values one by one. */
    method CountKindOnTopic(kind: EntityKind, topic: string, ghost log: seq<Sample>) returns (count: nat)
      requires entities == Replay(map[], log)
      ensures count == |LiveOnTopic(log, kind, topic)|
    {
      count := 0;
      var todo := entities.Keys;
      ghost var counted: set<string> := {};
      while todo != {}
        invariant todo <= entities.Keys
        invariant counted == set k | k in entities && k !in todo && OnTopic(entities[k], kind, topic)
        invariant count == |counted|
        decreases todo
      {
        var k :| k in todo;
        todo := todo - {k};
        if OnTopic(entities[k], kind, topic) {
          count := count + 1;
          counted := counted + {k};
        }
      }
      CountIsLog(log, kind, topic);
      assert counted == set k | k in entities && OnTopic(entities[k], kind, topic);
    }

    /** `node_names`: sorted, without duplicates, and exactly the names of the nodes. */
    method NodeNames() returns (names: seq<string>)
      ensures StrictlySorted(names)
      ensures forall n :: n in names <==>
                exists k :: k in entities && entities[k].kind.Node?
                            && JoinFqn(entities[k].namespace, entities[k].nodeName) == n
    {
      names := [];
      var todo := entities.Keys;
      while todo != {}
        invariant todo <= entities.Keys && StrictlySorted(names)
        invariant forall n :: n in names <==>
                    exists k :: k in entities && k !in todo && entities[k].kind.Node?
                              && JoinFqn(entities[k].namespace, entities[k].nodeName) == n
        decreases todo
      {
        var k :| k in todo;
        todo := todo - {k};
        if entities[k].kind.Node? {
          var name := JoinFqn(entities[k].namespace, entities[k].nodeName);
          InsertNameSorted(name, names);
          names := InsertName(name, names);
        }
      }
    }
  }

  ghost predicate StrictlySorted(names: seq<string>) {
    forall i, j :: 0 <= i < j < |names| ==> NameLe(names[i], names[j]) && names[i] != names[j]
  }

  /** The place of a name in a sorted list without duplicates. */
  function InsertName(name: string, names: seq<string>): seq<string> {
    if names == [] then [name]
    else if names[0] == name then names
    else if NameLe(name, names[0]) then [name] + names
    else [names[0]] + InsertName(name, names[1..])
  }

  lemma {:induction false} InsertNameSorted(name: string, names: seq<string>)
    requires StrictlySorted(names)
    ensures StrictlySorted(InsertName(name, names))
    ensures forall n :: n in InsertName(name, names) <==> n == name || n in names
  {
    if names != [] && names[0] != name {
      NameLeTotal(name, names[0]);
      if NameLe(name, names[0]) {
        forall j | 0 <= j < |names| ensures NameLe(name, names[j]) && name != names[j] {
          if j > 0 {
            NameLeTransitive(name, names[0], names[j]);
            NameLeTotal(names[0], names[j]);
          }
        }
      } else {
        var rest := InsertName(name, names[1..]);
        InsertNameSorted(name, names[1..]);
        assert names == [names[0]] + names[1..];
        forall j | 0 <= j < |rest| ensures NameLe(names[0], rest[j]) && names[0] != rest[j] {
          assert rest[j] in rest;
        }
      }
    }
  }
}
