/** Zenoh services: request ids, the server's table of pending queries, and the correlation of
    requests and replies over whole runs. */
module Services {
  import opened Basics

  type Gid = s: seq<Byte> | |s| == 16 witness seq(16, _ => 0)

  /** `u128::from_le_bytes`. */
  function GidKey(bytes: seq<Byte>): nat {
    if bytes == [] then 0 else bytes[0] + 0x100 * GidKey(bytes[1..])
  }

  /** The first byte is the lowest. */
  lemma GidKeyIsLittleEndian(bytes: seq<Byte>)
    requires bytes != []
    ensures GidKey(bytes) % 0x100 == bytes[0] && GidKey(bytes) / 0x100 == GidKey(bytes[1..])
  {
  }

  lemma {:induction false} GidKeyInjective(a: seq<Byte>, b: seq<Byte>)
    requires |a| == |b| && GidKey(a) == GidKey(b)
    ensures a == b
  {
    if a != [] {
      assert a[0] == GidKey(a) % 0x100 && b[0] == GidKey(b) % 0x100;
      GidKeyInjective(a[1..], b[1..]);
      assert a == [a[0]] + a[1..] && b == [b[0]] + b[1..];
    }
  }

  /** The value of an `AtomicI64` that started at 0 and was incremented `n` times. */
  function Wrapped(n: nat): int {
    (n + TWO_63) % TWO_64 - TWO_63
  }

  lemma WrappedInjective(m: nat, n: nat)
    requires 1 <= m <= TWO_64 && 1 <= n <= TWO_64 && Wrapped(m) == Wrapped(n)
    ensures m == n
  {
  }

  /** It counts up by one, from the largest number to the smallest. */
  lemma WrappedCounts(n: nat)
    ensures Wrapped(0) == 0
    ensures Wrapped(n + 1) == if Wrapped(n) == 0x7fff_ffff_ffff_ffff then -0x8000_0000_0000_0000 else Wrapped(n) + 1
  {
  }

  datatype RequestId = RequestId(gid: Gid, seqNo: int) {
    function Key(): (nat, int) {
      (GidKey(gid), seqNo)
    }
  }

  /** A query on the wire. `serial` is its identity: it is a handle to one waiting `get`. */
  datatype Query = Query(serial: nat, id: RequestId)

  /** A reply: the query it goes to, and the request id in its attachment. */
  datatype Reply = Reply(query: Query, echoed: RequestId)

  type Pending = map<(nat, int), Query>

  // ---------------------------------------------------------------------------------------
  // What each operation does

  /** What comes of `request_bytes`: a number, a request that cannot be encoded, or the panic of a
      build with overflow checks at the `+ 1` that follows `fetch_add`. */
  datatype Issue = Issued(seqNo: int) | NotEncoded | Overflows

  /** The number of increments of the counter, and the outcome. */
  function IssueSection(issued: nat, encodeOk: bool, checked: bool): (nat, Issue) {
    if !encodeOk then (issued, NotEncoded)
    else if checked && Wrapped(issued) == TWO_63 - 1 then (issued + 1, Overflows)
    else (issued + 1, Issued(Wrapped(issued + 1)))
  }

  datatype ServiceError = Malformed | UnknownRequest | Cdr | Zenoh

  /** What `accept` finds as the payload of a query; a `RawServer` never finds `Undecodable`. */
  datatype Payload = Missing | Undecodable | Decodable

  datatype Received = Request(id: RequestId) | Failed(error: ServiceError)

  function AcceptSection(pending: Pending, query: Query, payload: Payload, attachment: Option<RequestId>)
    : (Pending, Received)
  {
    match payload
    case Missing => (pending, Failed(Malformed))
    case Undecodable => (pending, Failed(Cdr))
    case Decodable =>
      if attachment.None? then (pending, Failed(Malformed))
      else (pending[attachment.value.Key() := query], Received.Request(attachment.value))
  }

  /** How sending goes once the query is found. */
  datatype Delivery = EncodeFails | ReplyFails | Delivers

  datatype Response = Sent(reply: Reply) | NotSent(error: ServiceError)

  /** The query is taken from the table before the response is encoded. */
  function RespondSection(pending: Pending, id: RequestId, delivery: Delivery): (Pending, Response) {
    if id.Key() !in pending then (pending, NotSent(UnknownRequest))
    else
      (pending - {id.Key()},
       match delivery
       case EncodeFails => NotSent(Cdr)
       case ReplyFails => NotSent(Zenoh)
       case Delivers => Sent(Reply(pending[id.Key()], id)))
  }

  // ---------------------------------------------------------------------------------------

  class Client {
    const gid: Gid
    var seqNo: int
    ghost var issued: nat

    ghost predicate Valid()
      reads this
    {
      seqNo == Wrapped(issued)
    }

    constructor (gid: Gid)
      ensures Valid() && this.gid == gid && issued == 0
    {
      this.gid := gid;
      seqNo, issued := 0, 0;
    }

    /** `request_bytes`: takes the next sequence number once the request is encoded. */
    method RequestBytes(encodeOk: bool, checked: bool) returns (r: Issue)
      requires Valid()
      modifies this
      ensures Valid() && (issued, r) == IssueSection(old(issued), encodeOk, checked)
      ensures !encodeOk ==> r == NotEncoded && seqNo == old(seqNo)
      ensures encodeOk ==> seqNo == if old(seqNo) == TWO_63 - 1 then -TWO_63 else old(seqNo) + 1
      ensures encodeOk ==> r == if checked && old(seqNo) == TWO_63 - 1 then Overflows else Issued(seqNo)
    {
      WrappedCounts(issued);
      if !encodeOk {
        return NotEncoded;
      }
      var before := seqNo;
      seqNo := if seqNo == TWO_63 - 1 then -TWO_63 else seqNo + 1;
      issued := issued + 1;
      if checked && before == TWO_63 - 1 {
        return Overflows;
      }
      r := Issued(if before == TWO_63 - 1 then -TWO_63 else before + 1);
    }
  }

  class Server {
    var pending: Pending
    var replies: seq<Reply>

    constructor ()
      ensures pending == map[] && replies == []
    {
      pending, replies := map[], [];
    }

    /** `accept`: an error leaves the table alone, whichever check it comes from. */
    method Accept(query: Query, payload: Payload, attachment: Option<RequestId>) returns (r: Received)
      modifies this`pending
      ensures (pending, r) == AcceptSection(old(pending), query, payload, attachment)
      ensures payload.Missing? ==> r == Failed(Malformed)
      ensures payload.Undecodable? ==> r == Failed(Cdr)
      ensures payload.Decodable? ==>
                r == if attachment.Some? then Received.Request(attachment.value) else Failed(Malformed)
      ensures pending == if r.Request? then old(pending)[r.id.Key() := query] else old(pending)
    {
      if payload.Missing? {
        return Failed(Malformed);
      }
      if payload.Undecodable? {
        return Failed(Cdr);
      }
      if attachment.None? {
        return Failed(Malformed);
      }
      pending := pending[attachment.value.Key() := query];
      r := Received.Request(attachment.value);
    }

    /** `send_response`. */
    method SendResponse(id: RequestId, delivery: Delivery) returns (r: Response)
      modifies this
      ensures (pending, r) == RespondSection(old(pending), id, delivery)
      ensures id.Key() !in old(pending) ==> r == NotSent(UnknownRequest)
      ensures id.Key() in old(pending) ==>
                && (delivery.EncodeFails? ==> r == NotSent(Cdr))
                && (delivery.ReplyFails? ==> r == NotSent(Zenoh))
                && (delivery.Delivers? ==> r == Sent(Reply(old(pending)[id.Key()], id)))
      ensures pending == old(pending) - {id.Key()}
      ensures replies == old(replies) + if r.Sent? then [r.reply] else []
    {
      if id.Key() !in pending {
        assert pending - {id.Key()} == pending;
        return NotSent(UnknownRequest);
      }
      var query := pending[id.Key()];
      pending := pending - {id.Key()};
      if delivery.EncodeFails? {
        return NotSent(Cdr);
      }
      if delivery.ReplyFails? {
        return NotSent(Zenoh);
      }
      r := Sent(Reply(query, id));
      replies := replies + [r.reply];
    }
  }

  // ---------------------------------------------------------------------------------------
  // Many clients and one server

  type ClientId = nat

  datatype ClientState = ClientState(gid: Gid, issued: nat)

  datatype State = State(
    clients: map<ClientId, ClientState>,
    sent: seq<Query>,             // every query, in order; the serial of a query is its index
    inTransit: set<Query>,
    accepted: set<Query>,
    answered: set<Query>,         // taken from the table by a response
    pending: Pending,
    replies: multiset<Reply>)

  datatype Step =
    | NewClient(c: ClientId, gid: Gid)
    | Request(c: ClientId, encodeOk: bool, checked: bool)
    | Lose(query: Query)
    | AcceptQuery(query: Query, payload: Payload)
    | Respond(id: RequestId, delivery: Delivery)

  const INITIAL := State(map[], [], {}, {}, {}, map[], multiset{})

  predicate Enabled(s: State, a: Step) {
    match a
    case NewClient(c, gid) => c !in s.clients && forall d :: d in s.clients ==> s.clients[d].gid != gid
    case Request(c, _, _) => c in s.clients
    case Lose(q) => q in s.inTransit
    case AcceptQuery(q, _) => q in s.inTransit
    case Respond(_, _) => true
  }

  function Apply(s: State, a: Step): State
    requires Enabled(s, a)
  {
    match a
    case NewClient(c, gid) => s.(clients := s.clients[c := ClientState(gid, 0)])
    case Request(c, encodeOk, checked) =>
      var (n, r) := IssueSection(s.clients[c].issued, encodeOk, checked);
      var u := s.(clients := s.clients[c := s.clients[c].(issued := n)]);
      if r.Issued? then
        var q := Query(|s.sent|, RequestId(s.clients[c].gid, r.seqNo));
        u.(sent := s.sent + [q], inTransit := s.inTransit + {q})
      else u
    case Lose(q) => s.(inTransit := s.inTransit - {q})
    case AcceptQuery(q, payload) =>
      var (pending, r) := AcceptSection(s.pending, q, payload, Some(q.id));
      s.(inTransit := s.inTransit - {q},
         accepted := if r.Request? then s.accepted + {q} else s.accepted,
         pending := pending)
    case Respond(id, delivery) =>
      var (pending, r) := RespondSection(s.pending, id, delivery);
      s.(pending := pending,
         answered := if id.Key() in s.pending then s.answered + {s.pending[id.Key()]} else s.answered,
         replies := if r.Sent? then s.replies + multiset{r.reply} else s.replies)
  }

  ghost predicate IsRun(trace: seq<State>, steps: seq<Step>) {
    && |trace| == |steps| + 1
    && trace[0] == INITIAL
    && forall i :: 0 <= i < |steps| ==> Enabled(trace[i], steps[i]) && trace[i + 1] == Apply(trace[i], steps[i])
  }

  /** No client has used up its sequence numbers. */
  ghost predicate NoWrap(s: State) {
    forall c :: c in s.clients ==> s.clients[c].issued <= TWO_64
  }

  /** The query is one of those its client has sent. */
  ghost predicate SentBy(s: State, q: Query, c: ClientId, n: nat) {
    c in s.clients && s.clients[c].gid == q.id.gid && 1 <= n <= s.clients[c].issued && q.id.seqNo == Wrapped(n)
  }

  ghost predicate GidsDistinct(s: State) {
    forall c, d :: c in s.clients && d in s.clients && s.clients[c].gid == s.clients[d].gid ==> c == d
  }

  ghost predicate Known(s: State, q: Query) {
    exists c, n :: SentBy(s, q, c, n)
  }

  ghost predicate SentInv(s: State) {
    && GidsDistinct(s)
    && (forall i :: 0 <= i < |s.sent| ==> s.sent[i].serial == i && Known(s, s.sent[i]))
    && (forall i, j :: 0 <= i < j < |s.sent| ==> s.sent[i].id != s.sent[j].id)
  }

  ghost predicate FlowInv(s: State) {
    && (forall q :: q in s.inTransit || q in s.accepted ==> q in s.sent)
    && s.inTransit !! s.accepted
    && s.answered <= s.accepted
  }

  /** The table holds what was accepted and has not been answered, under the keys of the queries. */
  ghost predicate PendingInv(s: State) {
    && (forall q :: q in s.accepted - s.answered ==> q.id.Key() in s.pending && s.pending[q.id.Key()] == q)
    && (forall k :: k in s.pending ==> s.pending[k] in s.accepted - s.answered && s.pending[k].id.Key() == k)
  }

  ghost predicate RepliesInv(s: State) {
    forall r :: r in s.replies ==> r.query in s.answered && r.echoed == r.query.id && s.replies[r] == 1
  }

  ghost predicate TableInv(s: State) {
    FlowInv(s) && PendingInv(s) && RepliesInv(s)
  }

  lemma KeyInjective(a: RequestId, b: RequestId)
    requires a.Key() == b.Key()
    ensures a == b
  {
    GidKeyInjective(a.gid, b.gid);
  }

  /** A new request has an id that no earlier one has. */
  lemma NewIdOnRequest(s: State, c: ClientId, i: nat)
    requires SentInv(s) && c in s.clients && s.clients[c].issued < TWO_64 && i < |s.sent|
    ensures s.sent[i].id != RequestId(s.clients[c].gid, Wrapped(s.clients[c].issued + 1))
  {
    assert Known(s, s.sent[i]);
    var d, m :| SentBy(s, s.sent[i], d, m);
    if s.sent[i].id == RequestId(s.clients[c].gid, Wrapped(s.clients[c].issued + 1)) {
      assert d == c;
      WrappedInjective(m, s.clients[c].issued + 1);
    }
  }

  /** What a client has sent stays sent. */
  lemma SentByLater(s: State, a: Step, q: Query)
    requires Enabled(s, a) && Known(s, q)
    ensures Known(Apply(s, a), q)
  {
    var t := Apply(s, a);
    var d, m :| SentBy(s, q, d, m);
    assert SentBy(t, q, d, m);
  }

  lemma RequestKeepsSentInv(s: State, a: Step)
    requires SentInv(s) && a.Request? && Enabled(s, a) && NoWrap(Apply(s, a))
    requires IssueSection(s.clients[a.c].issued, a.encodeOk, a.checked).1.Issued?
    ensures SentInv(Apply(s, a))
  {
    var t := Apply(s, a);
    var last := |s.sent|;
    assert SentBy(t, t.sent[last], a.c, t.clients[a.c].issued);
    forall i | 0 <= i < last ensures t.sent[i].id != t.sent[last].id {
      NewIdOnRequest(s, a.c, i);
    }
    forall i | 0 <= i < |t.sent| ensures t.sent[i].serial == i && Known(t, t.sent[i]) {
      if i < last {
        SentByLater(s, a, s.sent[i]);
      }
    }
  }

  lemma StepKeepsGidsDistinct(s: State, a: Step)
    requires GidsDistinct(s) && Enabled(s, a)
    ensures GidsDistinct(Apply(s, a))
  {
    if a.Request? {
      assert forall c :: c in s.clients ==> Apply(s, a).clients[c].gid == s.clients[c].gid;
    }
  }

  lemma SameSentKeepsSentInv(s: State, a: Step)
    requires SentInv(s) && Enabled(s, a) && Apply(s, a).sent == s.sent
    ensures SentInv(Apply(s, a))
  {
    var t := Apply(s, a);
    StepKeepsGidsDistinct(s, a);
    forall i | 0 <= i < |t.sent| ensures t.sent[i].serial == i && Known(t, t.sent[i]) {
      SentByLater(s, a, s.sent[i]);
    }
  }

  lemma StepKeepsSentInv(s: State, a: Step)
    requires SentInv(s) && Enabled(s, a) && NoWrap(Apply(s, a))
    ensures SentInv(Apply(s, a))
  {
    if a.Request? && IssueSection(s.clients[a.c].issued, a.encodeOk, a.checked).1.Issued? {
      RequestKeepsSentInv(s, a);
    } else {
      SameSentKeepsSentInv(s, a);
    }
  }

  /** Two sent queries under the same key are one. */
  lemma SameKeySameQuery(s: State, p: Query, q: Query)
    requires SentInv(s) && p in s.sent && q in s.sent && p.id.Key() == q.id.Key()
    ensures p == q
  {
    KeyInjective(p.id, q.id);
  }

  lemma RequestKeepsTableInv(s: State, a: Step)
    requires SentInv(s) && TableInv(s) && a.Request? && Enabled(s, a)
    ensures TableInv(Apply(s, a))
  {
    var t := Apply(s, a);
    if t.sent != s.sent {
      var last := t.sent[|s.sent|];
      assert forall q :: q in s.sent ==> q in t.sent && q.serial < last.serial;
      assert last in t.sent && last !in s.accepted;
    }
  }

  lemma NewKeyOnAccept(s: State, q: Query)
    requires SentInv(s) && TableInv(s) && q in s.inTransit
    ensures forall p :: p in s.accepted ==> p.id.Key() != q.id.Key()
    ensures q.id.Key() !in s.pending && q !in s.accepted
  {
    forall p | p in s.accepted ensures p.id.Key() != q.id.Key() {
      if p.id.Key() == q.id.Key() {
        SameKeySameQuery(s, p, q);
      }
    }
  }

  lemma AcceptKeepsTableInv(s: State, q: Query)
    requires SentInv(s) && TableInv(s) && q in s.inTransit
    ensures TableInv(Apply(s, AcceptQuery(q, Decodable)))
  {
    var t := Apply(s, AcceptQuery(q, Decodable));
    NewKeyOnAccept(s, q);
    FiledOnAccept(s, q, t);
  }

  lemma FiledOnAccept(s: State, q: Query, t: State)
    requires PendingInv(s) && q !in s.accepted && s.answered <= s.accepted
    requires forall p :: p in s.accepted ==> p.id.Key() != q.id.Key()
    requires t.pending == s.pending[q.id.Key() := q] && t.accepted == s.accepted + {q} && t.answered == s.answered
    ensures PendingInv(t)
  {
    assert t.accepted - t.answered == s.accepted - s.answered + {q};
    forall k | k in t.pending ensures t.pending[k] in t.accepted - t.answered && t.pending[k].id.Key() == k {
      if k != q.id.Key() {
        assert k in s.pending;
      }
    }
  }

  lemma OneQueryUnderKey(s: State, q: Query)
    requires SentInv(s) && FlowInv(s) && q in s.accepted
    ensures forall p :: p in s.accepted && p.id.Key() == q.id.Key() ==> p == q
  {
    forall p | p in s.accepted && p.id.Key() == q.id.Key() ensures p == q {
      SameKeySameQuery(s, p, q);
    }
  }

  lemma RespondKeepsTableInv(s: State, id: RequestId, delivery: Delivery)
    requires SentInv(s) && TableInv(s)
    ensures TableInv(Apply(s, Respond(id, delivery)))
  {
    if id.Key() in s.pending {
      var q := s.pending[id.Key()];
      assert q.id.Key() == id.Key() && q in s.accepted;
      KeyInjective(id, q.id);
      OneQueryUnderKey(s, q);
      TakenOnRespond(s, q, Apply(s, Respond(id, delivery)));
      assert Reply(q, id) !in s.replies;
    }
  }

  lemma TakenOnRespond(s: State, q: Query, t: State)
    requires PendingInv(s) && forall p :: p in s.accepted && p.id.Key() == q.id.Key() ==> p == q
    requires t.pending == s.pending - {q.id.Key()} && t.accepted == s.accepted && t.answered == s.answered + {q}
    ensures PendingInv(t)
  {
    assert t.accepted - t.answered == s.accepted - s.answered - {q};
  }

  lemma StepKeepsTableInv(s: State, a: Step)
    requires SentInv(s) && TableInv(s) && Enabled(s, a)
    ensures TableInv(Apply(s, a))
  {
    match a
    case AcceptQuery(q, payload) =>
      if payload.Decodable? {
        AcceptKeepsTableInv(s, q);
      }
    case Respond(id, delivery) => RespondKeepsTableInv(s, id, delivery);
    case Request(_, _, _) => RequestKeepsTableInv(s, a);
    case _ =>
  }

  lemma NoWrapEarlier(s: State, a: Step)
    requires Enabled(s, a) && NoWrap(Apply(s, a))
    ensures NoWrap(s)
  {
    var t := Apply(s, a);
    forall c | c in s.clients ensures s.clients[c].issued <= TWO_64 {
      assert c in t.clients && s.clients[c].issued <= t.clients[c].issued;
    }
  }

  lemma {:induction false} RunKeepsInv(trace: seq<State>, steps: seq<Step>, i: nat)
    requires IsRun(trace, steps) && i < |trace| && NoWrap(trace[i])
    ensures SentInv(trace[i]) && TableInv(trace[i])
  {
    if i > 0 {
      assert trace[i - 1 + 1] == Apply(trace[i - 1], steps[i - 1]);
      NoWrapEarlier(trace[i - 1], steps[i - 1]);
      RunKeepsInv(trace, steps, i - 1);
      StepKeepsSentInv(trace[i - 1], steps[i - 1]);
      StepKeepsTableInv(trace[i - 1], steps[i - 1]);
    }
  }

  /** Request ids never collide, over all clients and all time. */
  lemma RequestIdsDistinct(trace: seq<State>, steps: seq<Step>, t: nat, i: nat, j: nat)
    requires IsRun(trace, steps) && t < |trace| && NoWrap(trace[t]) && i < j < |trace[t].sent|
    ensures trace[t].sent[i].id.Key() != trace[t].sent[j].id.Key()
  {
    RunKeepsInv(trace, steps, t);
    if trace[t].sent[i].id.Key() == trace[t].sent[j].id.Key() {
      KeyInjective(trace[t].sent[i].id, trace[t].sent[j].id);
    }
  }

  /** The table holds exactly the accepted queries that have not been answered, each under its
      own key: none is overwritten or forgotten. */
  lemma PendingIsAcceptedMinusAnswered(trace: seq<State>, steps: seq<Step>, t: nat)
    requires IsRun(trace, steps) && t < |trace| && NoWrap(trace[t])
    ensures trace[t].pending.Values == trace[t].accepted - trace[t].answered
    ensures forall q :: q in trace[t].accepted - trace[t].answered ==>
                          q.id.Key() in trace[t].pending && trace[t].pending[q.id.Key()] == q
  {
    RunKeepsInv(trace, steps, t);
    var s := trace[t];
    assert TableInv(s);
    forall q | q in s.accepted - s.answered ensures q in s.pending.Values {
      assert s.pending[q.id.Key()] == q;
    }
    forall q | q in s.pending.Values ensures q in s.accepted - s.answered {
      var k :| k in s.pending && s.pending[k] == q;
    }
  }

  /** Each query gets at most one reply, and the reply echoes the id that this query carried. */
  lemma OneReplyWithOwnId(trace: seq<State>, steps: seq<Step>, t: nat, r: Reply, r': Reply)
    requires IsRun(trace, steps) && t < |trace| && NoWrap(trace[t])
    requires r in trace[t].replies && r' in trace[t].replies
    ensures r.echoed == r.query.id && trace[t].replies[r] == 1
    ensures r.query == r'.query ==> r == r'
  {
    RunKeepsInv(trace, steps, t);
    var s := trace[t];
    assert TableInv(s);
    assert r in s.replies && r' in s.replies;
  }

  /** A request that is issued goes out with the GID of its client and its next number. */
  lemma RequestGoesOut(s: State, c: ClientId)
    requires c in s.clients
    ensures var t := Apply(s, Step.Request(c, true, false));
            var q := Query(|s.sent|, RequestId(s.clients[c].gid, Wrapped(s.clients[c].issued + 1)));
            t.sent == s.sent + [q] && t.inTransit == s.inTransit + {q} && t.clients[c].issued == s.clients[c].issued + 1
  {
  }

  /** A query that arrives and can be decoded is accepted and pending under its own key; one that
      cannot be decoded is gone and leaves the table alone. */
  lemma ArrivalIsFiled(s: State, q: Query, payload: Payload)
    requires q in s.inTransit
    ensures var t := Apply(s, AcceptQuery(q, payload));
            && t.inTransit == s.inTransit - {q}
            && (payload == Decodable ==> t.accepted == s.accepted + {q} && t.pending == s.pending[q.id.Key() := q])
            && (payload != Decodable ==> t.accepted == s.accepted && t.pending == s.pending)
  {
  }

  lemma ReplyStep(s: State, q: Query)
    requires q.id.Key() in s.pending && s.pending[q.id.Key()] == q
    ensures var u := Apply(s, Respond(q.id, Delivers));
            && u.replies == s.replies + multiset{Reply(q, q.id)}
            && u.answered == s.answered + {q}
            && u.pending == s.pending - {q.id.Key()}
  {
  }

  /** In every reachable state, responding to an accepted query that has not been answered sends
      exactly one reply, to that query and with its id, and takes it out of the table. */
  lemma ResponseReplies(trace: seq<State>, steps: seq<Step>, t: nat, q: Query)
    requires IsRun(trace, steps) && t < |trace| && NoWrap(trace[t]) && q in trace[t].accepted - trace[t].answered
    ensures var u := Apply(trace[t], Respond(q.id, Delivers));
            && u.replies == trace[t].replies + multiset{Reply(q, q.id)}
            && u.answered == trace[t].answered + {q}
            && u.pending == trace[t].pending - {q.id.Key()}
  {
    PendingIsAcceptedMinusAnswered(trace, steps, t);
    ReplyStep(trace[t], q);
  }

  /** The step delivers the reply: it found the query under the id and sending went well. */
  ghost predicate DeliversReply(s: State, a: Step, r: Reply) {
    && a.Respond? && a.delivery == Delivers && a.id.Key() in s.pending
    && r.query == s.pending[a.id.Key()] && r.echoed == a.id
  }

  ghost predicate DeliveredBefore(trace: seq<State>, steps: seq<Step>, t: nat, r: Reply) {
    exists k :: 0 <= k < t && k < |trace| && k < |steps| && DeliversReply(trace[k], steps[k], r)
  }

  lemma RepliesStep(s: State, a: Step, r: Reply)
    requires Enabled(s, a)
    ensures r in Apply(s, a).replies <==> r in s.replies || DeliversReply(s, a, r)
  {
  }

  /** Over any run, the replies are exactly those of the responses that found a query and went
      through. */
  lemma {:induction false} RepliesAreDeliveries(trace: seq<State>, steps: seq<Step>, t: nat, r: Reply)
    requires IsRun(trace, steps) && t < |trace|
    ensures r in trace[t].replies <==> DeliveredBefore(trace, steps, t, r)
  {
    if t > 0 {
      RepliesAreDeliveries(trace, steps, t - 1, r);
      assert trace[t - 1 + 1] == Apply(trace[t - 1], steps[t - 1]);
      RepliesStep(trace[t - 1], steps[t - 1], r);
      if DeliveredBefore(trace, steps, t, r) {
        var k :| 0 <= k < t && k < |trace| && k < |steps| && DeliversReply(trace[k], steps[k], r);
      }
    }
  }
}
