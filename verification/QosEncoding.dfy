/** The compact QoS string of a liveliness token: every field but the depth is left out when it
    equals the default. */
module QosEncoding {
  import opened Basics
  import opened Text

  const NANOS_PER_SEC := 1_000_000_000

  datatype Reliability = BestEffort | Reliable
  datatype Durability = Volatile | TransientLocal
  datatype History = KeepLast(depth: nat) | KeepAll
  datatype Liveliness = Automatic | ManualByTopic

  /** `std::time::Duration`. */
  datatype Duration = Duration(secs: nat, nanos: nat)

  datatype QosProfile = QosProfile(
    reliability: Reliability,
    durability: Durability,
    history: History,
    deadline: Option<Duration>,
    lifespan: Option<Duration>,
    liveliness: Liveliness,
    livelinessLease: Option<Duration>)

  predicate ValidDuration(d: Duration) {
    d.secs <= U64_MAX && d.nanos < NANOS_PER_SEC
  }

  /** What the field types of a profile allow: `usize` and `Duration`. */
  predicate Valid(q: QosProfile) {
    && (q.history.KeepLast? ==> q.history.depth <= U64_MAX)
    && (q.deadline.Some? ==> ValidDuration(q.deadline.value))
    && (q.lifespan.Some? ==> ValidDuration(q.lifespan.value))
    && (q.livelinessLease.Some? ==> ValidDuration(q.livelinessLease.value))
  }

  // ---------------------------------------------------------------------------------------

  function SecsField(d: Option<Duration>): string {
    if d.None? then "" else Dec(d.value.secs)
  }

  function NanosField(d: Option<Duration>): string {
    if d.None? then "" else Dec(d.value.nanos)
  }

  function ReliabilityField(r: Reliability): string {
    if r.Reliable? then "" else "2"
  }

  function DurabilityField(d: Durability): string {
    if d.Volatile? then "" else "1"
  }

  function HistoryField(h: History): string {
    if h.KeepLast? then "" else "2"
  }

  function DepthField(h: History): string {
    if h.KeepLast? then Dec(h.depth) else Dec(0)
  }

  function LivelinessField(l: Liveliness): string {
    if l.Automatic? then "" else "3"
  }

  /** The six groups, each with its comma-separated fields. */
  function Groups(q: QosProfile): seq<string> {
    [ReliabilityField(q.reliability),
     DurabilityField(q.durability),
     Join([HistoryField(q.history), DepthField(q.history)], ','),
     Join([SecsField(q.deadline), NanosField(q.deadline)], ','),
     Join([SecsField(q.lifespan), NanosField(q.lifespan)], ','),
     Join([LivelinessField(q.liveliness), SecsField(q.livelinessLease), NanosField(q.livelinessLease)], ',')]
  }

  function EncodeQos(q: QosProfile): string {
    Join(Groups(q), ':')
  }

  // ---------------------------------------------------------------------------------------

  /** `Panics` is the overflow of `Duration::new`, which carries whole seconds out of the
      nanoseconds. */
  datatype Decoded<+T> = Ok(value: T) | Malformed | Panics {
    predicate IsFailure() {
      !Ok?
    }

    function PropagateFailure<U>(): Decoded<U>
      requires IsFailure()
    {
      if Malformed? then Malformed else Panics
    }

    function Extract(): T
      requires Ok?
    {
      value
    }
  }

  function FromOption<T>(o: Option<T>): Decoded<T> {
    if o.Some? then Ok(o.value) else Malformed
  }

  function NewDuration(secs: nat, nanos: nat): Decoded<Duration> {
    var total := secs + nanos / NANOS_PER_SEC;
    if total <= U64_MAX then Ok(Duration(total, nanos % NANOS_PER_SEC)) else Panics
  }

  function ParseDuration(sec: string, nsec: string): Decoded<Option<Duration>> {
    if sec == "" && nsec == "" then Ok(None)
    else
      var s :- FromOption(ParseUnsigned(sec, U64_MAX));
      var ns :- FromOption(ParseUnsigned(nsec, U32_MAX));
      var d :- NewDuration(s, ns);
      Ok(Some(d))
  }

  function ParseReliability(s: string): Option<Reliability> {
    if s == "" || s == "1" then Some(Reliable) else if s == "2" then Some(BestEffort) else None
  }

  function ParseDurability(s: string): Option<Durability> {
    if s == "" || s == "2" then Some(Volatile) else if s == "1" then Some(TransientLocal) else None
  }

  function ParseHistory(hist: string, depth: nat): Option<History> {
    if hist == "" || hist == "1" then Some(KeepLast(depth)) else if hist == "2" then Some(KeepAll) else None
  }

  function ParseLiveliness(s: string): Option<Liveliness> {
    if s == "" || s == "1" then Some(Automatic) else if s == "3" then Some(ManualByTopic) else None
  }

  function ParsePair(group: string): Decoded<Option<Duration>> {
    var (sec, nsec) :- FromOption(SplitOnce(group, ','));
    ParseDuration(sec, nsec)
  }

  function ParseHistoryGroup(group: string): Decoded<History> {
    var (hist, depthText) :- FromOption(SplitOnce(group, ','));
    var depth :- if depthText == "" then Ok(0) else FromOption(ParseUnsigned(depthText, U64_MAX));
    FromOption(ParseHistory(hist, depth))
  }

  /** `splitn(3, ',')`, a missing part being empty. */
  function SplitThree(s: string): (string, string, string) {
    match SplitOnce(s, ',')
    case None => (s, "", "")
    case Some((a, rest)) =>
      match SplitOnce(rest, ',')
      case None => (a, rest, "")
      case Some((b, c)) => (a, b, c)
  }

  function ParseLivelinessGroup(group: string): Decoded<(Liveliness, Option<Duration>)> {
    var (liv, sec, nsec) := SplitThree(group);
    var liveliness :- FromOption(ParseLiveliness(liv));
    var lease :- ParseDuration(sec, nsec);
    Ok((liveliness, lease))
  }

  function DecodeQos(s: string): Decoded<QosProfile> {
    DecodeGroups(Split(s, ':'))
  }

  function DecodeGroups(groups: seq<string>): Decoded<QosProfile> {
    if |groups| != 6 then Malformed
    else
      var reliability :- FromOption(ParseReliability(groups[0]));
      var durability :- FromOption(ParseDurability(groups[1]));
      var history :- ParseHistoryGroup(groups[2]);
      var deadline :- ParsePair(groups[3]);
      var lifespan :- ParsePair(groups[4]);
      var (liveliness, lease) :- ParseLivelinessGroup(groups[5]);
      Ok(QosProfile(reliability, durability, history, deadline, lifespan, liveliness, lease))
  }

  // ---------------------------------------------------------------------------------------

  lemma SplitOncePair(a: string, b: string)
    requires Free(a, ',')
    ensures SplitOnce(Join([a, b], ','), ',') == Some((a, b))
  {
    var text := Join([a, b], ',');
    assert [a, b][1..] == [b] && Join([b], ',') == b;
    assert text == a + [','] + b;
    var (x, y) := SplitOnce(text, ',').value;
    FirstSplitUnique(a, b, x, y, ',');
  }

  lemma SplitThreeBack(a: string, b: string, c: string)
    requires Free(a, ',') && Free(b, ',')
    ensures SplitThree(Join([a, b, c], ',')) == (a, b, c)
  {
    var rest := Join([b, c], ',');
    assert [a, b, c][1..] == [b, c] && [a, rest][1..] == [rest];
    assert Join([a, b, c], ',') == Join([a, rest], ',');
    SplitOncePair(a, rest);
    SplitOncePair(b, c);
  }

  lemma DurationFieldsFree(d: Option<Duration>)
    ensures Free(SecsField(d), ',') && Free(NanosField(d), ',') && Free(SecsField(d), ':') && Free(NanosField(d), ':')
  {
  }

  lemma ParseDurationBack(d: Option<Duration>)
    requires d.Some? ==> ValidDuration(d.value)
    ensures ParseDuration(SecsField(d), NanosField(d)) == Ok(d)
  {
    if d.Some? {
      ParseUnsignedDec(d.value.secs, U64_MAX);
      ParseUnsignedDec(d.value.nanos, U32_MAX);
    }
  }

  lemma ParsePairBack(d: Option<Duration>)
    requires d.Some? ==> ValidDuration(d.value)
    ensures ParsePair(Join([SecsField(d), NanosField(d)], ',')) == Ok(d)
  {
    DurationFieldsFree(d);
    SplitOncePair(SecsField(d), NanosField(d));
    ParseDurationBack(d);
  }

  lemma ParseHistoryBack(h: History)
    requires h.KeepLast? ==> h.depth <= U64_MAX
    ensures ParseHistoryGroup(Join([HistoryField(h), DepthField(h)], ',')) == Ok(h)
  {
    SplitOncePair(HistoryField(h), DepthField(h));
    ParseUnsignedDec(if h.KeepLast? then h.depth else 0, U64_MAX);
  }

  lemma ParseLivelinessBack(l: Liveliness, d: Option<Duration>)
    requires d.Some? ==> ValidDuration(d.value)
    ensures ParseLivelinessGroup(Join([LivelinessField(l), SecsField(d), NanosField(d)], ',')) == Ok((l, d))
  {
    DurationFieldsFree(d);
    SplitThreeBack(LivelinessField(l), SecsField(d), NanosField(d));
    ParseDurationBack(d);
  }

  /** No character of `Join` but the separator comes from outside the parts. */
  lemma {:induction false} JoinFree(parts: seq<string>, separator: char, c: char)
    requires c != separator && AllFree(parts, c)
    ensures Free(Join(parts, separator), c)
  {
    if |parts| > 1 {
      JoinFree(parts[1..], separator, c);
      assert Free(parts[0], c);
    }
  }

  lemma GroupsFree(q: QosProfile, c: char)
    requires c != ',' && !IsDigit(c)
    ensures AllFree(Groups(q), c)
  {
    DecAllFree(q, c);
    JoinFree([HistoryField(q.history), DepthField(q.history)], ',', c);
    JoinFree([SecsField(q.deadline), NanosField(q.deadline)], ',', c);
    JoinFree([SecsField(q.lifespan), NanosField(q.lifespan)], ',', c);
    JoinFree([LivelinessField(q.liveliness), SecsField(q.livelinessLease), NanosField(q.livelinessLease)], ',', c);
  }

  lemma DecAllFree(q: QosProfile, c: char)
    requires !IsDigit(c)
    ensures Free(DepthField(q.history), c)
    ensures Free(SecsField(q.deadline), c) && Free(NanosField(q.deadline), c)
    ensures Free(SecsField(q.lifespan), c) && Free(NanosField(q.lifespan), c)
    ensures Free(SecsField(q.livelinessLease), c) && Free(NanosField(q.livelinessLease), c)
  {
  }

  /** Decoding returns exactly the profile that was encoded: all depths, all optional
      durations, KeepAll included. */
  lemma DecodeEncode(q: QosProfile)
    requires Valid(q)
    ensures DecodeQos(EncodeQos(q)) == Ok(q)
  {
    GroupsFree(q, ':');
    SplitJoin(Groups(q), ':');
    DecodeGroupsBack(q, Groups(q));
  }

  lemma DecodeGroupsBack(q: QosProfile, groups: seq<string>)
    requires Valid(q) && groups == Groups(q)
    ensures DecodeGroups(groups) == Ok(q)
  {
    assert ParseReliability(groups[0]) == Some(q.reliability) && ParseDurability(groups[1]) == Some(q.durability);
    assert ParseHistoryGroup(groups[2]) == Ok(q.history) by { ParseHistoryBack(q.history); }
    assert ParsePair(groups[3]) == Ok(q.deadline) by { ParsePairBack(q.deadline); }
    assert ParsePair(groups[4]) == Ok(q.lifespan) by { ParsePairBack(q.lifespan); }
    assert ParseLivelinessGroup(groups[5]) == Ok((q.liveliness, q.livelinessLease)) by {
      ParseLivelinessBack(q.liveliness, q.livelinessLease);
    }
  }

  lemma ParseDurationValid(sec: string, nsec: string)
    ensures var d := ParseDuration(sec, nsec); d.Ok? && d.value.Some? ==> ValidDuration(d.value.value)
  {
  }

  lemma DecodedIsValid(s: string)
    ensures DecodeQos(s).Ok? ==> Valid(DecodeQos(s).value)
  {
    var groups := Split(s, ':');
    if DecodeQos(s).Ok? {
      var h, dl, ls := SplitOnce(groups[2], ',').value, SplitOnce(groups[3], ',').value, SplitOnce(groups[4], ',').value;
      var lv := SplitThree(groups[5]);
      ParseDurationValid(dl.0, dl.1);
      ParseDurationValid(ls.0, ls.1);
      ParseDurationValid(lv.1, lv.2);
    }
  }

  /** Encoding what was decoded is a normal form of the string: it means the same, and is shared
      by exactly the strings of the same meaning. */
  lemma EncodeDecodeNormalizes(s: string, t: string)
    ensures DecodeQos(s).Ok? ==> DecodeQos(EncodeQos(DecodeQos(s).value)) == DecodeQos(s)
    ensures DecodeQos(s).Ok? && DecodeQos(t).Ok? ==>
              (EncodeQos(DecodeQos(s).value) == EncodeQos(DecodeQos(t).value) <==> DecodeQos(s) == DecodeQos(t))
  {
    DecodedIsValid(s);
    DecodedIsValid(t);
    if DecodeQos(s).Ok? {
      DecodeEncode(DecodeQos(s).value);
    }
    if DecodeQos(t).Ok? {
      DecodeEncode(DecodeQos(t).value);
    }
  }

  // ---------------------------------------------------------------------------------------
  // The codes on the wire

  /** The six groups with their codes; what equals the default is left out, but not the depth. */
  lemma QosWrittenOut(q: QosProfile)
    ensures EncodeQos(q) ==
              Join([if q.reliability == BestEffort then "2" else "",
                    if q.durability == TransientLocal then "1" else "",
                    if q.history.KeepAll? then "2,0" else "," + Dec(q.history.depth),
                    if q.deadline.None? then "," else Dec(q.deadline.value.secs) + "," + Dec(q.deadline.value.nanos),
                    if q.lifespan.None? then "," else Dec(q.lifespan.value.secs) + "," + Dec(q.lifespan.value.nanos),
                    (if q.liveliness == ManualByTopic then "3," else ",")
                    + (if q.livelinessLease.None? then ","
                       else Dec(q.livelinessLease.value.secs) + "," + Dec(q.livelinessLease.value.nanos))], ':')
  {
    HistoryWrittenOut(q.history);
    PairWrittenOut(SecsField(q.deadline), NanosField(q.deadline));
    PairWrittenOut(SecsField(q.lifespan), NanosField(q.lifespan));
    LivelinessWrittenOut(q.liveliness, q.livelinessLease);
  }

  lemma HistoryWrittenOut(h: History)
    ensures Join([HistoryField(h), DepthField(h)], ',') == if h.KeepAll? then "2,0" else "," + Dec(h.depth)
  {
    PairWrittenOut(HistoryField(h), DepthField(h));
    assert "2" + "," + "0" == "2,0" && Dec(0) == "0";
  }

  lemma LivelinessWrittenOut(l: Liveliness, d: Option<Duration>)
    ensures Join([LivelinessField(l), SecsField(d), NanosField(d)], ',') ==
              (if l == ManualByTopic then "3," else ",")
              + (if d.None? then "," else Dec(d.value.secs) + "," + Dec(d.value.nanos))
  {
    var lease := Join([SecsField(d), NanosField(d)], ',');
    PairWrittenOut(SecsField(d), NanosField(d));
    assert [LivelinessField(l), SecsField(d), NanosField(d)][1..] == [SecsField(d), NanosField(d)];
    assert "3" + "," == "3," && "" + "," == ",";
  }

  lemma PairWrittenOut(a: string, b: string)
    ensures Join([a, b], ',') == a + "," + b
    ensures a == "" && b == "" ==> Join([a, b], ',') == ","
    ensures a == "" ==> Join([a, b], ',') == "," + b
  {
    assert [a, b][1..] == [b];
  }

  lemma Assembled(groups: seq<string>, q: QosProfile)
    requires |groups| == 6
    requires ParseReliability(groups[0]) == Some(q.reliability) && ParseDurability(groups[1]) == Some(q.durability)
    requires ParseHistoryGroup(groups[2]) == Ok(q.history)
    requires ParsePair(groups[3]) == Ok(q.deadline) && ParsePair(groups[4]) == Ok(q.lifespan)
    requires ParseLivelinessGroup(groups[5]) == Ok((q.liveliness, q.livelinessLease))
    ensures DecodeGroups(groups) == Ok(q)
  {
  }

  /** Defaults may be written as well as left out. */
  lemma DecodeExplicit(q: QosProfile, groups: seq<string>)
    requires Valid(q) && |groups| == 6
    requires groups[0] == (if q.reliability == Reliable then "1" else "2")
    requires groups[1] == (if q.durability == TransientLocal then "1" else "2")
    requires groups[2] == Join([if q.history.KeepLast? then "1" else "2", DepthField(q.history)], ',')
    requires groups[3] == Join([SecsField(q.deadline), NanosField(q.deadline)], ',')
    requires groups[4] == Join([SecsField(q.lifespan), NanosField(q.lifespan)], ',')
    requires groups[5] == Join([if q.liveliness == Automatic then "1" else "3",
                                SecsField(q.livelinessLease), NanosField(q.livelinessLease)], ',')
    ensures DecodeGroups(groups) == Ok(q)
  {
    assert ParseReliability(groups[0]) == Some(q.reliability) && ParseDurability(groups[1]) == Some(q.durability);
    assert ParseHistoryGroup(groups[2]) == Ok(q.history) by { ExplicitHistory(q.history); }
    assert ParsePair(groups[3]) == Ok(q.deadline) by { ParsePairBack(q.deadline); }
    assert ParsePair(groups[4]) == Ok(q.lifespan) by { ParsePairBack(q.lifespan); }
    assert ParseLivelinessGroup(groups[5]) == Ok((q.liveliness, q.livelinessLease)) by {
      ExplicitLiveliness(q.liveliness, q.livelinessLease);
    }
    Assembled(groups, q);
  }

  lemma ExplicitHistory(h: History)
    requires h.KeepLast? ==> h.depth <= U64_MAX
    ensures ParseHistoryGroup(Join([if h.KeepLast? then "1" else "2", DepthField(h)], ',')) == Ok(h)
  {
    var code := if h.KeepLast? then "1" else "2";
    assert Free(code, ',');
    SplitOncePair(code, DepthField(h));
    ParseUnsignedDec(if h.KeepLast? then h.depth else 0, U64_MAX);
  }

  lemma ExplicitLiveliness(l: Liveliness, d: Option<Duration>)
    requires d.Some? ==> ValidDuration(d.value)
    ensures ParseLivelinessGroup(Join([if l == Automatic then "1" else "3", SecsField(d), NanosField(d)], ',')) == Ok((l, d))
  {
    var code := if l == Automatic then "1" else "3";
    assert Free(code, ',');
    DurationFieldsFree(d);
    SplitThreeBack(code, SecsField(d), NanosField(d));
    ParseDurationBack(d);
  }

  lemma DecodedParts(groups: seq<string>)
    ensures var r := DecodeGroups(groups);
            r.Ok? ==>
              && |groups| == 6
              && ParseReliability(groups[0]) == Some(r.value.reliability)
              && ParseDurability(groups[1]) == Some(r.value.durability)
              && ParseHistoryGroup(groups[2]) == Ok(r.value.history)
              && ParseLivelinessGroup(groups[5]) == Ok((r.value.liveliness, r.value.livelinessLease))
  {
  }

  lemma HistoryCodes(group: string)
    ensures var r := ParseHistoryGroup(group);
            r.Ok? ==>
              && SplitOnce(group, ',').Some?
              && if r.value.KeepLast? then SplitOnce(group, ',').value.0 in ["", "1"] else SplitOnce(group, ',').value.0 == "2"
  {
  }

  lemma LivelinessCodes(group: string)
    ensures var r := ParseLivelinessGroup(group);
            r.Ok? ==> if r.value.0 == Automatic then SplitThree(group).0 in ["", "1"] else SplitThree(group).0 == "3"
  {
  }

  /** Only these codes are accepted, in exactly six groups, and with these meanings. */
  lemma DecodedCodes(s: string)
    ensures DecodeQos(s).Ok? ==>
              var (q, g) := (DecodeQos(s).value, Split(s, ':'));
              && |g| == 6 && SplitOnce(g[2], ',').Some?
              && (if q.reliability == Reliable then g[0] in ["", "1"] else g[0] == "2")
              && (if q.durability == Volatile then g[1] in ["", "2"] else g[1] == "1")
              && (if q.history.KeepLast? then SplitOnce(g[2], ',').value.0 in ["", "1"]
                  else SplitOnce(g[2], ',').value.0 == "2")
              && (if q.liveliness == Automatic then SplitThree(g[5]).0 in ["", "1"] else SplitThree(g[5]).0 == "3")
  {
    var g := Split(s, ':');
    DecodedParts(g);
    if DecodeQos(s).Ok? {
      HistoryCodes(g[2]);
      LivelinessCodes(g[5]);
    }
  }

  /** A missing depth is zero; half a duration is malformed. */
  lemma MissingFields(n: nat)
    ensures ParseHistoryGroup(",") == Ok(KeepLast(0)) && ParseHistoryGroup("1,") == Ok(KeepLast(0))
    ensures ParseHistoryGroup("") == Malformed
    ensures ParseDuration("", "") == Ok(None)
    ensures ParseDuration("", Dec(n)) == Malformed && ParseDuration(Dec(n), "") == Malformed
  {
    assert SplitOnce(",", ',') == Some(("", ""));
    SplitOncePair("1", "");
    PairWrittenOut("1", "");
    assert "1" + "," + "" == "1,";
  }

  /** Whole seconds in the nanoseconds are carried; what does not fit then is a panic. */
  lemma DurationCarries(secs: nat, nanos: nat)
    requires secs <= U64_MAX && nanos <= U32_MAX
    ensures ParseDuration(Dec(secs), Dec(nanos)) ==
              if secs + nanos / 1_000_000_000 <= U64_MAX
              then Ok(Some(Duration(secs + nanos / 1_000_000_000, nanos % 1_000_000_000)))
              else Panics
  {
    ParseUnsignedDec(secs, U64_MAX);
    ParseUnsignedDec(nanos, U32_MAX);
    assert ParseDuration(Dec(secs), Dec(nanos)) == Carried(NewDuration(secs, nanos));
  }

  function Carried(d: Decoded<Duration>): Decoded<Option<Duration>> {
    match d
    case Ok(v) => Ok(Some(v))
    case Malformed => Malformed
    case Panics => Panics
  }
}
