/** Times and durations on the wire: a signed second and an unsigned nanosecond, and the ticks of
    RTPS. */
module WireTime {
  import opened Basics

  const BILLION := 1_000_000_000

  /** Rust's `/` and `%`: towards zero, with the sign of the dividend. */
  function Quot(n: int): int {
    if n >= 0 then n / BILLION else -(-n / BILLION)
  }

  function Rem(n: int): int {
    n - Quot(n) * BILLION
  }

  /** The quotient is the floor, or one more for a negative fraction. */
  lemma QuotOrFloor(n: int)
    ensures Rem(n) >= 0 ==> Quot(n) == n / BILLION && Rem(n) == n % BILLION
    ensures Rem(n) < 0 ==> n < 0 && Quot(n) - 1 == n / BILLION && BILLION + Rem(n) == n % BILLION
  {
  }

  function Clamped(n: int): Int32 {
    if n > I32_MAX then I32_MAX else if n < I32_MIN then I32_MIN else n
  }

  /** `repr::Time`. */
  datatype Wire = Wire(sec: Int32, nanosec: UInt32)

  /** A conversion, or the arithmetic overflow that stops it. */
  datatype Outcome<+T> = Value(value: T) | Overflow

  /** `From<Time> for repr::Time`. The seconds saturate, but one less than the least of them is an
      overflow. */
  function ToWire(t: Int64): Outcome<Wire> {
    QuotOrFloor(t);
    if Rem(t) >= 0 then Value(Wire(Clamped(Quot(t)), Rem(t)))
    else
      var saturated := if Quot(t) >= I32_MIN then Quot(t) else I32_MIN;
      if saturated - 1 < I32_MIN then Overflow
      else Value(Wire(saturated - 1, BILLION + Rem(t)))
  }

  /** `From<repr::Time> for Time`; the result fits for every pair. */
  function FromWire(w: Wire): Int64 {
    w.sec * BILLION + w.nanosec
  }

  predicate SecondFits(t: Int64) {
    I32_MIN <= t / BILLION <= I32_MAX
  }

  /** A time survives the wire exactly if its second, rounded down, is an i32. */
  lemma TimeRoundTripIff(t: Int64)
    ensures ToWire(t).Value? && FromWire(ToWire(t).value) == t <==> SecondFits(t)
    ensures SecondFits(t) ==> ToWire(t) == Value(Wire(t / BILLION, t % BILLION))
  {
    QuotOrFloor(t);
  }

  /** The conversion stops exactly at times with a fraction that lie below the bottom second. */
  lemma OverflowIff(t: Int64)
    ensures ToWire(t).Overflow? <==> t < I32_MIN * BILLION && t % BILLION != 0
  {
    QuotOrFloor(t);
  }

  /** Seconds out of range saturate, with the fraction kept; below the range that leaves the whole
      seconds. */
  lemma TimeSaturates(t: Int64)
    ensures t / BILLION > I32_MAX ==> ToWire(t) == Value(Wire(I32_MAX, t % BILLION))
    ensures t / BILLION < I32_MIN && t % BILLION == 0 ==> ToWire(t) == Value(Wire(I32_MIN, 0))
  {
    QuotOrFloor(t);
  }

  /** A pair means its seconds and its nanoseconds together, whether or not the latter carry. */
  lemma WireMeans(w: Wire)
    ensures FromWire(w) == FromWire(Wire(w.sec, 0)) + w.nanosec && FromWire(Wire(w.sec, 0)) == 1_000_000_000 * w.sec
  {
  }

  /** A pair comes back exactly if its fraction is less than a second: with `TimeRoundTripIff`,
      the two conversions are a bijection. */
  lemma WireRoundTripIff(w: Wire)
    ensures ToWire(FromWire(w)) == Value(w) <==> w.nanosec < BILLION
    ensures w.nanosec < BILLION ==> SecondFits(FromWire(w))
  {
    var t := FromWire(w);
    QuotOrFloor(t);
    if w.nanosec < BILLION {
      assert t / BILLION == w.sec && t % BILLION == w.nanosec;
    }
  }

  predicate Earlier(a: Wire, b: Wire) {
    a.sec < b.sec || (a.sec == b.sec && a.nanosec < b.nanosec)
  }

  /** The wire keeps the order of times. */
  lemma WireKeepsOrder(t: Int64, u: Int64)
    requires SecondFits(t) && SecondFits(u)
    ensures t < u <==> Earlier(ToWire(t).value, ToWire(u).value)
  {
    TimeRoundTripIff(t);
    TimeRoundTripIff(u);
  }

  // ---------------------------------------------------------------------------------------
  // Durations

  /** `Duration::from_nanos`. */
  function DurationFromNanos(nanos: Int64): Wire {
    QuotOrFloor(nanos);
    if Rem(nanos) >= 0 then
      if Quot(nanos) > I32_MAX then Wire(I32_MAX, U32_MAX)
      else if Quot(nanos) <= I32_MIN then Wire(I32_MIN, 0)
      else Wire(Quot(nanos), Rem(nanos))
    else if Quot(nanos) <= I32_MIN then Wire(I32_MIN, 0)
    else Wire(Quot(nanos) + 1, BILLION + Rem(nanos))
  }

  /** `Duration::to_nanos`. */
  function DurationToNanos(d: Wire): Int64 {
    FromWire(d)
  }

  /** A duration comes back exactly if it is in range and is not a negative one with a fraction,
      or if it happens to be the value that overflow saturates to. */
  lemma DurationRoundTripIff(nanos: Int64)
    ensures DurationToNanos(DurationFromNanos(nanos)) == nanos <==>
              (&& SecondFits(nanos)
               && (nanos >= 0 || nanos % BILLION == 0))
              || nanos == I32_MAX * BILLION + U32_MAX
  {
    QuotOrFloor(nanos);
  }

  /** Above the range a duration is the largest pair there is, below it the smallest. */
  lemma DurationSaturates(nanos: Int64)
    ensures nanos / BILLION > I32_MAX ==> DurationFromNanos(nanos) == Wire(I32_MAX, U32_MAX)
    ensures nanos / BILLION < I32_MIN ==> DurationFromNanos(nanos) == Wire(I32_MIN, 0)
  {
    QuotOrFloor(nanos);
  }

  /** A negative duration with a fraction comes back two seconds too large. */
  lemma NegativeFractionIsOff(nanos: Int64)
    requires nanos < 0 && nanos % BILLION != 0 && SecondFits(nanos)
    ensures DurationToNanos(DurationFromNanos(nanos)) == nanos + 2 * BILLION
  {
    QuotOrFloor(nanos);
  }

  // ---------------------------------------------------------------------------------------
  // RTPS timestamps: ticks of 1 / 2^32 s

  datatype Stamp = Nanos(nanos: Int64) | Invalid | Infinite

  /** `TryFrom<Timestamp> for ROSTime`; every intermediate value fits its type. */
  function FromTicks(ticks: UInt64, invalid: UInt64, infinite: UInt64): Stamp {
    if ticks == invalid then Invalid
    else if ticks == infinite then Infinite
    else
      var seconds: UInt64 := ticks / TWO_32;
      var fracTicks: UInt64 := ticks - seconds * TWO_32;
      var product: UInt64 := fracTicks * BILLION;
      var fracNanos: UInt64 := product / TWO_32;
      Nanos(seconds * BILLION + fracNanos)
  }

  /** The two special timestamps are refused, each with its own error. */
  lemma SpecialTicks(ticks: UInt64, invalid: UInt64, infinite: UInt64)
    ensures FromTicks(ticks, invalid, infinite) == Invalid <==> ticks == invalid
    ensures FromTicks(ticks, invalid, infinite) == Infinite <==> ticks == infinite != invalid
  {
  }

  /** The result is the exact time, rounded down to a nanosecond. */
  lemma TicksAreFloor(ticks: UInt64, invalid: UInt64, infinite: UInt64)
    requires ticks != invalid && ticks != infinite
    ensures FromTicks(ticks, invalid, infinite) == Nanos(ticks * BILLION / TWO_32)
  {
    var seconds := ticks / TWO_32;
    var frac := ticks % TWO_32;
    assert ticks * BILLION == (seconds * BILLION) * TWO_32 + frac * BILLION;
  }

  /** A later timestamp never gives an earlier time. */
  lemma TicksMonotone(a: UInt64, b: UInt64, invalid: UInt64, infinite: UInt64)
    requires a <= b && FromTicks(a, invalid, infinite).Nanos? && FromTicks(b, invalid, infinite).Nanos?
    ensures FromTicks(a, invalid, infinite).nanos <= FromTicks(b, invalid, infinite).nanos
  {
    TicksAreFloor(a, invalid, infinite);
    TicksAreFloor(b, invalid, infinite);
    assert a * BILLION <= b * BILLION;
  }

  /** Ticks are finer than nanoseconds: every nanosecond of the range is the time of some tick. */
  lemma EveryNanosecondHasATick(n: nat) returns (ticks: UInt64)
    requires n < TWO_32 * BILLION
    ensures ticks * BILLION / TWO_32 == n
  {
    ticks := (n * TWO_32 + BILLION - 1) / BILLION;
  }
}
