/** Arithmetic on timestamps, from src/type/timestamp.cpp: a timestamp stands for one instant, and moving
    it, comparing it and measuring from it are exact. */
module Instants {
  import opened Wrappers
  import opened Timestamps
  import opened Calendar
  import opened ClockTime
  import Decimal

  const DAY: int := 86_400
  const FIRST_SECOND: int := FIRST_DAY * DAY
  const END_SECOND: int := END_DAY * DAY

  /** timestamp::local_seconds() */
  function LocalSeconds(t: Stamp): int {
    DayNumber(t.year, t.month, t.day) * DAY + t.nanoseconds / SECOND
  }

  /** timestamp::instant() */
  function Instant(t: Stamp): (int, int) {
    (LocalSeconds(t) - t.offset * 60, Subseconds(t))
  }

  /** The nanoseconds from the start of 1970, in UTC, to the instant. */
  function Nanoseconds(t: Stamp): int {
    (LocalSeconds(t) - t.offset * 60) * SECOND + Subseconds(t)
  }

  /** timestamp::set_local(), of a timestamp with an offset */
  function SetLocal(offset: int, local: int, fraction: int): Stamp
    requires FIRST_SECOND <= local < END_SECOND
  {
    var days := local / DAY;
    var (year, month, day) := DateOf(days);
    Stamp(year, month, day, (local - days * DAY) * SECOND + fraction, offset)
  }

  /** timestamp::add() */
  function Add(t: Stamp, duration: int): Option<Stamp> {
    if duration < FIRST_SECOND - LocalSeconds(t) || duration >= END_SECOND - LocalSeconds(t) then None
    else Some(SetLocal(t.offset, LocalSeconds(t) + duration, Subseconds(t)))
  }

  /** timestamp::subtract() */
  function Subtract(t: Stamp, duration: int): Option<Stamp> {
    if duration == MIN64 then None else Add(t, -duration)
  }

  /** timestamp::from_time_point() */
  function AtTimePoint(ticks: int, rate: int, tick: int): Option<Stamp>
    requires IsRate(rate, tick)
  {
    var (seconds, fraction) := FromTimePoint(ticks, rate, tick);
    if seconds < FIRST_SECOND || seconds >= END_SECOND then None
    else Some(SetLocal(0, seconds, fraction))
  }

  /** timestamp::to_time_point() */
  function TimePoint(t: Stamp, rate: int, tick: int): Option<int>
    requires IsRate(rate, tick)
  {
    ToTimePoint(Instant(t).0, Instant(t).1, rate, tick)
  }

  /** timestamp::duration_since() */
  function Since(t: Stamp, other: Stamp, rate: int, tick: int): Option<int>
    requires IsRate(rate, tick)
  {
    DurationSince(Instant(t).0 - Instant(other).0, Instant(t).1 - Instant(other).1, rate, tick)
  }

  /** The order of timestamps, that of their instants' seconds and then of their fractions. */
  predicate Before(t: Stamp, other: Stamp) {
    Instant(t).0 < Instant(other).0 || (Instant(t).0 == Instant(other).0 && Instant(t).1 < Instant(other).1)
  }

  // ---- a date and time is one second ----

  lemma Rejoined(seconds: int, fraction: int)
    requires 0 <= fraction < SECOND
    ensures (seconds * SECOND + fraction) / SECOND == seconds && (seconds * SECOND + fraction) % SECOND == fraction
  {
    Decimal.DivisionIs(seconds * SECOND + fraction, SECOND, seconds, fraction);
  }

  /** What is set is a timestamp at just that second and fraction. */
  lemma SetLocalIs(offset: int, local: int, fraction: int)
    requires InRange(offset) && FIRST_SECOND <= local < END_SECOND && 0 <= fraction < SECOND
    ensures var r := SetLocal(offset, local, fraction);
      IsStamp(r) && r.offset == offset && LocalSeconds(r) == local && Subseconds(r) == fraction
  {
    DayReadsBack(local / DAY);
    Rejoined(local - local / DAY * DAY, fraction);
    hide IsDate, DayNumber, DateOf;
  }

  /** A timestamp is the one its own second and fraction set. */
  lemma SetAgain(t: Stamp)
    requires IsStamp(t)
    ensures FIRST_SECOND <= LocalSeconds(t) < END_SECOND && 0 <= Subseconds(t) < SECOND
    ensures SetLocal(t.offset, LocalSeconds(t), Subseconds(t)) == t
  {
    var days := DayNumber(t.year, t.month, t.day);
    DateReadsBack(t.year, t.month, t.day);
    hide IsDate, DayNumber, DateOf;
    var second := t.nanoseconds / SECOND;
    assert 0 <= second < DAY && t.nanoseconds == second * SECOND + Subseconds(t);
    Decimal.DivisionIs(LocalSeconds(t), DAY, days, second);
  }

  // ---- adding ----

  /** Adding moves the local second and keeps the offset and the fraction; it is refused exactly when the
      second would leave the years 0 to 9999. */
  lemma AddMovesLocal(t: Stamp, duration: int)
    requires IsStamp(t)
    ensures Add(t, duration).Some? <==> FIRST_SECOND <= LocalSeconds(t) + duration < END_SECOND
    ensures Add(t, duration).Some? ==>
      var r := Add(t, duration).value;
      && IsStamp(r) && r.offset == t.offset && Subseconds(r) == Subseconds(t)
      && LocalSeconds(r) == LocalSeconds(t) + duration
  {
    hide *;
    AddIs(t, duration);
    SetAgain(t);
    OffsetInRange(t);
    if FIRST_SECOND <= LocalSeconds(t) + duration < END_SECOND {
      SetLocalIs(t.offset, LocalSeconds(t) + duration, Subseconds(t));
    }
  }

  lemma AddIs(t: Stamp, duration: int)
    ensures Add(t, duration) == if FIRST_SECOND <= LocalSeconds(t) + duration < END_SECOND
                                then Some(SetLocal(t.offset, LocalSeconds(t) + duration, Subseconds(t))) else None
  {
    hide LocalSeconds, Subseconds, SetLocal;
  }

  lemma OffsetInRange(t: Stamp)
    requires IsStamp(t)
    ensures InRange(t.offset)
  {
  }

  /** Adding moves the instant by exactly the duration, or is refused. No number on the way needs more
      than 64 bits. */
  lemma AddMoves(t: Stamp, duration: int)
    requires IsStamp(t)
    ensures Add(t, duration).Some? <==> FIRST_SECOND <= LocalSeconds(t) + duration < END_SECOND
    ensures Add(t, duration).Some? ==>
      var r := Add(t, duration).value;
      IsStamp(r) && r.offset == t.offset && Nanoseconds(r) == Nanoseconds(t) + duration * SECOND
    ensures Fits(FIRST_SECOND - LocalSeconds(t)) && Fits(END_SECOND - LocalSeconds(t))
    ensures Add(t, duration).Some? ==> Fits(LocalSeconds(t) + duration) && Fits(duration)
  {
    SetAgain(t);
    AddMovesLocal(t, duration);
    hide IsStamp, LocalSeconds, Subseconds, Add;
  }

  /** Adding in two steps is adding the sum. */
  lemma AddTwice(t: Stamp, first: int, second: int)
    requires IsStamp(t) && Add(t, first).Some?
    ensures Add(Add(t, first).value, second) == Add(t, first + second)
  {
    hide *;
    AddMovesLocal(t, first);
    SameAdd(Add(t, first).value, second, t, first + second);
  }

  lemma SameAdd(t: Stamp, duration: int, other: Stamp, more: int)
    requires t.offset == other.offset && LocalSeconds(t) + duration == LocalSeconds(other) + more
    requires Subseconds(t) == Subseconds(other)
    ensures Add(t, duration) == Add(other, more)
  {
    hide LocalSeconds, Subseconds, SetLocal;
  }

  /** Taking away what was added gives the same timestamp again. */
  lemma SubtractUndoesAdd(t: Stamp, duration: int)
    requires IsStamp(t) && Add(t, duration).Some?
    ensures Subtract(Add(t, duration).value, duration) == Some(t)
  {
    hide IsStamp, LocalSeconds, SetLocal, Nanoseconds, Subseconds, SetLocal;
    AddMoves(t, duration);
    AddTwice(t, duration, -duration);
    SetAgain(t);
  }

  // ---- measuring and comparing ----

  lemma InstantInRange(t: Stamp)
    requires IsStamp(t)
    ensures 0 <= Instant(t).1 < SECOND
    ensures FIRST_SECOND - DAY <= Instant(t).0 < END_SECOND + DAY
  {
    SetAgain(t);
    OffsetInRange(t);
    hide IsStamp, LocalSeconds;
  }

  /** The order of timestamps is that of the instants they stand for. */
  lemma OrderIsOfInstants(t: Stamp, other: Stamp)
    requires IsStamp(t) && IsStamp(other)
    ensures Before(t, other) <==> Nanoseconds(t) < Nanoseconds(other)
    ensures Instant(t) == Instant(other) <==> Nanoseconds(t) == Nanoseconds(other)
  {
    InstantInRange(t);
    InstantInRange(other);
    hide IsStamp, LocalSeconds, Subseconds;
  }

  /** A timestamp is at the tick its instant falls in, given exactly when 64 bits hold that tick; no number
      on the way needs more. */
  lemma TimePointExactly(t: Stamp, rate: int, tick: int)
    requires IsStamp(t) && IsRate(rate, tick)
    ensures var x := FloorDiv(Nanoseconds(t), tick); TimePoint(t, rate, tick) == if Fits(x) then Some(x) else None
    ensures Fits(LocalSeconds(t)) && TermsFit(Instant(t).0, Instant(t).1, rate)
  {
    InstantInRange(t);
    SetAgain(t);
    TimePointIsFloor(Instant(t).0, Instant(t).1, rate, tick);
    hide TermsFit;
    AllTermsFit(Instant(t).0, Instant(t).1, rate);
    hide IsStamp, LocalSeconds, Subseconds, ToTimePoint, FloorDiv;
  }

  /** The time between two timestamps is the whole ticks between their instants, toward zero, given
      exactly when 64 bits hold them; no number on the way needs more. */
  lemma SinceExactly(t: Stamp, other: Stamp, rate: int, tick: int)
    requires IsStamp(t) && IsStamp(other) && IsRate(rate, tick)
    ensures var x := TruncDiv(Nanoseconds(t) - Nanoseconds(other), tick);
      Since(t, other, rate, tick) == if Fits(x) then Some(x) else None
    ensures TermsFit(Instant(t).0 - Instant(other).0, Instant(t).1 - Instant(other).1, rate)
  {
    InstantInRange(t);
    InstantInRange(other);
    var seconds, sub := Instant(t).0 - Instant(other).0, Instant(t).1 - Instant(other).1;
    DurationIsTruncated(seconds, sub, rate, tick);
    hide TermsFit;
    AllTermsFit(seconds, sub, rate);
    hide IsStamp, LocalSeconds, Subseconds, DurationSince, TruncDiv;
    assert seconds * SECOND + sub == Nanoseconds(t) - Nanoseconds(other);
  }

  /** The time since a timestamp of the one it was moved to is what was added, in ticks. */
  lemma SinceIsWhatWasAdded(t: Stamp, duration: int, rate: int, tick: int)
    requires IsStamp(t) && IsRate(rate, tick) && Add(t, duration).Some?
    ensures Since(Add(t, duration).value, t, rate, tick)
            == if Fits(duration * rate) then Some(duration * rate) else None
  {
    hide IsStamp, Add, Since, Nanoseconds, TruncDiv, IsRate, Fits;
    AddMoves(t, duration);
    SinceExactly(Add(t, duration).value, t, rate, tick);
    TicksOfSeconds(duration, rate, tick);
  }

  lemma TicksOfSeconds(duration: int, rate: int, tick: int)
    requires IsRate(rate, tick)
    ensures TruncDiv(duration * SECOND, tick) == duration * rate
  {
    TruncOfSum(duration, 0, rate, tick);
  }

  /** A time point of the years 0 to 9999, and no other, becomes a timestamp, which is at that time point
      again. */
  lemma TimePointReadsBack(ticks: int, rate: int, tick: int)
    requires IsRate(rate, tick) && Fits(ticks)
    ensures AtTimePoint(ticks, rate, tick).Some? <==> FIRST_SECOND * rate <= ticks < END_SECOND * rate
    ensures AtTimePoint(ticks, rate, tick).Some? ==>
      var t := AtTimePoint(ticks, rate, tick).value;
      && IsStamp(t) && t.offset == 0 && Nanoseconds(t) == ticks * tick
      && TimePoint(t, rate, tick) == Some(ticks)
  {
    var (seconds, fraction) := FromTimePoint(ticks, rate, tick);
    TicksReadBack(ticks, rate, tick);
    TicksAreNanoseconds(ticks, rate, tick);
    SecondsBound(seconds, ticks, rate, FIRST_SECOND);
    SecondsBound(seconds, ticks, rate, END_SECOND);
    if AtTimePoint(ticks, rate, tick).Some? {
      SetLocalIs(0, seconds, fraction);
    }
    hide IsStamp, LocalSeconds, Subseconds, SetLocal, FromTimePoint, ToTimePoint, IsRate;
  }

  lemma TicksAreNanoseconds(ticks: int, rate: int, tick: int)
    requires IsRate(rate, tick)
    ensures var (seconds, fraction) := FromTimePoint(ticks, rate, tick);
      && seconds * SECOND + fraction == ticks * tick
      && seconds * rate <= ticks < seconds * rate + rate
  {
    var (seconds, fraction) := FromTimePoint(ticks, rate, tick);
    TruncRemainder(ticks, rate);
    var part := ticks - seconds * rate;
    hide TruncDiv;
    assert 0 <= part < rate && fraction == part * tick;
    assert ticks * tick == seconds * rate * tick + part * tick;
    assert seconds * rate * tick == seconds * (rate * tick);
  }

  lemma SecondsBound(seconds: int, ticks: int, rate: int, bound: int)
    requires rate > 0 && seconds * rate <= ticks < seconds * rate + rate
    ensures seconds < bound <==> ticks < bound * rate
  {
    Decimal.AtLeast(rate, bound - seconds);
    assert rate * (bound - seconds) == bound * rate - seconds * rate;
  }
}
