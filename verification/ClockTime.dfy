/** Instants and the ticks of a clock, from src/type/timestamp.cpp: a conversion gives the rounded value
    exactly when 64 bits hold it, and nothing on the way overflows. */
module ClockTime {
  import opened Wrappers
  import opened Timestamps

  const MAX64: int := 0x7FFF_FFFF_FFFF_FFFF
  const MIN64: int := -0x8000_0000_0000_0000

  predicate Fits(x: int) {
    MIN64 <= x <= MAX64
  }

  /** A clock of so many ticks a second, each of whole nanoseconds. */
  predicate IsRate(rate: int, tick: int) {
    rate > 0 && tick > 0 && rate * tick == SECOND
  }

  function FloorDiv(a: int, b: int): int
    requires b > 0
  {
    a / b
  }

  function TruncDiv(a: int, b: int): int
    requires b > 0
  {
    if a >= 0 then a / b else -(-a / b)
  }

  /** with_the_same_sign() */
  function SameSign(seconds: int, subseconds: int): (int, int) {
    if seconds < 0 && subseconds > 0 then (seconds + 1, subseconds - SECOND)
    else if seconds > 0 && subseconds < 0 then (seconds - 1, subseconds + SECOND)
    else (seconds, subseconds)
  }

  /** in_clock_duration() */
  function InClock(seconds: int, subseconds: int, rate: int): Option<int>
    requires rate > 0
  {
    if seconds > TruncDiv(MAX64, rate) || seconds < TruncDiv(MIN64, rate) then None
    else
      var whole := seconds * rate;
      if whole > 0 && subseconds > MAX64 - whole then None
      else if whole < 0 && subseconds < MIN64 - whole then None
      else Some(whole + subseconds)
  }

  /** timestamp::to_time_point(), of an instant */
  function ToTimePoint(seconds: int, fraction: int, rate: int, tick: int): Option<int>
    requires IsRate(rate, tick)
  {
    var same := SameSign(seconds, fraction);
    InClock(same.0, FloorDiv(same.1, tick), rate)
  }

  /** timestamp::duration_since(), of the difference of two instants */
  function DurationSince(seconds: int, subseconds: int, rate: int, tick: int): Option<int>
    requires IsRate(rate, tick)
  {
    var same := SameSign(seconds, subseconds);
    InClock(same.0, TruncDiv(same.1, tick), rate)
  }

  /** The seconds and fraction timestamp::from_time_point() takes from ticks. */
  function FromTimePoint(ticks: int, rate: int, tick: int): (int, int)
    requires IsRate(rate, tick)
  {
    var whole := TruncDiv(ticks, rate);
    var fraction := ticks - whole * rate;
    if fraction < 0 then (whole - 1, (fraction + rate) * tick) else (whole, fraction * tick)
  }

  // ---- the sum is the rounded value ----

  lemma FloorOfSum(seconds: int, sub: int, rate: int, tick: int)
    requires IsRate(rate, tick)
    ensures FloorDiv(seconds * SECOND + sub, tick) == seconds * rate + FloorDiv(sub, tick)
  {
    var q, r := sub / tick, sub % tick;
    assert seconds * SECOND == seconds * rate * tick by {
      assert seconds * (rate * tick) == seconds * rate * tick;
    }
    assert seconds * SECOND + sub == tick * (seconds * rate + q) + r by {
      assert tick * (seconds * rate + q) == seconds * rate * tick + tick * q;
    }
    DivisionUnique(seconds * SECOND + sub, tick, seconds * rate + q, r);
  }

  lemma DivisionUnique(n: int, d: int, q: int, r: int)
    requires d > 0 && n == d * q + r && 0 <= r < d
    ensures n / d == q
  {
    Decimal.DivisionIs(n, d, q, r);
  }

  lemma TruncOfSum(seconds: int, sub: int, rate: int, tick: int)
    requires IsRate(rate, tick) && -SECOND < sub < SECOND
    requires (seconds > 0 ==> sub >= 0) && (seconds < 0 ==> sub <= 0)
    ensures TruncDiv(seconds * SECOND + sub, tick) == seconds * rate + TruncDiv(sub, tick)
  {
    if seconds * SECOND + sub >= 0 {
      FloorOfSum(seconds, sub, rate, tick);
    } else {
      FloorOfSum(-seconds, -sub, rate, tick);
      assert -seconds * rate == -(seconds * rate);
    }
  }

  lemma SameSignKeeps(seconds: int, sub: int)
    requires -SECOND < sub < SECOND
    ensures var s := SameSign(seconds, sub);
      && s.0 * SECOND + s.1 == seconds * SECOND + sub && -SECOND < s.1 < SECOND
      && (s.0 > 0 ==> s.1 >= 0) && (s.0 < 0 ==> s.1 <= 0)
  {
  }

  /** What in_clock_duration() computes before it has the sum: the seconds in ticks, and what is left beyond
      them on their side of zero. */
  predicate SumFits(seconds: int, rate: int)
    requires rate > 0
  {
    TruncDiv(MIN64, rate) <= seconds <= TruncDiv(MAX64, rate) ==>
      var whole := seconds * rate;
      && Fits(whole)
      && (whole > 0 ==> Fits(MAX64 - whole))
      && (whole < 0 ==> Fits(MIN64 - whole))
  }

  /** All that a conversion of seconds and subseconds computes, the moved second and the ticks of the
      subseconds among it. */
  predicate TermsFit(seconds: int, subseconds: int, rate: int)
    requires rate > 0
  {
    var same := SameSign(seconds, subseconds);
    Fits(seconds) && Fits(subseconds) && Fits(same.0) && Fits(same.1) && SumFits(same.0, rate)
  }

  lemma SumsFit(seconds: int, rate: int)
    requires rate > 0
    ensures SumFits(seconds, rate)
  {
    Bounded(seconds, rate, MAX64);
    Bounded(-seconds, rate, -MIN64);
    assert -seconds * rate == -(seconds * rate);
  }

  lemma AllTermsFit(seconds: int, subseconds: int, rate: int)
    requires rate > 0 && Fits(seconds - 1) && Fits(seconds + 1) && -SECOND < subseconds < SECOND
    ensures TermsFit(seconds, subseconds, rate)
  {
    hide SumFits;
    SumsFit(SameSign(seconds, subseconds).0, rate);
  }

  /** Terms of one sign are summed exactly when 64 bits hold the sum, and nothing on the way overflows,
      whether the sum is given or refused. */
  lemma InClockIsExact(seconds: int, sub: int, rate: int)
    requires 0 < rate <= SECOND && -SECOND <= sub <= SECOND
    requires (seconds > 0 ==> sub >= 0) && (seconds < 0 ==> sub <= 0)
    ensures InClock(seconds, sub, rate) == if Fits(seconds * rate + sub) then Some(seconds * rate + sub) else None
    ensures TruncDiv(MIN64, rate) <= seconds <= TruncDiv(MAX64, rate) ==>
              && Fits(seconds * rate)
              && (seconds > 0 ==> Fits(MAX64 - seconds * rate))
              && (seconds < 0 ==> Fits(MIN64 - seconds * rate))
  {
    Bounded(seconds, rate, MAX64);
    Bounded(-seconds, rate, -MIN64);
    assert -seconds * rate == -(seconds * rate);
    SignOfProduct(seconds, rate);
  }

  lemma SignOfProduct(s: int, rate: int)
    requires rate > 0
    ensures (s > 0 ==> s * rate > 0) && (s < 0 ==> s * rate < 0) && (s == 0 ==> s * rate == 0)
  {
  }

  lemma Bounded(s: int, rate: int, most: int)
    requires rate > 0 && most > 0
    ensures s <= most / rate <==> s * rate <= most
  {
    var q := most / rate;
    assert most == rate * q + most % rate;
    Decimal.AtLeast(rate, s - q);
    assert rate * (s - q) == s * rate - rate * q;
    Decimal.AtLeast(rate, q - s);
    assert rate * (q - s) == rate * q - s * rate;
  }

  /** The time point of an instant is its floor in ticks, given exactly when 64 bits hold that. */
  lemma TimePointIsFloor(seconds: int, fraction: int, rate: int, tick: int)
    requires IsRate(rate, tick) && 0 <= fraction < SECOND
    ensures var x := FloorDiv(seconds * SECOND + fraction, tick);
      ToTimePoint(seconds, fraction, rate, tick) == if Fits(x) then Some(x) else None
  {
    var s := SameSign(seconds, fraction);
    SameSignKeeps(seconds, fraction);
    FloorOfSum(s.0, s.1, rate, tick);
    RateBound(rate, tick);
    FloorBound(s.1, tick);
    hide FloorDiv, InClock, SameSign;
    InClockIsExact(s.0, FloorDiv(s.1, tick), rate);
  }

  lemma RateBound(rate: int, tick: int)
    requires IsRate(rate, tick)
    ensures rate <= SECOND && tick <= SECOND
  {
    assert rate * tick >= rate by {
      Decimal.AtLeast(rate, tick);
    }
    assert tick * rate >= tick by {
      Decimal.AtLeast(tick, rate);
    }
  }

  lemma FloorBound(sub: int, tick: int)
    requires tick > 0 && -SECOND < sub < SECOND
    ensures -SECOND <= FloorDiv(sub, tick) <= SECOND
    ensures (sub >= 0 ==> FloorDiv(sub, tick) >= 0) && (sub <= 0 ==> FloorDiv(sub, tick) <= 0)
  {
    var q := sub / tick;
    assert sub == tick * q + sub % tick;
    Decimal.AtLeast(tick, q);
    Decimal.AtLeast(tick, q + 1);
    assert tick * (q + 1) == tick * q + tick;
    if q > 0 {
      assert tick * q >= q by {
        Decimal.AtLeast(q, tick);
        assert q * tick == tick * q;
      }
    } else if q < -1 {
      assert tick * (q + 1) <= q + 1 by {
        Decimal.AtLeast(-(q + 1), tick);
        assert -(q + 1) * tick == -(tick * (q + 1));
      }
    }
  }

  /** A duration between instants is truncated toward zero, given exactly when 64 bits hold it. */
  lemma DurationIsTruncated(seconds: int, sub: int, rate: int, tick: int)
    requires IsRate(rate, tick) && -SECOND < sub < SECOND
    ensures var x := TruncDiv(seconds * SECOND + sub, tick);
      DurationSince(seconds, sub, rate, tick) == if Fits(x) then Some(x) else None
  {
    var s := SameSign(seconds, sub);
    SameSignKeeps(seconds, sub);
    TruncOfSum(s.0, s.1, rate, tick);
    RateBound(rate, tick);
    FloorBound(s.1, tick);
    FloorBound(-s.1, tick);
    TruncIsFloor(s.1, tick);
    hide FloorDiv, TruncDiv, InClock, SameSign;
    InClockIsExact(s.0, TruncDiv(s.1, tick), rate);
  }

  lemma TruncIsFloor(a: int, b: int)
    requires b > 0
    ensures TruncDiv(a, b) == if a >= 0 then FloorDiv(a, b) else -FloorDiv(-a, b)
  {
  }

  /** Ticks become an instant with a fraction of a second, and that instant is at those ticks again;
      the whole seconds in ticks fit, as their floor need not. */
  lemma TicksReadBack(ticks: int, rate: int, tick: int)
    requires IsRate(rate, tick) && Fits(ticks)
    ensures var (seconds, fraction) := FromTimePoint(ticks, rate, tick);
      0 <= fraction < SECOND && ToTimePoint(seconds, fraction, rate, tick) == Some(ticks)
    ensures Fits(TruncDiv(ticks, rate) * rate) && Fits(ticks - TruncDiv(ticks, rate) * rate)
  {
    var (seconds, fraction) := FromTimePoint(ticks, rate, tick);
    var whole := TruncDiv(ticks, rate);
    var part := if ticks - whole * rate < 0 then ticks - whole * rate + rate else ticks - whole * rate;
    TruncRemainder(ticks, rate);
    assert 0 <= part < rate && ticks == seconds * rate + part && fraction == part * tick;
    Scaled(part, rate, tick);
    TimePointIsFloor(seconds, fraction, rate, tick);
    FloorOfSum(seconds, fraction, rate, tick);
    DivisionUnique(fraction, tick, part, 0);
  }

  lemma Scaled(part: int, rate: int, tick: int)
    requires IsRate(rate, tick) && 0 <= part < rate
    ensures 0 <= part * tick < SECOND
  {
    Decimal.AtLeast(tick, rate - part);
    assert tick * (rate - part) == rate * tick - part * tick;
  }

  lemma TruncRemainder(a: int, b: int)
    requires b > 0
    ensures -b < a - TruncDiv(a, b) * b < b
    ensures if a >= 0 then 0 <= TruncDiv(a, b) * b <= a else a <= TruncDiv(a, b) * b <= 0
    ensures (TruncDiv(a, b) - 1) * b == TruncDiv(a, b) * b - b
  {
    var whole := TruncDiv(a, b);
    if a >= 0 {
      Remainder(a, b);
      assert whole == a / b;
    } else {
      Remainder(-a, b);
      assert whole == -(-a / b);
      Opposite(-a / b, b);
    }
    hide TruncDiv;
    OneLess(whole, b);
  }

  lemma Remainder(a: int, b: int)
    requires a >= 0 && b > 0
    ensures 0 <= a / b * b <= a < a / b * b + b
  {
    var q := a / b;
    assert a == b * q + a % b && q >= 0;
    Decimal.AtLeast(b, q);
  }

  lemma Opposite(q: int, b: int)
    ensures -q * b == -(q * b)
  {
  }

  lemma OneLess(q: int, b: int)
    ensures (q - 1) * b == q * b - b
  {
  }
}
