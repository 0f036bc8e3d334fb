/** Axis scales over exact arithmetic: a round step that puts a few evenly spaced gridlines above zero. */
module NiceScale {

  datatype ValueScale = ValueScale(max: real, ticks: seq<real>)

  function Ceiling(x: real): (n: int)
    ensures n as real - 1.0 < x <= n as real
  {
    -((-x).Floor)
  }

  // ----- Powers of ten -----

  function PowerOfTen(e: int): (p: real)
    ensures p > 0.0
    decreases if e < 0 then -e else e
  {
    if e == 0 then 1.0 else if e > 0 then 10.0 * PowerOfTen(e - 1) else PowerOfTen(e + 1) / 10.0
  }

  lemma PowerSteps(e: int)
    ensures PowerOfTen(e + 1) == 10.0 * PowerOfTen(e)
  {
  }

  lemma {:induction false} PowersGrow(e: int, f: int)
    requires e < f
    ensures 10.0 * PowerOfTen(e) <= PowerOfTen(f)
    decreases f - e
  {
    PowerSteps(f - 1);
    if e + 1 < f {
      PowersGrow(e, f - 1);
    }
  }

  lemma {:induction false} WholePowers(e: nat)
    ensures PowerOfTen(e) == PowerOfTen(e).Floor as real
    decreases e
  {
    if e > 0 {
      WholePowers(e - 1);
      assert PowerOfTen(e) == (10 * PowerOfTen(e - 1).Floor) as real;
    }
  }

  /** The exponent of the leading decimal digit: the floor of the decimal logarithm. */
  function Exponent(x: real): (e: int)
    requires x > 0.0
    ensures PowerOfTen(e) <= x < PowerOfTen(e + 1)
    decreases if x < 1.0 then (1.0 / x).Floor else 0, x.Floor
  {
    if x < 1.0 then
      Inverse(x);
      PowerSteps(Exponent(10.0 * x) - 1);
      Exponent(10.0 * x) - 1
    else if x >= 10.0 then
      PowerSteps(Exponent(x / 10.0));
      PowerSteps(Exponent(x / 10.0) + 1);
      Exponent(x / 10.0) + 1
    else
      0
  }

  lemma Inverse(x: real)
    requires 0.0 < x < 1.0
    ensures (1.0 / x).Floor >= 1
    ensures 10.0 * x < 1.0 ==> (1.0 / (10.0 * x)).Floor < (1.0 / x).Floor
  {
    var y := 1.0 / x;
    assert y * x == 1.0;
    assert y > 1.0;
    if 10.0 * x < 1.0 {
      assert 1.0 / (10.0 * x) == y / 10.0;
    }
  }

  // ----- The step -----

  function Multipliers(integer: bool): seq<real> {
    if integer then [1.0, 2.0, 5.0, 10.0] else [1.0, 2.0, 2.5, 5.0, 10.0]
  }

  function Times(multiplier: real, magnitude: real): real {
    multiplier * magnitude
  }

  predicate Reaches(multiplier: real, magnitude: real, target: real) {
    multiplier * magnitude >= target
  }

  /** The first candidate whose multiple reaches the target, and 10 when there is none. */
  function FirstReaching(candidates: seq<real>, magnitude: real, target: real): real {
    if candidates == [] then 10.0
    else if Reaches(candidates[0], magnitude, target) then candidates[0]
    else FirstReaching(candidates[1..], magnitude, target)
  }

  function Magnitude(peak: real): (p: real)
    requires peak > 0.0
    ensures p > 0.0
  {
    PowerOfTen(Exponent(peak / 4.0))
  }

  function Multiplier(peak: real, integer: bool): real
    requires peak > 0.0
  {
    FirstReaching(Multipliers(integer), Magnitude(peak), peak / 4.0)
  }

  function RoundStep(peak: real, integer: bool): real
    requires peak > 0.0
  {
    Times(Multiplier(peak, integer), Magnitude(peak))
  }

  function Step(peak: real, integer: bool): real
    requires peak > 0.0
  {
    var step := RoundStep(peak, integer);
    if integer then (if Ceiling(step) > 1 then Ceiling(step) as real else 1.0) else step
  }

  /** The gridlines above zero. */
  function Gridlines(peak: real, step: real): int
    requires step > 0.0
  {
    Ceiling(peak / step)
  }

  predicate Ascending(candidates: seq<real>) {
    forall i, j :: 0 <= i < j < |candidates| ==> candidates[i] < candidates[j]
  }

  lemma {:induction false} FirstReachingIsLeast(candidates: seq<real>, magnitude: real, target: real)
    requires |candidates| > 0 && Reaches(candidates[|candidates| - 1], magnitude, target) && Ascending(candidates)
    ensures var m := FirstReaching(candidates, magnitude, target);
            && m in candidates && Reaches(m, magnitude, target)
            && forall c :: c in candidates && Reaches(c, magnitude, target) ==> m <= c
  {
    if !Reaches(candidates[0], magnitude, target) {
      FirstReachingIsLeast(candidates[1..], magnitude, target);
      assert candidates == [candidates[0]] + candidates[1..];
    }
  }

  lemma MultipliersAscend(integer: bool)
    ensures Ascending(Multipliers(integer)) && Multipliers(integer)[|Multipliers(integer)| - 1] == 10.0
  {
  }

  lemma MagnitudeFits(peak: real)
    requires peak > 0.0
    ensures Magnitude(peak) <= peak / 4.0 && Reaches(10.0, Magnitude(peak), peak / 4.0)
  {
    PowerSteps(Exponent(peak / 4.0));
  }

  lemma MultiplierIsLeast(peak: real, integer: bool)
    requires peak > 0.0
    ensures Multiplier(peak, integer) in Multipliers(integer)
            && Reaches(Multiplier(peak, integer), Magnitude(peak), peak / 4.0)
    ensures forall c :: c in Multipliers(integer) && Reaches(c, Magnitude(peak), peak / 4.0) ==>
              Multiplier(peak, integer) <= c
  {
    MagnitudeFits(peak);
    MultipliersAscend(integer);
    FirstReachingIsLeast(Multipliers(integer), Magnitude(peak), peak / 4.0);
  }

  lemma Scaled(m: real, n: real, p: real)
    requires m <= n && p > 0.0
    ensures m * p <= n * p
  {
  }

  lemma MultiplierRange(m: real, integer: bool)
    requires m in Multipliers(integer)
    ensures 1.0 <= m <= 10.0 && 1.0 in Multipliers(integer)
  {
    assert Multipliers(integer)[0] == 1.0;
  }

  lemma AboveIsMore(found: real, m: real, p: real, q: real)
    requires found <= 10.0 && 1.0 <= m && 0.0 < p && 10.0 * p <= q
    ensures found * p <= m * q
  {
    Scaled(found, 10.0, p);
    Scaled(1.0, m, q);
  }

  lemma BelowIsNoLess(m: real, p: real, q: real, target: real)
    requires m <= 10.0 && 0.0 < q && 10.0 * q <= p <= target && Reaches(m, q, target)
    ensures Reaches(1.0, p, target) && p <= m * q
  {
    Scaled(m, 10.0, q);
  }

  lemma LeastProduct(found: real, p: real, m: real, q: real, target: real)
    requires found <= 10.0 && 1.0 <= m <= 10.0 && p > 0.0 && q > 0.0 && p <= target && Reaches(m, q, target)
    requires 10.0 * p <= q || 10.0 * q <= p || (p == q && found <= m)
    requires Reaches(1.0, p, target) ==> found <= 1.0
    ensures Times(found, p) <= Times(m, q)
  {
    if 10.0 * p <= q {
      AboveIsMore(found, m, p, q);
    } else if 10.0 * q <= p {
      BelowIsNoLess(m, p, q, target);
      Scaled(found, 1.0, p);
    } else {
      Scaled(found, m, p);
    }
  }

  lemma PowersCompare(e: int, f: int)
    ensures 10.0 * PowerOfTen(e) <= PowerOfTen(f) || 10.0 * PowerOfTen(f) <= PowerOfTen(e) || e == f
  {
    if e < f {
      PowersGrow(e, f);
    } else if f < e {
      PowersGrow(f, e);
    }
  }

  lemma MultiplierAtMost(peak: real, integer: bool, c: real)
    requires peak > 0.0 && c in Multipliers(integer)
    ensures 1.0 <= Multiplier(peak, integer) <= 10.0
    ensures Reaches(c, Magnitude(peak), peak / 4.0) ==> Multiplier(peak, integer) <= c
  {
    MultiplierIsLeast(peak, integer);
    MultiplierRange(Multiplier(peak, integer), integer);
  }

  /** No multiple of a power of ten that keeps the peak within four steps is smaller than the one found. */
  lemma RoundStepIsLeast(peak: real, integer: bool, m: real, e: int)
    requires peak > 0.0 && m in Multipliers(integer) && Reaches(m, PowerOfTen(e), peak / 4.0)
    ensures RoundStep(peak, integer) <= Times(m, PowerOfTen(e))
  {
    var found, p, q, target := Multiplier(peak, integer), Magnitude(peak), PowerOfTen(e), peak / 4.0;
    assert 10.0 * p <= q || 10.0 * q <= p || (p == q && found <= m) by {
      PowersCompare(Exponent(target), e);
      MultiplierAtMost(peak, integer, m);
    }
    assert 1.0 <= m <= 10.0 && 1.0 <= found <= 10.0 && (Reaches(1.0, p, target) ==> found <= 1.0) by {
      MultiplierRange(m, integer);
      MultiplierAtMost(peak, integer, 1.0);
    }
    assert p <= target by {
      MagnitudeFits(peak);
    }
    LeastProduct(found, p, m, q, target);
  }

  /** The step of a count axis is 1 up to a peak of 4, and the round step, which is then whole, after that. */
  lemma WholeStep(peak: real)
    requires peak > 0.0
    ensures Step(peak, true) == if peak <= 4.0 then 1.0 else RoundStep(peak, true)
    ensures peak > 4.0 ==> Exponent(peak / 4.0) >= 0
  {
    MagnitudeFits(peak);
    MultiplierIsLeast(peak, true);
    MultiplierRange(Multiplier(peak, true), true);
    var e := Exponent(peak / 4.0);
    if e < 0 {
      PowersGrow(e, 0);
      AboveIsMore(Multiplier(peak, true), 1.0, Magnitude(peak), 1.0);
      assert RoundStep(peak, true) <= 1.0;
    } else {
      WholeMagnitude(e);
      WholeMultiple(Multiplier(peak, true), Magnitude(peak));
      if peak <= 4.0 {
        assert Reaches(1.0, Magnitude(peak), peak / 4.0);
      }
    }
  }

  lemma WholeMagnitude(e: nat)
    ensures PowerOfTen(e) == PowerOfTen(e).Floor as real >= 1.0
  {
    WholePowers(e);
    if e > 0 {
      PowersGrow(0, e);
    }
  }

  lemma WholeMultiple(m: real, magnitude: real)
    requires m in Multipliers(true) && magnitude == magnitude.Floor as real && magnitude >= 1.0
    ensures Ceiling(m * magnitude) as real == m * magnitude >= 1.0
  {
    var k := magnitude.Floor;
    if m == 1.0 {
      CeilingOfWhole(k, m * magnitude);
    } else if m == 2.0 {
      CeilingOfWhole(2 * k, m * magnitude);
    } else if m == 5.0 {
      CeilingOfWhole(5 * k, m * magnitude);
    } else {
      CeilingOfWhole(10 * k, m * magnitude);
    }
  }

  lemma CeilingOfWhole(n: int, x: real)
    requires x == n as real
    ensures Ceiling(x) == n
  {
  }

  /** The multiples of a power of ten that count as round: 1, 2, 5 and 10, and for money 2.5. */
  predicate IsRound(m: real, integer: bool) {
    m == 1.0 || m == 2.0 || m == 5.0 || m == 10.0 || (m == 2.5 && !integer)
  }

  lemma RoundAreMultipliers(m: real, integer: bool)
    ensures IsRound(m, integer) <==> m in Multipliers(integer)
  {
    var ms := Multipliers(integer);
    assert ms[0] == 1.0 && ms[1] == 2.0 && ms[|ms| - 1] == 10.0;
    assert if integer then ms[2] == 5.0 else ms[2] == 2.5 && ms[3] == 5.0;
  }

  /**
   * The step of an axis: whole on count axes, 1, 2, 2.5 (money only) or 5 times a power of ten (10 is the same as 1
   * one power up), and no such number that puts the peak within four steps is smaller.
   */
  lemma StepIsLeastRound(peak: real, integer: bool) returns (m: real, e: int)
    requires peak > 0.0
    ensures IsRound(m, integer) && (integer ==> e >= 0)
    ensures Step(peak, integer) == Times(m, PowerOfTen(e)) && Reaches(m, PowerOfTen(e), peak / 4.0)
    ensures forall n, f ::
              (IsRound(n, integer) && (integer ==> f >= 0) && Reaches(n, PowerOfTen(f), peak / 4.0)) ==>
                Step(peak, integer) <= Times(n, PowerOfTen(f))
  {
    if integer {
      WholeStep(peak);
    }
    if integer && peak <= 4.0 {
      m, e := 1.0, 0;
      forall n, f: int | IsRound(n, true) && f >= 0 ensures 1.0 <= Times(n, PowerOfTen(f)) {
        WholeMagnitude(f);
        Scaled(1.0, n, PowerOfTen(f));
      }
    } else {
      m, e := Multiplier(peak, integer), Exponent(peak / 4.0);
      MultiplierIsLeast(peak, integer);
      RoundAreMultipliers(m, integer);
      forall n, f | IsRound(n, integer) && Reaches(n, PowerOfTen(f), peak / 4.0)
        ensures Step(peak, integer) <= Times(n, PowerOfTen(f))
      {
        RoundAreMultipliers(n, integer);
        RoundStepIsLeast(peak, integer, n, f);
      }
    }
  }

  // ----- The gridlines -----

  /** The round step lies within a quarter of the peak and less than 2 (on count axes 2.5) times that. */
  lemma RoundStepBounds(peak: real, integer: bool)
    requires peak > 0.0
    ensures peak / 4.0 <= RoundStep(peak, integer) < (if integer then 2.5 else 2.0) * (peak / 4.0)
  {
    MagnitudeFits(peak);
    MultiplierIsLeast(peak, integer);
    var m := Multiplier(peak, integer);
    var before :=
      if m == 1.0 then 0.5 else if m == 2.0 then 1.0 else if m == 10.0 then 5.0
      else if integer || m == 2.5 then 2.0 else 2.5;
    assert m > 1.0 ==> before in Multipliers(integer);
    assert !Reaches(before, Magnitude(peak), peak / 4.0);
    BoundedProduct(m, before, Magnitude(peak), peak / 4.0, if integer then 2.5 else 2.0);
  }

  lemma BoundedProduct(m: real, before: real, p: real, target: real, factor: real)
    requires p > 0.0 && !Reaches(before, p, target) && Reaches(m, p, target) && m <= factor * before && factor > 0.0
    ensures target <= Times(m, p) < factor * target
  {
    Scaled(m, factor * before, p);
    assert factor * before * p == factor * (before * p);
  }

  lemma Quotient(peak: real, step: real, low: real)
    requires peak > 0.0 && low > 0.0 && step > 0.0 && peak / 4.0 <= step && low * step < peak
    ensures low < peak / step <= 4.0
  {
    assert peak / step * step == peak;
  }

  /** Three or four gridlines above zero; on count axes two to four, and one per unit up to four. */
  lemma GridlineCount(peak: real, integer: bool)
    requires peak > 0.0
    ensures Step(peak, integer) > 0.0
    ensures var n := Gridlines(peak, Step(peak, integer));
            if !integer then 3 <= n <= 4 else if peak <= 4.0 then n == Ceiling(peak) else 2 <= n <= 4
  {
    RoundStepBounds(peak, integer);
    if integer {
      WholeStep(peak);
    }
    if !integer {
      Quotient(peak, Step(peak, integer), 2.0);
    } else if peak > 4.0 {
      Quotient(peak, Step(peak, integer), 1.6);
    }
  }

  function TickAt(k: int, step: real): real {
    k as real * step
  }

  lemma TicksCompare(k: int, n: int, step: real)
    requires step > 0.0
    ensures TickAt(k, step) <= TickAt(n, step) <==> k <= n
    ensures TickAt(k + 1, step) == TickAt(k, step) + step
  {
  }

  lemma TopReachesPeak(peak: real, step: real)
    requires peak > 0.0 && step > 0.0
    ensures peak <= TickAt(Gridlines(peak, step), step) < peak + step
  {
    var n, q := Gridlines(peak, step), peak / step;
    assert q * step == peak;
    Scaled(q, n as real, step);
    Below((n - 1) as real, q, step);
    assert TickAt(n - 1, step) < peak;
    TicksCompare(n - 1, n, step);
  }

  lemma Below(a: real, b: real, p: real)
    requires a < b && p > 0.0
    ensures a * p < b * p
  {
  }

  /**
   * The top of the axis is the first multiple of the step that reaches the peak, and the ticks are exactly the
   * multiples of the step from zero to the top; without a positive peak there is just a baseline.
   */
  method NiceScale(peak: real, integer: bool) returns (scale: ValueScale)
    ensures peak <= 0.0 ==> scale == ValueScale(1.0, [0.0])
    ensures peak > 0.0 ==>
              var step := Step(peak, integer);
              && 0.0 < step && peak <= scale.max < peak + step && |scale.ticks| >= 2
              && scale.max == scale.ticks[|scale.ticks| - 1]
              && (forall k :: 0 <= k < |scale.ticks| ==> scale.ticks[k] == TickAt(k, step))
              && (if !integer then 4 <= |scale.ticks| <= 5
                  else if peak <= 4.0 then |scale.ticks| == Ceiling(peak) + 1
                  else 3 <= |scale.ticks| <= 5)
  {
    if !(peak > 0.0) {
      return ValueScale(1.0, [0.0]);
    }
    var raw := peak / 4.0;
    var magnitude := PowerOfTen(Exponent(raw));
    var step := Times(FirstReaching(Multipliers(integer), magnitude, raw), magnitude);
    if integer {
      step := if Ceiling(step) > 1 then Ceiling(step) as real else 1.0;
    }
    GridlineCount(peak, integer);
    var n := Ceiling(peak / step);
    var max := TickAt(n, step);
    var ticks, tick := [], 0.0;
    while tick <= max
      invariant |ticks| <= n + 1 && tick == TickAt(|ticks|, step)
      invariant forall k :: 0 <= k < |ticks| ==> ticks[k] == TickAt(k, step)
      decreases n + 1 - |ticks|
    {
      TicksCompare(|ticks|, n, step);
      ticks := ticks + [tick];
      tick := tick + step;
    }
    TicksCompare(|ticks|, n, step);
    TopReachesPeak(peak, step);
    scale := ValueScale(max, ticks);
  }

  /** On a count axis every tick is a whole number. */
  lemma CountTicksAreWhole(peak: real, k: nat)
    requires peak > 0.0
    ensures TickAt(k, Step(peak, true)) == TickAt(k, Step(peak, true)).Floor as real
  {
    var step := Step(peak, true);
    assert step == step.Floor as real;
    assert TickAt(k, step) == (k * step.Floor) as real;
  }
}
