/**
 * The time-driven interpolation engine of game/engine/animation.py: an
 * `AnimationLerper` maps the time elapsed in a run to a progression in
 * [0, 1] along one of four easing curves, and an `Animator` drives one
 * scalar value from its current value to a target over successive frames.
 */
module Animation {
  import opened Reals

  /** The easing curve a lerper follows. */
  datatype LerpFunction = Linear | EaseOut | EaseIn | EaseInOut

  type PositiveInt = n: int | n > 0 witness 1

  /** An `AnimationLerper`: a curve and the duration of a run in milliseconds. */
  datatype Lerper = Lerper(curve: LerpFunction, durationMs: PositiveInt)

  function Pow5(x: real): real {
    x * x * x * x * x
  }

  /** The fraction of the duration that has elapsed. */
  function TimePercent(l: Lerper, timeElapsed: int): real {
    timeElapsed as real / l.durationMs as real
  }

  function EaseInValue(l: Lerper, timeElapsed: int): real {
    Pow5(TimePercent(l, timeElapsed))
  }

  function EaseOutValue(l: Lerper, timeElapsed: int): real {
    1.0 - Pow5(1.0 - TimePercent(l, timeElapsed))
  }

  function EaseInOutValue(l: Lerper, timeElapsed: int): real {
    var timePercent := TimePercent(l, timeElapsed);
    var outValue := EaseOutValue(l, timeElapsed);
    var inValue := EaseInValue(l, timeElapsed);
    inValue + (outValue - inValue) * timePercent
  }

  function LinearValue(l: Lerper, timeElapsed: int): real {
    TimePercent(l, timeElapsed)
  }

  /** The interpolator the lerper selected when it was built. */
  function CurveValue(l: Lerper, timeElapsed: int): real {
    match l.curve
    case Linear => LinearValue(l, timeElapsed)
    case EaseOut => EaseOutValue(l, timeElapsed)
    case EaseIn => EaseInValue(l, timeElapsed)
    case EaseInOut => EaseInOutValue(l, timeElapsed)
  }

  /** `AnimationLerper.interpolate`: the progression of a run, 0 at time 0 and clamped to 1 from the duration on. */
  function Interpolate(l: Lerper, timeElapsed: int): real {
    if timeElapsed >= l.durationMs then 1.0
    else if timeElapsed == 0 then 0.0
    else CurveValue(l, timeElapsed)
  }

  lemma {:induction false} Pow5UnitBounds(x: real)
    requires 0.0 <= x <= 1.0
    ensures 0.0 <= Pow5(x) <= 1.0
    ensures x < 1.0 ==> Pow5(x) < 1.0
    ensures 0.0 < x ==> 0.0 < Pow5(x)
  {
    var x2 := x * x;
    MulAtMost(x, x);
    MulNonNegative(x, x);
    var x3 := x2 * x;
    MulAtMost(x2, x);
    MulNonNegative(x2, x);
    var x4 := x3 * x;
    MulAtMost(x3, x);
    MulNonNegative(x3, x);
    MulAtMost(x4, x);
    MulNonNegative(x4, x);
    assert Pow5(x) == x4 * x;
    if x < 1.0 {
      assert x4 * x <= x;
    }
    if 0.0 < x {
      assert x2 > 0.0;
      assert x3 > 0.0;
      assert x4 > 0.0;
    }
  }

  /** On [0, 1] the fifth power never exceeds its base. */
  lemma Pow5AtMostBase(x: real)
    ensures 0.0 <= x <= 1.0 ==> 0.0 <= Pow5(x) <= x
  {
    if 0.0 <= x <= 1.0 {
      Pow5UnitBounds(x);
      var x4 := x * x * x * x;
      MulNonNegative(x, x);
      MulAtMost(x, x);
      MulNonNegative(x * x, x);
      MulAtMost(x, x * x);
      MulNonNegative(x * x * x, x);
      MulAtMost(x, x * x * x);
      assert 0.0 <= x4 <= 1.0;
      MulAtMost(x4, x);
      assert Pow5(x) == x4 * x;
    }
  }

  /** A blend `i + (o - i) p` with `i <= o` and `p` in [0, 1] lies between `i` and `o`. */
  lemma BlendBetween(i: real, o: real, p: real)
    ensures i <= o && 0.0 <= p <= 1.0 ==> i <= i + (o - i) * p <= o
  {
    if i <= o && 0.0 <= p <= 1.0 {
      MulNonNegative(o - i, p);
      MulAtMost(p, o - i);
    }
  }

  /** The fraction left at `t` is the fraction elapsed at `duration - t`. */
  lemma TimePercentMirror(l: Lerper, t: int)
    ensures TimePercent(l, l.durationMs - t) == 1.0 - TimePercent(l, t)
  {
    var d := l.durationMs as real;
    var a, b := TimePercent(l, l.durationMs - t), TimePercent(l, t);
    assert a * d == d - t as real;
    assert b * d == t as real;
    assert (1.0 - b) * d == d - t as real;
    MulCancel(a, 1.0 - b, d);
  }

  /**
   * The linear curve is the elapsed fraction of the run: scaled by the
   * duration it gives back the elapsed time, and within a run it is in [0, 1].
   */
  lemma LinearIsElapsedFraction(l: Lerper, t: int)
    ensures LinearValue(l, t) * l.durationMs as real == t as real
    ensures 0 <= t <= l.durationMs ==> 0.0 <= LinearValue(l, t) <= 1.0
  {
    if 0 <= t < l.durationMs {
      TimePercentBounds(l, t);
    }
  }

  /** Ease-in starts slowly: within a run it never gets ahead of the linear curve. */
  lemma EaseInBehindLinear(l: Lerper, t: int)
    requires 0 <= t <= l.durationMs
    ensures 0.0 <= EaseInValue(l, t) <= LinearValue(l, t)
  {
    LinearIsElapsedFraction(l, t);
    Pow5AtMostBase(TimePercent(l, t));
  }

  /**
   * Ease-out is ease-in played backwards: its value at `t` is one minus
   * ease-in's at `duration - t`. So within a run it never falls behind the
   * linear curve.
   */
  lemma EaseOutMirrorsEaseIn(l: Lerper, t: int)
    ensures EaseOutValue(l, t) == 1.0 - EaseInValue(l, l.durationMs - t)
    ensures 0 <= t <= l.durationMs ==> LinearValue(l, t) <= EaseOutValue(l, t) <= 1.0
  {
    TimePercentMirror(l, t);
    LinearIsElapsedFraction(l, t);
    Pow5AtMostBase(1.0 - TimePercent(l, t));
  }

  /** Ease-in-out blends ease-in into ease-out, so within a run it lies between the two. */
  lemma EaseInOutBetween(l: Lerper, t: int)
    requires 0 <= t <= l.durationMs
    ensures EaseInValue(l, t) <= EaseInOutValue(l, t) <= EaseOutValue(l, t)
  {
    var p, i, o := TimePercent(l, t), EaseInValue(l, t), EaseOutValue(l, t);
    assert 0.0 <= p <= 1.0 by {
      LinearIsElapsedFraction(l, t);
    }
    assert i <= o by {
      EaseInBehindLinear(l, t);
      EaseOutMirrorsEaseIn(l, t);
    }
    BlendBetween(i, o, p);
  }

  lemma {:induction false} Pow5Monotone(x: real, y: real)
    requires 0.0 <= x <= y
    ensures Pow5(x) <= Pow5(y)
  {
    var x2, y2 := x * x, y * y;
    MulMonotone(x, y, x, y);
    MulNonNegative(x, x);
    var x3, y3 := x2 * x, y2 * y;
    MulMonotone(x2, y2, x, y);
    MulNonNegative(x2, x);
    var x4, y4 := x3 * x, y3 * y;
    MulMonotone(x3, y3, x, y);
    MulNonNegative(x3, x);
    MulMonotone(x4, y4, x, y);
    assert Pow5(x) == x4 * x && Pow5(y) == y4 * y;
  }

  lemma TimePercentBounds(l: Lerper, t: int)
    requires 0 <= t
    ensures 0.0 <= TimePercent(l, t)
    ensures t < l.durationMs ==> TimePercent(l, t) < 1.0
    ensures 0 < t ==> 0.0 < TimePercent(l, t)
  {
    var d := l.durationMs as real;
    var p := TimePercent(l, t);
    assert p * d == t as real;
    if t < l.durationMs && p >= 1.0 {
      MulMonotone(1.0, p, d, d);
    }
  }

  lemma TimePercentMonotone(l: Lerper, t1: int, t2: int)
    requires t1 <= t2
    ensures TimePercent(l, t1) <= TimePercent(l, t2)
  {
    var d := l.durationMs as real;
    assert TimePercent(l, t2) - TimePercent(l, t1) == (t2 - t1) as real / d;
  }

  // ---------------------------------------------------------------------
  // Properties of the easing curves

  /** The clamping of `interpolate`: exactly 1 from the duration on, exactly 0 at time 0. */
  lemma InterpolateEndpoints(l: Lerper, t: int)
    ensures t >= l.durationMs ==> Interpolate(l, t) == 1.0
    ensures t == 0 ==> Interpolate(l, t) == 0.0
  {
  }

  /** Strictly inside a run, each of linear, ease-in and ease-out lies strictly between 0 and 1. */
  lemma BasicCurvesInUnitInterval(l: Lerper, t: int)
    requires 0 < t < l.durationMs
    ensures 0.0 < LinearValue(l, t) < 1.0
    ensures 0.0 < EaseInValue(l, t) < 1.0
    ensures 0.0 < EaseOutValue(l, t) < 1.0
  {
    TimePercentBounds(l, t);
    var p := TimePercent(l, t);
    Pow5UnitBounds(p);
    Pow5UnitBounds(1.0 - p);
  }

  /**
   * Ease-in-out blends ease-in into ease-out by the elapsed fraction, so
   * inside a run it is a convex combination of the two and stays in (0, 1).
   */
  lemma EaseInOutIsConvexBlend(l: Lerper, t: int)
    requires 0 < t < l.durationMs
    ensures var p := TimePercent(l, t);
      && 0.0 < p < 1.0
      && EaseInOutValue(l, t) == (1.0 - p) * EaseInValue(l, t) + p * EaseOutValue(l, t)
    ensures 0.0 < EaseInOutValue(l, t) < 1.0
  {
    TimePercentBounds(l, t);
    BasicCurvesInUnitInterval(l, t);
    var p, i, o := TimePercent(l, t), EaseInValue(l, t), EaseOutValue(l, t);
    assert i + (o - i) * p == (1.0 - p) * i + p * o;
    BlendBounds(i, o, p);
  }

  /** Ease-in-out is symmetric about the middle of the run: the second half mirrors the first. */
  lemma EaseInOutSymmetric(l: Lerper, t: int)
    ensures EaseInOutValue(l, l.durationMs - t) == 1.0 - EaseInOutValue(l, t)
  {
    var d := l.durationMs;
    MirroredEnds(l, t);
    BlendMirror(EaseInValue(l, t), EaseOutValue(l, t), TimePercent(l, t),
                EaseInValue(l, d - t), EaseOutValue(l, d - t), TimePercent(l, d - t));
  }

  /** At `duration - t` the elapsed fraction, ease-in and ease-out are the mirrors of their values at `t`. */
  lemma MirroredEnds(l: Lerper, t: int)
    ensures TimePercent(l, l.durationMs - t) == 1.0 - TimePercent(l, t)
    ensures EaseInValue(l, l.durationMs - t) == 1.0 - EaseOutValue(l, t)
    ensures EaseOutValue(l, l.durationMs - t) == 1.0 - EaseInValue(l, t)
  {
    var d := l.durationMs;
    TimePercentMirror(l, t);
    EaseOutMirrorsEaseIn(l, t);
    EaseOutMirrorsEaseIn(l, d - t);
    assert d - (d - t) == t;
  }

  /** Blending the mirrored ends by the mirrored weight mirrors the blend. */
  lemma BlendMirror(i: real, o: real, p: real, i': real, o': real, p': real)
    requires i' == 1.0 - o && o' == 1.0 - i && p' == 1.0 - p
    ensures i' + (o' - i') * p' == 1.0 - (i + (o - i) * p)
  {
    assert (o - i) * (1.0 - p) == (o - i) - (o - i) * p;
  }

  /** A blend of two values in (0, 1) by a weight in [0, 1] stays in (0, 1). */
  lemma BlendBounds(i: real, o: real, p: real)
    requires 0.0 < i < 1.0 && 0.0 < o < 1.0 && 0.0 <= p <= 1.0
    ensures 0.0 < i + (o - i) * p < 1.0
  {
    if o >= i {
      MulNonNegative(o - i, p);
      MulAtMost(p, o - i);
    } else {
      var e := (i - o) * p;
      MulNonNegative(i - o, p);
      MulAtMost(p, i - o);
      assert i + (o - i) * p == i - e;
      assert 0.0 <= e <= i - o;
    }
  }

  /**
   * For every non-negative elapsed time the progression is in [0, 1], and it
   * reaches 1 exactly when the elapsed time reaches the duration.
   */
  lemma InterpolateInUnitInterval(l: Lerper, t: int)
    requires 0 <= t
    ensures 0.0 <= Interpolate(l, t) <= 1.0
    ensures Interpolate(l, t) >= 1.0 <==> t >= l.durationMs
  {
    if 0 < t < l.durationMs {
      BasicCurvesInUnitInterval(l, t);
      EaseInOutIsConvexBlend(l, t);
    }
  }

  /** Linear, ease-in and ease-out never move backwards as time passes. */
  lemma InterpolateMonotone(l: Lerper, t1: int, t2: int)
    requires l.curve != EaseInOut
    requires 0 <= t1 <= t2
    ensures Interpolate(l, t1) <= Interpolate(l, t2)
  {
    InterpolateInUnitInterval(l, t1);
    InterpolateInUnitInterval(l, t2);
    if 0 < t1 && t2 < l.durationMs {
      TimePercentBounds(l, t1);
      TimePercentBounds(l, t2);
      TimePercentMonotone(l, t1, t2);
      var p1, p2 := TimePercent(l, t1), TimePercent(l, t2);
      Pow5Monotone(p1, p2);
      Pow5Monotone(1.0 - p2, 1.0 - p1);
    }
  }

  // ---------------------------------------------------------------------
  // The animator

  /**
   * What one call of `frame` reports: nothing when idle; an intermediate
   * value, passed to `on_frame`; or the value of the frame that completed the
   * run together with the value passed to `on_stop`.
   */
  datatype FrameOutcome = Idle | Moving(value: real) | Finished(value: real, finalValue: real)

  /**
   * `Animator`. The optional callbacks are not stored: `Frame` reports which
   * one fires and with which argument, and the owner runs it right after, as
   * the source does at the very end of `frame` and `stop`.
   */
  class Animator {
    const lerper: Lerper
    var isAnimating: bool
    var currentValue: real
    var targetValue: real
    var timeElapsed: nat
    var difference: real

    ghost predicate Valid()
      reads this
    {
      && difference == targetValue - currentValue
      && (!isAnimating ==> currentValue == targetValue)
      && (isAnimating ==> timeElapsed < lerper.durationMs)
    }

    constructor (lerper: Lerper, startValue: real)
      ensures Valid()
      ensures this.lerper == lerper
      ensures !isAnimating && timeElapsed == 0 && difference == 0.0
      ensures currentValue == startValue && targetValue == startValue
    {
      this.lerper := lerper;
      isAnimating := false;
      currentValue := startValue;
      targetValue := startValue;
      timeElapsed := 0;
      difference := 0.0;
    }

    /** Begins a run towards `target`, measured from the last completed value. */
    method Start(target: real)
      requires Valid()
      modifies this
      ensures Valid()
      ensures isAnimating && timeElapsed == 0 && targetValue == target
      ensures currentValue == old(currentValue)
      ensures difference == target - old(currentValue)
    {
      isAnimating := true;
      timeElapsed := 0;
      targetValue := target;
      difference := target - currentValue;
    }

    /** Ends the run at its target; returns the argument `on_stop` receives. */
    method Stop() returns (finalValue: real)
      modifies this
      ensures Valid()
      ensures !isAnimating && difference == 0.0
      ensures currentValue == old(targetValue) && targetValue == old(targetValue)
      ensures timeElapsed == old(timeElapsed)
      ensures finalValue == old(targetValue)
    {
      currentValue := targetValue;
      isAnimating := false;
      difference := 0.0;
      finalValue := currentValue;
    }

    /**
     * Advances the run by `deltaTime` milliseconds. `currentValue` is never
     * written on an intermediate frame; the interpolated value is only
     * reported.
     */
    method Frame(deltaTime: nat) returns (outcome: FrameOutcome)
      requires Valid()
      modifies this
      ensures Valid()
      ensures !old(isAnimating) ==> outcome == Idle && unchanged(this)
      ensures old(isAnimating) ==>
        && !outcome.Idle?
        && timeElapsed == old(timeElapsed) + deltaTime
        && targetValue == old(targetValue)
        && outcome.value == old(currentValue) + Interpolate(lerper, timeElapsed) * old(difference)
        && (outcome.Finished? <==> timeElapsed >= lerper.durationMs)
      ensures outcome.Finished? ==>
        && !isAnimating && currentValue == old(targetValue) && difference == 0.0
        && outcome.finalValue == old(targetValue) && outcome.value == old(targetValue)
      ensures outcome.Moving? ==>
        isAnimating && currentValue == old(currentValue) && difference == old(difference)
      ensures deltaTime == 0 ==> isAnimating == old(isAnimating) && !outcome.Finished?
    {
      if !isAnimating {
        return Idle;
      }
      timeElapsed := timeElapsed + deltaTime;
      var progression := Interpolate(lerper, timeElapsed);
      var newValue := currentValue + progression * difference;
      InterpolateInUnitInterval(lerper, timeElapsed);
      if progression >= 1.0 {
        assert newValue == targetValue;
        var finalValue := Stop();
        outcome := Finished(newValue, finalValue);
      } else {
        outcome := Moving(newValue);
      }
    }
  }

  /**
   * A run re-started half-way is measured from the last completed value, not
   * from the value shown on screen: with a linear 100 ms lerper, starting at
   * 0 towards 10 and re-starting towards 20 after 50 ms gives a difference
   * of 20, not 10.
   */
  method RestartMeasuresFromCompletedValue() returns (shown: real, difference: real)
    ensures shown == 5.0 && difference == 20.0
  {
    var a := new Animator(Lerper(Linear, 100), 0.0);
    a.Start(10.0);
    var outcome := a.Frame(50);
    shown := outcome.value;
    a.Start(20.0);
    difference := a.difference;
  }
}
