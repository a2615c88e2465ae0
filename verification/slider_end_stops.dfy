/**
 The slider on a track with ends: the plant stops where the track does, so drags saturate and the
 gain measured from them is too small.  Every start and every target are covered.
 */
module SliderEndStops {
  import opened Common
  import opened SliderControl

  const LEAST_STEADY := 0.75
  const MOST_STEADY := 1.1

  /** Where a drag to `c` from `x` ends: the plant stops at the ends of the track. */
  function Stop(k: real, x: real, c: real): real
  {
    Clamp(Position(k, x, c))
  }

  ghost predicate Steady(k: real, x: real, target: real)
  {
    LEAST_STEADY <= k <= MOST_STEADY && 0.0 <= x <= 1.0 && 0.0 <= target <= 1.0 && Abs(target - x) > TARGET_TOLERANCE
  }

  /** One pass of the loop against such a plant. */
  lemma DragToStop(index: nat, r: Run, target: real, plant: Plant, s: SliderState, k: real, c: real)
    requires LinearPlant(plant, s, k) && r.state == s.(rawFraction := r.state.rawFraction)
    requires Abs(target - Fraction(r.state)) > TARGET_TOLERANCE
    requires c == Command(index, r.gain, r.state, target) && Abs(c - Fraction(r.state)) >= 0.001
    ensures var x := Fraction(r.state);
            var y := Stop(k, x, c);
            var step := Iterate(index, r, target, plant);
            && step.run.state == s.(rawFraction := Position(k, x, c)) && Fraction(step.run.state) == y
            && step.run.gain == LearnGain(r.gain, c - x, y - x) && |step.run.attempts| == |r.attempts| + 1
            && (step.again <==> Abs(target - y) > TARGET_TOLERANCE)
  {
    hide LearnGain, Command;
    var x := Fraction(r.state);
    var reply := plant(index, x, c);
    var rest := s.(rawFraction := Position(k, x, c));
    assert reply.moved && Rests(reply.polls, rest);
    RestingSliderSettles(x, reply.polls, rest, 0);
    assert Drags(index, r.gain, r.state, target);
    assert AfterDrag(index, r.gain, r.state, target, plant) == rest;
  }

  // ----- how far one drag can miss

  /** A clamped command on the target's side misses no further than the unclamped one would, or by
      the part of the error that a weak plant leaves. */
  lemma ClampedCommandMiss(k: real, x: real, target: real, raw: real)
    requires Steady(k, x, target) && (if target > x then raw > x else raw < x)
    ensures var y := Stop(k, x, Clamp(raw));
            || Abs(target - y) <= Abs(target - Position(k, x, raw))
            || Abs(target - y) <= (1.0 - k) * Abs(target - x)
  {
    var c := Clamp(raw);
    if target > x {
      ProductSign(k, raw - c);
      if raw > 1.0 {
        ProductSign(k, 1.0 - target);
        if k > 1.0 {
          ProductSign(k - 1.0, 1.0 - x);
        }
      }
    } else {
      ProductSign(k, c - raw);
      if raw < 0.0 {
        ProductSign(k, target);
        if k > 1.0 {
          ProductSign(k - 1.0, x);
        }
      }
    }
  }

  /** A correction computed with gain `g` changes the error by the factor 1 - k/g and the dither. */
  lemma CorrectionError(k: real, g: real, x: real, target: real)
    requires MIN_GAIN <= g <= MAX_GAIN
    ensures var e := target - x;
            var q := e / g;
            && q * g == e && RawCorrection(Some(g), x, target) == x + q + Dither(e)
            && target - Position(k, x, RawCorrection(Some(g), x, target)) == e - k * q - k * Dither(e)
  {
    var e := target - x;
    var q := e / g;
    assert k * (q + Dither(e)) == k * q + k * Dither(e);
  }

  /** A step of length b = a / g moves the plant past a by at most `lag`. */
  lemma Excess(k: real, g: real, a: real, b: real, lag: real)
    requires 0.5 <= g <= k <= MOST_STEADY && a >= 0.0 && b >= 0.0 && b * g == a && a * (k - g) <= lag * g
    ensures 0.0 <= k * b - a <= lag && b >= a * 0.9
  {
    var excess := k * b - a;
    assert excess * g == a * (k - g) by {
      assert (k * b) * g == k * (b * g);
    }
    ProductSign(a, k - g);
    PositiveFactor(excess, g);
    assert (lag - excess) * g == lag * g - excess * g;
    PositiveFactor(lag - excess, g);
    ProductSign(b, MOST_STEADY - g);
    assert b * (MOST_STEADY - g) == b * MOST_STEADY - b * g;
  }

  lemma StrictProduct(a: real, b: real)
    requires a > 0.0 && b > 0.0
    ensures a * b > 0.0
  {
  }

  lemma PositiveFactor(a: real, b: real)
    requires b > 0.0 && a * b >= 0.0
    ensures a >= 0.0
  {
    if a < 0.0 {
      StrictProduct(-a, b);
    }
  }

  lemma StrictFactor(a: real, b: real)
    requires b > 0.0 && a * b > 0.0
    ensures a > 0.0
  {
    if a <= 0.0 {
      ProductSign(-a, b);
    }
  }

  lemma SignedQuotient(e: real, g: real)
    requires g > 0.0
    ensures var q := e / g;
            Abs(q) * g == Abs(e) && (e > 0.0 ==> q == Abs(q)) && (e < 0.0 ==> q == -Abs(q))
  {
    var q := e / g;
    assert q * g == e;
    if q > 0.0 {
      StrictProduct(q, g);
    } else if q < 0.0 {
      StrictProduct(-q, g);
    }
  }

  lemma DitherFollows(e: real)
    ensures Abs(Dither(e)) <= 0.012 && Abs(Dither(e)) <= 0.18 * Abs(e)
    ensures Dither(e) == if e < 0.0 then -Abs(Dither(e)) else Abs(Dither(e))
  {
  }

  /** What is left after a correction with a gain that is too small by at most `lag` times the error. */
  lemma LaggingCorrection(k: real, g: real, x: real, target: real, lag: real)
    requires Steady(k, x, target) && 0.5 <= g <= k
    requires Abs(target - x) * (k - g) <= lag * g
    ensures var e, raw := target - x, RawCorrection(Some(g), x, target);
            && Abs(target - Position(k, x, raw)) <= lag + k * Abs(Dither(e))
            && Abs(raw - x) >= 0.9 * Abs(e) && (if e > 0.0 then raw > x else raw < x)
            && (if e > 0.0 then target - Position(k, x, raw) <= 0.0 else target - Position(k, x, raw) >= 0.0)
  {
    hide RawCorrection, Position, Dither;
    var e := target - x;
    var q, d := e / g, Dither(e);
    CorrectionError(k, g, x, target);
    SignedQuotient(e, g);
    Excess(k, g, Abs(e), Abs(q), lag);
    DitherFollows(e);
    ProductSign(k, Abs(d));
    Mirrored(k, q);
    Mirrored(k, d);
  }

  lemma Mirrored(k: real, v: real)
    ensures k * v == if v < 0.0 then -(k * Abs(v)) else k * Abs(v)
  {
  }

  lemma ClampIs(v: real)
    ensures Clamp(v) == if v < 0.0 then 0.0 else if v > 1.0 then 1.0 else v
  {
  }

  lemma WeakPlantOnly(k: real, a: real, miss: real)
    requires LEAST_STEADY <= k && a > 0.0 && 0.0 < miss <= (1.0 - k) * a
    ensures k < 1.0 && miss <= 0.25 * a
  {
    StrictFactor(1.0 - k, a);
    MoreThan(0.25, 1.0 - k, a);
  }

  lemma CorrectionMiss(k: real, g: real, x: real, target: real, lag: real, dither: real)
    requires Steady(k, x, target) && 0.5 <= g <= k
    requires Abs(target - x) * (k - g) <= lag * g && Abs(Dither(target - x)) <= dither
    ensures var c := CorrectionCommand(Some(g), x, target);
            var y := Stop(k, x, c);
            && Abs(c - x) >= 0.001
            && (Abs(target - y) <= lag + k * dither || Abs(target - y) <= (1.0 - k) * Abs(target - x))
  {
    hide RawCorrection, Dither, Clamp, Position, Stop;
    var raw := RawCorrection(Some(g), x, target);
    LaggingCorrection(k, g, x, target, lag);
    ClampedCommandMiss(k, x, target, raw);
    MoreThan(dither, Abs(Dither(target - x)), k);
    ClampIs(raw);
  }

  /** A clamped correction: how far it can miss, and that it is worth a drag. */
  lemma ClampedCorrection(k: real, g: real, x: real, target: real, lag: real, dither: real)
    requires Steady(k, x, target) && 0.5 <= g <= k && lag >= 0.0
    requires Abs(target - x) * (k - g) <= lag * g && Abs(Dither(target - x)) <= dither
    ensures var c := CorrectionCommand(Some(g), x, target);
            var y := Stop(k, x, c);
            && Abs(c - x) >= 0.001
            && (Abs(target - y) <= lag + MOST_STEADY * dither || (k < 1.0 && Abs(target - y) <= 0.25 * Abs(target - x)))
  {
    hide RawCorrection, CorrectionCommand, Dither, Stop;
    CorrectionMiss(k, g, x, target, lag, dither);
    MoreThan(MOST_STEADY, k, dither);
    var miss := Abs(target - Stop(k, x, CorrectionCommand(Some(g), x, target)));
    if miss > lag + MOST_STEADY * dither {
      WeakPlantOnly(k, Abs(target - x), miss);
    }
  }

  // ----- a drag with the true gain

  /** With the true gain a correction ends within the dither, or leaves what a weak plant leaves and
      measures the same gain again. */
  lemma KnownGainStep(k: real, x: real, target: real)
    requires Steady(k, x, target)
    ensures var c := CorrectionCommand(Some(k), x, target);
            var y := Stop(k, x, c);
            && Abs(c - x) >= 0.001
            && (Abs(target - y) <= 0.0132 || (Abs(target - y) <= 0.25 * Abs(target - x) && LearnGain(Some(k), c - x, y - x) == Some(k)))
  {
    hide RawCorrection, Dither, LearnGain, Position, Stop;
    var c := CorrectionCommand(Some(k), x, target);
    var y := Stop(k, x, c);
    var a := Abs(target - x);
    DitherFollows(target - x);
    ClampedCorrection(k, k, x, target, 0.0, 0.012);
    if Abs(target - y) > 0.0132 {
      ClampIs(RawCorrection(Some(k), x, target));
      WeakPlantStaysInside(k, x, c);
      ExactMeasurement(k, c - x, y - x, Some(k));
    }
  }

  /** A plant that is weaker than commanded never reaches the end of the track. */
  lemma WeakPlantStaysInside(k: real, x: real, c: real)
    requires LEAST_STEADY <= k < 1.0 && 0.0 <= x <= 1.0 && 0.0 <= c <= 1.0
    ensures Stop(k, x, c) - x == k * (c - x)
  {
    Shorter(k, c - x);
    PartWay(x, c, k * (c - x));
    ClampIs(x + k * (c - x));
  }

  lemma Shorter(k: real, v: real)
    requires 0.0 <= k <= 1.0
    ensures Abs(k * v) <= Abs(v) && (if v < 0.0 then k * v <= 0.0 else k * v >= 0.0)
  {
    var size, move := Abs(v), k * v;
    var length := k * size;
    Mirrored(k, v);
    ProductSign(k, size);
    MoreThan(1.0, k, size);
    assert 0.0 <= length <= size;
    assert move == if v < 0.0 then -length else length;
  }

  lemma PartWay(x: real, c: real, move: real)
    requires 0.0 <= x <= 1.0 && 0.0 <= c <= 1.0 && Abs(move) <= Abs(c - x) && (if c < x then move <= 0.0 else move >= 0.0)
    ensures 0.0 <= x + move <= 1.0
  {
  }

  // ----- drags from an end of the track

  /** At an end of the track, with a gain measured too small there. */
  ghost predicate Stuck(k: real, m: real, x: real, target: real)
  {
    && Steady(k, x, target) && (x == 0.0 || x == 1.0) && Abs(target - x) <= 0.2
    && 2.0 / 3.0 <= m <= k && Abs(target - x) * (k - m) <= 0.0225 * m
  }

  /** The first correction from the end passes the target by little, and the gain is half mended. */
  lemma LeavesEnd(k: real, m: real, x: real, target: real)
    requires Stuck(k, m, x, target)
    ensures var c := CorrectionCommand(Some(m), x, target);
            var y := Stop(k, x, c);
            && Abs(c - x) >= 0.001 && Abs(target - y) <= 0.0357
            && LearnGain(Some(m), c - x, y - x) == Some(k + 0.6 * (m - k))
  {
    hide RawCorrection, Dither, LearnGain, Position, Clamp;
    var raw := RawCorrection(Some(m), x, target);
    var p := Position(k, x, raw);
    var step := raw - x;
    LaggingCorrection(k, m, x, target, 0.0225);
    DitherFollows(target - x);
    MoreThan(0.012, Abs(Dither(target - x)), k);
    assert Abs(target - p) <= 0.0357;
    assert p - x == k * step by {
      Displacement(k, x, raw);
    }
    ShortStep(k, step, p - x);
    assert 0.0 <= p <= 1.0 && 0.0 <= raw <= 1.0;
    ClampIs(raw);
    ClampIs(p);
    LongDragsAreNoticeable(k, step, p - x);
    ExactMeasurement(k, step, p - x, Some(m));
  }

  lemma ShortStep(k: real, step: real, move: real)
    requires LEAST_STEADY <= k && move == k * step && Abs(move) <= 0.25
    ensures Abs(step) <= 0.4
  {
    Mirrored(k, step);
    MoreThan(k, LEAST_STEADY, Abs(step));
  }

  lemma MendedLag(k: real, m: real, g: real, rest: real, a: real)
    requires LEAST_STEADY <= k <= MOST_STEADY && 2.0 / 3.0 <= m <= k && 0.0 <= a <= 0.0357
    requires g == k + 0.6 * (m - k) && rest == k - g
    ensures a * rest <= 0.0112 * g && 0.5 <= g <= k
  {
    MoreThan(0.0357, a, rest);
    MendedRest(k, m, g, rest, a * rest);
  }

  lemma MendedRest(k: real, m: real, g: real, rest: real, product: real)
    requires k <= MOST_STEADY && 2.0 / 3.0 <= m && g == k + 0.6 * (m - k) && rest == k - g && product <= 0.0357 * rest
    ensures product <= 0.0112 * g
  {
  }

  /** ... and the next correction reaches it. */
  lemma MendedGainReaches(k: real, m: real, x: real, target: real)
    requires Steady(k, x, target) && Abs(target - x) <= 0.0357 && 2.0 / 3.0 <= m <= k
    ensures var c := CorrectionCommand(Some(k + 0.6 * (m - k)), x, target);
            Abs(c - x) >= 0.001 && Abs(target - Stop(k, x, c)) <= TARGET_TOLERANCE
  {
    hide RawCorrection, Dither, Position, Stop;
    var g, a := k + 0.6 * (m - k), Abs(target - x);
    MendedLag(k, m, g, k - g, a);
    DitherFollows(target - x);
    ClampedCorrection(k, g, x, target, 0.0112, 0.006426);
  }

  // ----- the first drag

  /** The first command lies on the target or beyond it, by little unless it aims at the end. */
  lemma CommandShape(x: real, target: real, overshoot: bool)
    requires 0.0 <= x <= 1.0 && 0.0 <= target <= 1.0 && Abs(target - x) > TARGET_TOLERANCE
    ensures var c := InitialCommand(x, target, overshoot);
            && (if target > x then 0.0 <= c - target <= 0.08 else -0.035 <= c - target <= 0.0)
            && Abs(c - x) >= 0.02 && Abs(c - x) <= 1.02
            && (c > 1.0 ==> c == 1.02 && target >= 0.94) && (c <= 1.0 ==> Abs(c - target) <= 0.035)
            && (c < 0.0 && target > TARGET_TOLERANCE ==> c >= -0.015 && x >= 0.27 && target < 0.035)
  {
  }

  /** The ratio of two distances of one sign, as a gain. */
  lemma Measured(delta: real, move: real) returns (m: real)
    requires (delta > 0.0 && move >= 0.001) || (delta < 0.0 && move <= -0.001)
    requires Abs(delta) >= 0.005 && 2.0 * Abs(delta) <= 3.0 * Abs(move) && Abs(move) <= MOST_STEADY * Abs(delta)
    ensures 2.0 / 3.0 <= m <= MOST_STEADY && m * Abs(delta) == Abs(move)
    ensures LearnGain(None, delta, move) == Some(m)
  {
    hide LearnGain;
    m := move / delta;
    assert m * delta == move;
    var d := Abs(delta);
    assert m * d == Abs(move);
    assert (m - 2.0 / 3.0) * d == m * d - 2.0 / 3.0 * d;
    PositiveFactor(m - 2.0 / 3.0, d);
    assert (MOST_STEADY - m) * d == MOST_STEADY * d - m * d;
    PositiveFactor(MOST_STEADY - m, d);
    ExactMeasurement(m, delta, move, None);
  }

  /** The end of the track cuts a drag of length d, which would have reached `reach`, down to b; the
      target is a inside. */
  ghost predicate Cut(reach: real, a: real, b: real, d: real)
  {
    && 0.0 <= a <= 0.2 && b >= 0.001 && d >= 0.02 && 2.0 * d <= 3.0 * b && b <= reach && b <= MOST_STEADY * d && reach <= MOST_STEADY * d
    && (d <= b || a * (0.1 * b + 1.1 * (d - b)) <= 0.0225 * b)
  }

  /** The gain measured on such a drag is too small by no more than the distance a allows. */
  lemma CutShort(k: real, m: real, reach: real, a: real, b: real, d: real)
    requires LEAST_STEADY <= k <= MOST_STEADY && 2.0 / 3.0 <= m && Cut(reach, a, b, d) && m * d == b && k * d == reach
    ensures m <= k && a * (k - m) <= 0.0225 * m
  {
    assert (k - m) * d == k * d - m * d;
    PositiveFactor(k - m, d);
    if d <= b {
      assert (m - 1.0) * d == m * d - d;
      PositiveFactor(m - 1.0, d);
      MoreThan(0.1, k - m, a);
    } else {
      var excess := reach - b;
      MoreThan(0.1 * b + 1.1 * (d - b), excess, a);
      assert (a * (k - m)) * d == a * excess;
      assert (0.0225 * m) * d == 0.0225 * b;
      assert (0.0225 * m - a * (k - m)) * d == 0.0225 * b - a * excess;
      PositiveFactor(0.0225 * m - a * (k - m), d);
    }
  }

  /** What the first drag leaves: the target, the plant's own gain, or the slider at an end. */
  ghost predicate FirstResult(k: real, y: real, target: real, gain: Option<real>)
  {
    || Abs(target - y) <= TARGET_TOLERANCE
    || (gain == Some(k) && Abs(target - y) <= 0.25)
    || (gain.Some? && Stuck(k, gain.value, y, target))
  }

  lemma FirstInside(k: real, x: real, target: real, c: real)
    requires Steady(k, x, target) && Abs(c - x) >= 0.02 && 0.0 <= Position(k, x, c) <= 1.0
    requires if target > x then 0.0 <= c - target <= 0.08 else -0.035 <= c - target <= 0.0
    ensures FirstResult(k, Stop(k, x, c), target, LearnGain(None, c - x, Stop(k, x, c) - x))
  {
    hide LearnGain, Noticeable;
    ClampIs(Position(k, x, c));
    Displacement(k, x, c);
    LongDragsAreNoticeable(k, c - x, Stop(k, x, c) - x);
    ExactMeasurement(k, c - x, Stop(k, x, c) - x, None);
    var left, past := (1.0 - k) * (target - x), k * (c - target);
    FirstMiss(k, target - x, c - target, left, past);
    assert target - Position(k, x, c) == left - past;
  }

  lemma FirstMiss(k: real, e: real, over: real, left: real, past: real)
    requires LEAST_STEADY <= k <= MOST_STEADY && Abs(e) <= 1.0 && Abs(over) <= 0.08 && (if e > 0.0 then over >= 0.0 else over <= 0.0)
    requires left == (1.0 - k) * e && past == k * over
    ensures Abs(left - past) <= 0.25
  {
    AtMost(k, over, 0.08, past);
    if k <= 1.0 {
      AtMost(1.0 - k, e, 1.0, left);
    } else {
      assert -left == (k - 1.0) * e;
      AtMost(k - 1.0, e, 1.0, -left);
    }
    Difference(e, left, past);
  }

  lemma AtMost(k: real, v: real, bound: real, product: real)
    requires k >= 0.0 && Abs(v) <= bound && product == k * v
    ensures Abs(product) <= k * bound && (v <= 0.0 ==> product <= 0.0) && (v >= 0.0 ==> product >= 0.0)
  {
    var size := Abs(v);
    var length := k * size;
    Mirrored(k, v);
    ProductSign(k, size);
    MoreThan(bound, size, k);
    assert 0.0 <= length <= k * bound;
    assert product == if v < 0.0 then -length else length;
  }

  lemma Difference(e: real, left: real, past: real)
    requires Abs(left) <= 0.25 && Abs(past) <= 0.088 && (if e > 0.0 then past >= 0.0 else past <= 0.0)
    requires Abs(left) <= 0.1 || (if e > 0.0 then left >= 0.0 else left <= 0.0)
    ensures Abs(left - past) <= 0.25
  {
  }

  /** A drag that is stopped at an end of the track leaves the slider there, with a gain measured too
      small. */
  lemma FirstAtEnd(k: real, x: real, target: real, overshoot: bool)
    requires Steady(k, x, target)
    requires var p := Position(k, x, InitialCommand(x, target, overshoot)); p < 0.0 || p > 1.0
    ensures var c := InitialCommand(x, target, overshoot);
            FirstResult(k, Stop(k, x, c), target, LearnGain(None, c - x, Stop(k, x, c) - x))
  {
    hide InitialCommand, LearnGain, Position, Clamp, Stuck;
    var c := InitialCommand(x, target, overshoot);
    var p, y := Position(k, x, c), Stop(k, x, c);
    CommandShape(x, target, overshoot);
    ClampIs(p);
    if Abs(target - y) > TARGET_TOLERANCE {
      var a, b := Abs(target - y), Abs(y - x);
      Displacement(k, x, c);
      var d, reach := Reach(k, c - x, p - x);
      FirstCut(x, target, c, p, y, a, b, d, reach);
      LeftAtEnd(k, x, target, c, y, a, b, d, reach);
    }
  }

  lemma FirstCut(x: real, target: real, c: real, p: real, y: real, a: real, b: real, d: real, reach: real)
    requires 0.0 <= x <= 1.0 && 0.0 <= target <= 1.0 && Abs(target - x) > TARGET_TOLERANCE
    requires a == Abs(target - y) > TARGET_TOLERANCE && b == Abs(y - x) && d == Abs(c - x) >= 0.02
    requires reach <= MOST_STEADY * d && p - x == (if c < x then -reach else reach)
    requires if target > x then c > x && p > x else c < x && p < x
    requires if p < 0.0 then y == 0.0 else p > 1.0 && y == 1.0
    requires if target > x then 0.0 <= c - target <= 0.08 else -0.035 <= c - target <= 0.0
    requires (c > 1.0 ==> c == 1.02 && target >= 0.94) && (c <= 1.0 ==> Abs(c - target) <= 0.035)
    requires c < 0.0 && target > TARGET_TOLERANCE ==> c >= -0.015 && x >= 0.27 && target < 0.035
    ensures Cut(reach, a, b, d) && (if c > x then y > x else y < x)
  {
    if target > x {
      StoppedAtTop(x, target, c, reach);
    } else {
      StoppedAtBottom(x, target, c, reach);
    }
  }

  lemma LeftAtEnd(k: real, x: real, target: real, c: real, y: real, a: real, b: real, d: real, reach: real)
    requires Steady(k, x, target) && (y == 0.0 || y == 1.0)
    requires a == Abs(target - y) > TARGET_TOLERANCE && b == Abs(y - x) && d == Abs(c - x) && reach == k * d
    requires Cut(reach, a, b, d) && (if c > x then y > x else y < x)
    ensures var gain := LearnGain(None, c - x, y - x); gain.Some? && Stuck(k, gain.value, y, target)
  {
    hide LearnGain, Cut;
    CutBounds(reach, a, b, d);
    var m := Measured(c - x, y - x);
    CutShort(k, m, reach, a, b, d);
  }

  lemma CutBounds(reach: real, a: real, b: real, d: real)
    requires Cut(reach, a, b, d)
    ensures 0.0 <= a <= 0.2 && b >= 0.001 && d >= 0.02 && 2.0 * d <= 3.0 * b && b <= MOST_STEADY * d
  {
  }

  /** Length and reach of a drag that would move the slider by `move`. */
  lemma Reach(k: real, v: real, move: real) returns (d: real, reach: real)
    requires LEAST_STEADY <= k <= MOST_STEADY && Abs(v) >= 0.02 && move == k * v
    ensures d == Abs(v) && reach == k * d && 0.0 < reach <= MOST_STEADY * d
    ensures move == if v < 0.0 then -reach else reach
  {
    d := Abs(v);
    reach := k * d;
    StrictProduct(k, d);
    MoreThan(MOST_STEADY, k, d);
    Mirrored(k, v);
  }

  lemma StoppedAtTop(x: real, target: real, c: real, reach: real)
    requires 0.0 <= x <= 1.0 && reach <= MOST_STEADY * (c - x) && x + reach > 1.0 && c - x >= 0.02
    requires target - x > 0.02 && 0.0 <= c - target <= 0.08 && 1.0 - target > 0.02
    requires (c > 1.0 ==> c == 1.02 && target >= 0.94) && (c <= 1.0 ==> c - target <= 0.035)
    ensures Cut(reach, 1.0 - target, 1.0 - x, c - x)
  {
    if c > 1.0 {
      EndTarget(1.0 - target, 1.0 - x);
    }
  }

  lemma StoppedAtBottom(x: real, target: real, c: real, reach: real)
    requires 0.0 <= x <= 1.0 && reach <= MOST_STEADY * (x - c) && x - reach < 0.0 && x - c >= 0.02
    requires x - target > 0.02 && -0.035 <= c - target <= 0.0 && target > 0.02
    requires c < 0.0 ==> c >= -0.015 && x >= 0.27 && target < 0.035
    ensures Cut(reach, target, x, x - c)
  {
    if c < 0.0 {
      PastTheStart(target, x, -c);
    }
  }

  lemma PastTheStart(a: real, x: real, past: real)
    requires 0.0 <= a < 0.035 && x >= 0.27 && 0.0 <= past <= 0.015
    ensures a * (0.1 * x + 1.1 * ((x + past) - x)) <= 0.0225 * x
  {
    var w := 0.1 * x + 1.1 * ((x + past) - x);
    MoreThan(0.035, a, w);
    SmallStart(x, past, w, a * w);
  }

  lemma SmallStart(x: real, past: real, w: real, product: real)
    requires x >= 0.27 && 0.0 <= past <= 0.015 && w == 0.1 * x + 1.1 * past && product <= 0.035 * w
    ensures product <= 0.0225 * x
  {
  }

  /** Aiming at the end from b away, with the target a inside. */
  lemma EndTarget(a: real, b: real)
    requires 0.02 < a <= 0.06 && b > a + 0.02
    ensures a * (0.1 * b + 1.1 * ((b + 0.02) - b)) <= 0.0225 * b
  {
    MoreThan(0.06, a, b);
    Aim(a, b, a * b);
    assert a * (0.1 * b + 0.022) == 0.1 * (a * b) + 0.022 * a;
  }

  lemma Aim(a: real, b: real, product: real)
    requires 0.02 < a <= 0.06 && b > a + 0.02 && product <= 0.06 * b
    ensures 0.1 * product + 0.022 * a <= 0.0225 * b
  {
  }

  // ----- the theorem

  lemma FirstDragToStop(plant: Plant, s: SliderState, k: real, x0: real, target: real)
    requires LinearPlant(plant, s, k) && Steady(k, x0, target)
    ensures var step := Iterate(0, Run(s.(rawFraction := x0), x0, None, [], false), target, plant);
            var r, y := step.run, Fraction(step.run.state);
            && r.state == s.(rawFraction := r.state.rawFraction) && |r.attempts| == 1
            && FirstResult(k, y, target, r.gain) && (step.again <==> Abs(target - y) > TARGET_TOLERANCE)
  {
    hide LearnGain, InitialCommand, Position, Iterate, FirstResult, LinearPlant;
    var r0 := Run(s.(rawFraction := x0), x0, None, [], false);
    var c := InitialCommand(x0, target, !s.nativeRange);
    ClampIs(x0);
    CommandShape(x0, target, !s.nativeRange);
    DragToStop(0, r0, target, plant, s, k, c);
    if 0.0 <= Position(k, x0, c) <= 1.0 {
      FirstInside(k, x0, target, c);
    } else {
      FirstAtEnd(k, x0, target, !s.nativeRange);
    }
  }

  /** A state of the loop that shows the plant at rest. */
  ghost predicate AtRest(r: Run, s: SliderState, drags: nat)
  {
    r.state == s.(rawFraction := r.state.rawFraction) && |r.attempts| == drags
  }

  lemma KnownGainPass(index: nat, r: Run, plant: Plant, s: SliderState, k: real, target: real)
    requires index > 0 && LinearPlant(plant, s, k) && Steady(k, Fraction(r.state), target) && AtRest(r, s, index) && r.gain == Some(k)
    ensures var step := Iterate(index, r, target, plant);
            var y := Fraction(step.run.state);
            && AtRest(step.run, s, index + 1) && (step.again <==> Abs(target - y) > TARGET_TOLERANCE)
            && (step.again ==> step.run.gain == Some(k) && Abs(target - y) <= 0.25 * Abs(target - Fraction(r.state)))
  {
    hide LearnGain, CorrectionCommand, Position, Iterate, LinearPlant, Stop;
    KnownGainStep(k, Fraction(r.state), target);
    DragToStop(index, r, target, plant, s, k, CorrectionCommand(Some(k), Fraction(r.state), target));
  }

  /** With the gain known at the second drag, two drags suffice. */
  lemma KnownGainFinishes(r: Run, plant: Plant, s: SliderState, k: real, target: real)
    requires LinearPlant(plant, s, k) && Steady(k, Fraction(r.state), target) && AtRest(r, s, 1) && r.gain == Some(k)
    requires Abs(target - Fraction(r.state)) <= 0.25
    ensures var run := Loop(1, r, target, plant); Verified(run, target) && OnTarget(run.state, target) && 2 <= |run.attempts| <= 3
  {
    hide Iterate, Clamp;
    KnownGainPass(1, r, plant, s, k, target);
    var second := Iterate(1, r, target, plant);
    if second.again {
      InTrack(second.run.state);
      KnownGainPass(2, second.run, plant, s, k, target);
    }
  }

  lemma InTrack(s: SliderState)
    ensures 0.0 <= Fraction(s) <= 1.0
  {
  }

  /** From an end of the track with a gain measured too small, two drags suffice as well. */
  lemma StuckFinishes(r: Run, plant: Plant, s: SliderState, k: real, target: real)
    requires LinearPlant(plant, s, k) && AtRest(r, s, 1) && r.gain.Some?
    requires Stuck(k, r.gain.value, Fraction(r.state), target)
    ensures var run := Loop(1, r, target, plant); Verified(run, target) && OnTarget(run.state, target) && 2 <= |run.attempts| <= 3
  {
    hide Iterate, Clamp, LearnGain, CorrectionCommand, Position, Stop;
    var m, x := r.gain.value, Fraction(r.state);
    LeavesEnd(k, m, x, target);
    DragToStop(1, r, target, plant, s, k, CorrectionCommand(r.gain, x, target));
    var second := Iterate(1, r, target, plant);
    if second.again {
      var r2 := second.run;
      InTrack(r2.state);
      MendedGainReaches(k, m, Fraction(r2.state), target);
      DragToStop(2, r2, target, plant, s, k, CorrectionCommand(r2.gain, Fraction(r2.state), target));
    }
  }

  /** Convergence without any condition on start and target: a plant of gain 0.75 to 1.1 that stops at
      the ends of its track is verified within three drags from every start, for every target -- the
      end targets that the first command deliberately overshoots included -- and with or without
      overshooting. */
  lemma SteadyPlantConverges(plant: Plant, s: SliderState, k: real, x0: real, target: real)
    requires LinearPlant(plant, s, k) && Steady(k, x0, target)
    ensures var run := Loop(0, Run(s.(rawFraction := x0), x0, None, [], false), target, plant);
            Verified(run, target) && OnTarget(run.state, target) && 1 <= |run.attempts| <= 3
  {
    hide Iterate, Rests, Stuck, Clamp;
    var r0 := Run(s.(rawFraction := x0), x0, None, [], false);
    FirstDragToStop(plant, s, k, x0, target);
    var first := Iterate(0, r0, target, plant);
    if first.again {
      InTrack(first.run.state);
      if first.run.gain == Some(k) && Abs(target - Fraction(first.run.state)) <= 0.25 {
        KnownGainFinishes(first.run, plant, s, k, target);
      } else {
        StuckFinishes(first.run, plant, s, k, target);
      }
    }
  }
}
