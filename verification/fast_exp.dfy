/** The fast exponential of the effective capacitance model, and the driver waveform built
    on it. */
module FastExp {
  import opened RealSums

  const CUTOFF: real := 12.0
  const STEPS: nat := 4096

  function Power(b: real, n: nat): real {
    if n == 0 then 1.0 else Mul(b, Power(b, n - 1))
  }

  /** The value that twelve squarings give, and zero below the cut-off. */
  function Exp(x: real): real {
    if x < -CUTOFF then 0.0 else Power(1.0 + x / 4096.0, STEPS)
  }

  lemma {:induction false} PowerAdd(b: real, m: nat, n: nat)
    ensures Power(b, m + n) == Mul(Power(b, m), Power(b, n))
  {
    if m > 0 {
      PowerAdd(b, m - 1, n);
      Regroup(b, Power(b, m - 1), Power(b, n));
    }
  }

  lemma Regroup(a: real, b: real, c: real)
    ensures Mul(a, Mul(b, c)) == Mul(Mul(a, b), c)
  {
  }

  /** Squaring doubles the exponent. */
  method Doubled(b: real, n: nat, y: real) returns (z: real)
    requires y == Power(b, n)
    ensures z == Power(b, 2 * n)
  {
    PowerAdd(b, n, n);
    z := Mul(y, y);
  }

  method Exp2(x: real) returns (y: real)
    ensures y == Exp(x)
  {
    if x < -CUTOFF {
      return 0.0;
    }
    var b := 1.0 + x / 4096.0;
    y := b;
    PowerOne(b);
    y := Doubled(b, 1, y);
    y := Doubled(b, 2, y);
    y := Doubled(b, 4, y);
    y := Doubled(b, 8, y);
    y := Doubled(b, 16, y);
    y := Doubled(b, 32, y);
    y := Doubled(b, 64, y);
    y := Doubled(b, 128, y);
    y := Doubled(b, 256, y);
    y := Doubled(b, 512, y);
    y := Doubled(b, 1024, y);
    y := Doubled(b, 2048, y);
  }

  lemma PowerOne(b: real)
    ensures Power(b, 1) == b
  {
    assert Power(b, 0) == 1.0;
    assert Power(b, 1) == Mul(b, Power(b, 0));
  }

  // ---------------------------------------------------------------------------
  // Bounds

  lemma {:induction false} PowerBounds(b: real, n: nat)
    requires 0.0 <= b <= 1.0
    ensures 0.0 <= Power(b, n) <= 1.0
  {
    if n > 0 {
      PowerBounds(b, n - 1);
      Shrink(b, Power(b, n - 1));
    }
  }

  lemma Shrink(b: real, p: real)
    requires 0.0 <= b <= 1.0 && 0.0 <= p
    ensures 0.0 <= Mul(b, p) <= p
  {
    TimesNonNegative(b, p);
    TimesNonNegative(1.0 - b, p);
    assert Mul(1.0 - b, p) == p - Mul(b, p);
  }

  lemma TimesNonNegative(a: real, b: real)
    requires a >= 0.0 && b >= 0.0
    ensures Mul(a, b) >= 0.0
  {
    if a > 0.0 && b > 0.0 {
      MulPositive(a, b);
    }
  }

  /** (1 - h)^n is at least 1 - n h. */
  lemma {:induction false} Bernoulli(h: real, n: nat)
    requires 0.0 <= h <= 1.0
    ensures Power(1.0 - h, n) >= 1.0 - (n as real) * h
  {
    if n > 0 {
      Bernoulli(h, n - 1);
      PowerBounds(1.0 - h, n - 1);
      var p := Power(1.0 - h, n - 1);
      Shrink(p, h);
      BernoulliStep(h, p, n);
    }
  }

  lemma BernoulliStep(h: real, p: real, n: nat)
    ensures Mul(1.0 - h, p) == p - Mul(p, h)
    ensures (n as real) * h == ((n - 1) as real) * h + h
  {
    assert (n as real) == ((n - 1) as real) + 1.0;
  }

  /** Powers grow with their base, by at most n times as much. */
  lemma {:induction false} PowerGrows(a: real, b: real, n: nat)
    requires 0.0 <= a <= b <= 1.0
    ensures 0.0 <= Power(b, n) - Power(a, n) <= (n as real) * (b - a)
  {
    hide Mul;
    if n > 0 {
      PowerGrows(a, b, n - 1);
      PowerBounds(a, n - 1);
      PowerBounds(b, n - 1);
      GrowStep(a, b, Power(a, n - 1), Power(b, n - 1), (n - 1) as real);
      BernoulliStep(b - a, 0.0, n);
    }
  }

  lemma GrowStep(a: real, b: real, p: real, q: real, m: real)
    requires 0.0 <= a <= b <= 1.0 && 0.0 <= p <= 1.0 && 0.0 <= q <= 1.0 && 0.0 <= q - p <= m * (b - a)
    ensures 0.0 <= Mul(b, q) - Mul(a, p) <= m * (b - a) + (b - a)
  {
    Shrink(b, q - p);
    Shrink(p, b - a);
    GrowParts(a, b, p, q);
  }

  lemma GrowParts(a: real, b: real, p: real, q: real)
    ensures Mul(b, q) - Mul(a, p) == Mul(b, q - p) + Mul(p, b - a)
  {
  }

  /** The base stays in range down to the cut-off. */
  lemma BaseInRange(z: real)
    requires 0.0 <= z <= CUTOFF
    ensures 0.0 <= 1.0 + (-z) / 4096.0 <= 1.0 && 1.0 + (-z) / 4096.0 == 1.0 - z / 4096.0
  {
  }

  /** exp(-z) is between 1 - z and 1, and not negative. */
  lemma ExpBounds(z: real)
    requires 0.0 <= z
    ensures 0.0 <= Exp(-z) <= 1.0 && 1.0 - z <= Exp(-z)
  {
    if z <= CUTOFF {
      BaseInRange(z);
      PowerBounds(1.0 + (-z) / 4096.0, STEPS);
      Bernoulli(z / 4096.0, STEPS);
      assert (STEPS as real) * (z / 4096.0) == z;
    }
  }

  /** (1 - h)^n is at most 1 / (1 + n h), ... */
  lemma {:induction false} PowerBelow(h: real, n: nat)
    requires 0.0 <= h <= 1.0
    ensures Mul(Power(1.0 - h, n), 1.0 + (n as real) * h) <= 1.0
  {
    if n > 0 {
      PowerBelow(h, n - 1);
      PowerBounds(1.0 - h, n - 1);
      BelowStep(h, Power(1.0 - h, n - 1), (n - 1) as real);
    }
  }

  lemma BelowStep(h: real, p: real, m: real)
    requires 0.0 <= h <= 1.0 && p >= 0.0 && m >= 0.0 && Mul(p, 1.0 + m * h) <= 1.0
    ensures Mul(Mul(1.0 - h, p), 1.0 + (m + 1.0) * h) <= 1.0
  {
    var s := h * h;
    TimesNonNegative(h, h);
    TimesNonNegative(m + 1.0, s);
    TimesNonNegative(p, (m + 1.0) * s);
    assert (1.0 - h) * (1.0 + (m + 1.0) * h) == 1.0 + m * h - (m + 1.0) * s;
    assert ((1.0 - h) * p) * (1.0 + (m + 1.0) * h) == p * ((1.0 - h) * (1.0 + (m + 1.0) * h));
    assert p * (1.0 + m * h - (m + 1.0) * s) == p * (1.0 + m * h) - p * ((m + 1.0) * s);
  }

  function Second(h: real, m: real): real {
    1.0 - m * h + Mul(m * (m - 1.0) * 0.5, Square(h))
  }

  /** ... and at most 1 - n h + n (n - 1) / 2 h h. */
  lemma {:induction false} PowerSecond(h: real, n: nat)
    requires 0.0 <= h <= 1.0
    ensures Power(1.0 - h, n) <= Second(h, n as real)
  {
    if n == 0 {
      assert Second(h, 0.0) == 1.0;
    } else {
      hide Second, Mul;
      PowerSecond(h, n - 1);
      SecondStep(h, Power(1.0 - h, n - 1), (n - 1) as real);
      assert (n as real) == ((n - 1) as real) + 1.0;
    }
  }

  lemma SecondStep(h: real, p: real, m: real)
    requires 0.0 <= h <= 1.0 && m >= 0.0 && (m == 0.0 || m >= 1.0) && p <= Second(h, m)
    ensures Mul(1.0 - h, p) <= Second(h, m + 1.0)
  {
    var s, b := h * h, m * (m - 1.0) * 0.5;
    TimesNonNegative(h, h);
    if m >= 1.0 {
      TimesNonNegative(m, m - 1.0);
    }
    TimesNonNegative(b, s);
    TimesNonNegative(b * s, h);
    TimesNonNegative(1.0 - h, 1.0 - m * h + b * s - p);
    assert (1.0 - h) * (1.0 - m * h + b * s - p) == (1.0 - h) * (1.0 - m * h + b * s) - (1.0 - h) * p;
    assert (1.0 - h) * (1.0 - m * h + b * s) == 1.0 - (m + 1.0) * h + (b + m) * s - (b * s) * h;
    assert b + m == (m + 1.0) * m * 0.5;
  }

  /** From above, exp(-z) is at most 1 / (1 + z), and down to the cut-off at most
      1 - z + z z / 2. */
  lemma ExpBelow(z: real)
    requires 0.0 <= z
    ensures Exp(-z) * (1.0 + z) <= 1.0
    ensures z <= 12.0 ==> Exp(-z) <= 1.0 - z + z * z / 2.0
  {
    if z <= CUTOFF {
      BaseInRange(z);
      var h := z / 4096.0;
      PowerBelow(h, STEPS);
      PowerSecond(h, STEPS);
      assert (STEPS as real) * h == z;
      AtSteps(z, h);
      assert Second(h, 4096.0) == 1.0 - z + Mul(4096.0 * 4095.0 * 0.5, Square(h));
    } else {
      assert Exp(-z) == 0.0;
    }
  }

  lemma AtSteps(z: real, h: real)
    requires h == z / 4096.0
    ensures Mul(4096.0 * 4095.0 * 0.5, Square(h)) <= z * z / 2.0
  {
    assert z == 4096.0 * h;
    assert z * z == 16777216.0 * (h * h);
    assert h * h == Square(h);
  }

  lemma {:induction false} PowerTimes(a: real, b: real, n: nat)
    ensures Mul(Power(a, n), Power(b, n)) == Power(Mul(a, b), n)
  {
    if n == 0 {
      assert Mul(1.0, 1.0) == 1.0;
    } else {
      PowerTimes(a, b, n - 1);
      FourFactors(a, Power(a, n - 1), b, Power(b, n - 1));
    }
  }

  lemma FourFactors(a: real, p: real, b: real, q: real)
    ensures Mul(Mul(a, p), Mul(b, q)) == Mul(Mul(a, b), Mul(p, q))
  {
    assert (a * p) * (b * q) == (a * b) * (p * q);
  }

  /** exp(z) and exp(-z) are reciprocal, but for at most z z / 4096. */
  lemma ExpReciprocal(z: real)
    requires 0.0 <= z <= 12.0
    ensures 1.0 - z * z / 4096.0 <= Exp(z) * Exp(-z) <= 1.0
  {
    hide Power;
    var h := z / 4096.0;
    var s := SquaredStep(z, h);
    PowerTimes(1.0 + h, 1.0 - h, STEPS);
    PowerBounds(1.0 - s, STEPS);
    Bernoulli(s, STEPS);
    assert Exp(z) == Power(1.0 + h, STEPS) && Exp(-z) == Power(1.0 - h, STEPS);
  }

  lemma SquaredStep(z: real, h: real) returns (s: real)
    requires 0.0 <= z <= 12.0 && h == z / 4096.0
    ensures 0.0 <= s <= 1.0 && Mul(1.0 + h, 1.0 - h) == 1.0 - s && 4096.0 * s == z * z / 4096.0
    ensures 1.0 + (-z) / 4096.0 == 1.0 - h
  {
    s := h * h;
    TimesNonNegative(h, h);
    Shrink(h, h);
    assert z == 4096.0 * h;
    assert z * z == 4096.0 * (4096.0 * s);
  }

  /** The value is zero exactly below the cut-off at -12. */
  lemma ExpCutOff(z: real)
    requires 0.0 <= z
    ensures Exp(-z) == 0.0 <==> z > 12.0
  {
    if z <= 12.0 {
      PowerPositive(1.0 + (-z) / 4096.0, STEPS);
    }
  }

  /** It never increases with z, even across the cut-off, ... */
  lemma ExpDecreases(z: real, z': real)
    requires 0.0 <= z <= z'
    ensures Exp(-z') <= Exp(-z)
  {
    if z' <= CUTOFF {
      BaseInRange(z);
      BaseInRange(z');
      PowerGrows(1.0 + (-z') / 4096.0, 1.0 + (-z) / 4096.0, STEPS);
    } else {
      ExpBounds(z);
    }
  }

  /** ... and on one side of the cut-off it falls by no more than z grows. */
  lemma ExpGentle(z: real, z': real)
    requires 0.0 <= z <= z' && (z' <= CUTOFF || z > CUTOFF)
    ensures Exp(-z) - Exp(-z') <= z' - z
  {
    if z' <= CUTOFF {
      BaseInRange(z);
      BaseInRange(z');
      PowerGrows(1.0 + (-z') / 4096.0, 1.0 + (-z) / 4096.0, STEPS);
      assert (STEPS as real) * ((1.0 + (-z) / 4096.0) - (1.0 + (-z') / 4096.0)) == z' - z;
    }
  }

  // ---------------------------------------------------------------------------
  // The waveform of the driver

  /** What a ramp that starts at 0 with slope one drives through the time constant rc. */
  function Ramp(t: real, rc: real): real
    requires rc > 0.0
  {
    if t <= 0.0 then 0.0 else Lagged(t, rc)
  }

  /** Its value while the ramp lasts. */
  function Lagged(t: real, rc: real): real
    requires rc > 0.0
  {
    t - Mul(rc, 1.0 - Exp((-t) / rc))
  }

  /** What a ramp from 0 to 1 in time dt that starts at t0 drives: by superposition, a ramp of
      slope 1 / dt and, dt later, its reverse. */
  function Response(t: real, t0: real, dt: real, rc: real): real
    requires rc > 0.0 && dt > 0.0
  {
    (Ramp(t - t0, rc) - Ramp(t - t0 - dt, rc)) / dt
  }

  /** The ramp itself. */
  function Driven(t: real, t0: real, dt: real): real
    requires dt > 0.0
  {
    if t <= t0 then 0.0 else if t - t0 <= dt then (t - t0) / dt else 1.0
  }

  method Y0(t: real, rd: real, cl: real) returns (y: real)
    requires rd * cl > 0.0
    ensures y == Lagged(t, rd * cl)
  {
    var e := Exp2((-t) / (rd * cl));
    y := t - Mul(rd * cl, 1.0 - e);
  }

  /** Whatever branch is taken, the result is the superposition of the two ramps, and it never
      gets ahead of the ramp that drives it. */
  method Y(t: real, t0: real, dt: real, rd: real, cl: real) returns (y: real, t1: real)
    requires rd * cl > 0.0 && dt > 0.0
    ensures t1 == t - t0 && y == Response(t, t0, dt, rd * cl) && y <= Driven(t, t0, dt)
  {
    t1 := t - t0;
    NeverLeads(t, t0, dt, rd * cl);
    if t1 <= 0.0 {
      return 0.0, t1;
    }
    if t1 <= dt {
      var a := Y0(t1, rd, cl);
      return a / dt, t1;
    }
    var a := Y0(t1, rd, cl);
    var b := Y0(t1 - dt, rd, cl);
    return (a - b) / dt, t1;
  }

  lemma Quotient(t: real, rc: real)
    requires rc > 0.0
    ensures (-t) / rc == -(t / rc) && Mul(rc, t / rc) == t && (t >= 0.0 ==> t / rc >= 0.0)
  {
  }

  lemma QuotientOrder(t: real, t': real, rc: real)
    requires rc > 0.0 && t <= t'
    ensures t / rc <= t' / rc
  {
  }

  lemma MulOrder(r: real, a: real, b: real)
    requires r > 0.0
    ensures Mul(r, a) <= Mul(r, b) <==> a <= b
  {
    if a <= b {
      assert r * (b - a) >= 0.0;
    } else {
      assert r * (a - b) > 0.0;
    }
  }

  /** The response to a ramp falls behind it by at least rc t / (rc + t), and by rc at most. */
  lemma RampLags(t: real, rc: real)
    requires rc > 0.0 && t > 0.0
    ensures t - rc <= Ramp(t, rc) && Ramp(t, rc) * (rc + t) <= t * t
    ensures rc * t / (rc + t) <= t - Ramp(t, rc) <= rc
  {
    var z := t / rc;
    assert (-t) / rc == -z && rc * z == t;
    ExpBounds(z);
    ExpBelow(z);
    LagAlgebra(t, rc, z, Exp(-z), Ramp(t, rc));
  }

  lemma LagAlgebra(t: real, rc: real, z: real, e: real, r: real)
    requires rc > 0.0 && t > 0.0 && rc * z == t && r == t - Mul(rc, 1.0 - e) && e * (1.0 + z) <= 1.0 && e >= 0.0
    ensures t - rc <= r && r * (rc + t) <= t * t && rc * t / (rc + t) <= t - r <= rc
  {
    assert rc * (e * (1.0 + z)) == e * (rc + t) by {
      assert rc * (e * (1.0 + z)) == e * (rc + rc * z);
    }
    TimesNonNegative(rc, 1.0 - e * (1.0 + z));
    assert rc * (1.0 - e * (1.0 + z)) == rc - rc * (e * (1.0 + z));
    TimesNonNegative(rc, e);
    var lag := rc - rc * e;
    assert lag * (rc + t) == rc * (rc + t) - rc * (e * (rc + t));
    TimesNonNegative(rc, rc - e * (rc + t));
    assert lag * (rc + t) >= rc * t;
    assert t - r == lag;
    assert r * (rc + t) == t * (rc + t) - lag * (rc + t);
    DivideBy(rc * t, rc + t, lag);
  }

  lemma DivideBy(x: real, y: real, q: real)
    requires y > 0.0 && x <= q * y
    ensures x / y <= q
  {
    assert (x / y) * y == x;
    if x / y > q {
      MulPositive(x / y - q, y);
    }
  }

  /** The ramp response lies between zero and the ramp. */
  lemma RampBounds(t: real, rc: real)
    requires t >= 0.0 && rc > 0.0
    ensures 0.0 <= Ramp(t, rc) <= t
  {
    Quotient(t, rc);
    ExpBounds(t / rc);
    MulOrder(rc, 0.0, 1.0 - Exp((-t) / rc));
    MulOrder(rc, 1.0 - Exp((-t) / rc), t / rc);
  }

  /** How much the response gains over dt. */
  lemma RampGain(t: real, dt: real, rc: real)
    requires rc > 0.0 && 0.0 < dt < t
    ensures Ramp(t, rc) - Ramp(t - dt, rc) == dt - Mul(rc, Exp((-(t - dt)) / rc) - Exp((-t) / rc))
  {
    var e, e' := Exp((-(t - dt)) / rc), Exp((-t) / rc);
    Distribute(rc, e, e');
  }

  lemma Distribute(r: real, a: real, b: real)
    ensures Mul(r, 1.0 - a) - Mul(r, 1.0 - b) == Mul(r, b - a)
  {
  }

  lemma Divided(x: real, dt: real)
    requires dt > 0.0
    ensures (x / dt <= 1.0 <==> x <= dt) && (x / dt >= 0.0 <==> x >= 0.0)
  {
  }

  /** The response never gets ahead of the ramp that drives it, so it never exceeds one. */
  lemma NeverLeads(t: real, t0: real, dt: real, rc: real)
    requires rc > 0.0 && dt > 0.0
    ensures Response(t, t0, dt, rc) <= Driven(t, t0, dt) <= 1.0
  {
    var t1 := t - t0;
    if 0.0 < t1 <= dt {
      RampBounds(t1, rc);
      QuotientOrder(Ramp(t1, rc), t1, dt);
      QuotientOrder(t1, dt, dt);
    } else if t1 > dt {
      RampGain(t1, dt, rc);
      Quotient(t1, rc);
      Quotient(t1 - dt, rc);
      QuotientOrder(t1 - dt, t1, rc);
      ExpDecreases((t1 - dt) / rc, t1 / rc);
      MulOrder(rc, 0.0, Exp((-(t1 - dt)) / rc) - Exp((-t1) / rc));
      Divided(Ramp(t1, rc) - Ramp(t1 - dt, rc), dt);
    }
  }

  /** Nor is it ever further behind than one time constant's share of the ramp, and twelve time
      constants after the ramp it has caught up. */
  lemma NeverFarBehind(t: real, t0: real, dt: real, rc: real)
    requires rc > 0.0 && dt > 0.0
    ensures Driven(t, t0, dt) - rc / dt <= Response(t, t0, dt, rc)
    ensures t - t0 - dt > 12.0 * rc ==> Response(t, t0, dt, rc) == 1.0
  {
    hide Ramp;
    var t1 := t - t0;
    QuotientOrder(0.0, rc, dt);
    if 0.0 < t1 <= dt {
      RampLags(t1, rc);
      assert Ramp(t1 - dt, rc) == 0.0 by {
        NotStarted(t1 - dt, rc);
      }
      QuotientOrder(t1 - rc, Ramp(t1, rc), dt);
      QuotientMinus(t1, rc, dt);
    } else if t1 > dt {
      GainLag(t1, dt, rc);
      QuotientOrder(dt - rc, Ramp(t1, rc) - Ramp(t1 - dt, rc), dt);
      QuotientMinus(dt, rc, dt);
    } else {
      NotStarted(t1, rc);
      NotStarted(t1 - dt, rc);
    }
  }

  lemma NotStarted(t: real, rc: real)
    requires rc > 0.0 && t <= 0.0
    ensures Ramp(t, rc) == 0.0
  {
  }

  /** After the ramp the two responses differ by all of it but for one time constant, and in the
      end by all of it. */
  lemma GainLag(t: real, dt: real, rc: real)
    requires rc > 0.0 && 0.0 < dt < t
    ensures dt - rc <= Ramp(t, rc) - Ramp(t - dt, rc)
    ensures t - dt > 12.0 * rc ==> Ramp(t, rc) - Ramp(t - dt, rc) == dt
  {
    hide Exp, Ramp;
    RampGain(t, dt, rc);
    Quotient(t, rc);
    Quotient(t - dt, rc);
    ExpBounds(t / rc);
    ExpBounds((t - dt) / rc);
    AtMostAll(rc, Exp((-(t - dt)) / rc) - Exp((-t) / rc));
    if t - dt > 12.0 * rc {
      PastCutOff(t - dt, rc);
      PastCutOff(t, rc);
      AtMostAll(rc, 0.0);
    }
  }

  lemma AtMostAll(rc: real, e: real)
    requires rc > 0.0
    ensures e <= 1.0 ==> Mul(rc, e) <= rc
    ensures e == 0.0 ==> Mul(rc, e) == 0.0
  {
    if e <= 1.0 {
      MulOrder(rc, e, 1.0);
      assert Mul(rc, 1.0) == rc;
    }
  }

  lemma QuotientMinus(a: real, b: real, d: real)
    requires d > 0.0
    ensures (a - b) / d == a / d - b / d && d / d == 1.0
  {
  }

  lemma PastCutOff(t: real, rc: real)
    requires rc > 0.0 && t > 12.0 * rc
    ensures Exp((-t) / rc) == 0.0
  {
    Quotient(t, rc);
    var z := t / rc;
    if z <= 12.0 {
      MulOrder(rc, z, 12.0);
    }
    ExpCutOff(z);
  }

  /** The cut-off falls between the two exponentials of the response. */
  predicate Straddles(t: real, t0: real, dt: real, rc: real)
    requires rc > 0.0
  {
    var t1 := t - t0;
    t1 > dt && (t1 - dt) / rc <= CUTOFF < t1 / rc
  }

  /** At a given time it is negative when the cut-off falls between its two exponentials and
      the part that is cut off outweighs the ramp. */
  lemma ResponseNegativeAt(t: real, t0: real, dt: real, rc: real)
    requires rc > 0.0 && dt > 0.0
    ensures Response(t, t0, dt, rc) >= 0.0 <==>
              !(Straddles(t, t0, dt, rc) && Mul(rc, Exp((-(t - t0 - dt)) / rc)) > dt)
  {
    var t1 := t - t0;
    if 0.0 < t1 <= dt {
      RampBounds(t1, rc);
      Divided(Ramp(t1, rc), dt);
    } else if t1 > dt {
      var z, z' := (t1 - dt) / rc, t1 / rc;
      RampGain(t1, dt, rc);
      Quotient(t1, rc);
      Quotient(t1 - dt, rc);
      QuotientOrder(t1 - dt, t1, rc);
      Divided(Ramp(t1, rc) - Ramp(t1 - dt, rc), dt);
      if !Straddles(t, t0, dt, rc) {
        ExpGentle(z, z');
        MulOrder(rc, Exp(-z) - Exp(-z'), z' - z);
        GapOf(rc, t1, dt);
      }
    }
  }

  lemma GapOf(rc: real, t1: real, dt: real)
    requires rc > 0.0
    ensures Mul(rc, t1 / rc - (t1 - dt) / rc) == dt
  {
    Quotient(t1, rc);
    Quotient(t1 - dt, rc);
    MulMinus(rc, t1 / rc, (t1 - dt) / rc);
  }

  lemma MulMinus(r: real, a: real, b: real)
    ensures Mul(r, a - b) == Mul(r, a) - Mul(r, b)
  {
  }

  lemma {:induction false} PowerPositive(b: real, n: nat)
    requires b > 0.0
    ensures Power(b, n) > 0.0
  {
    if n > 0 {
      PowerPositive(b, n - 1);
      MulPositive(b, Power(b, n - 1));
    }
  }

  /** The ramp is so short, in time constants, that the value at the cut-off outweighs it. */
  predicate TooShort(q: real) {
    q < CUTOFF && Exp(q - CUTOFF) > q
  }

  /** Just above the cut-off less q the exponential still outweighs q. */
  lemma ShortGap(q: real) returns (z: real)
    requires 0.0 < q && TooShort(q)
    ensures CUTOFF - q < z <= CUTOFF && Exp(-z) > q
  {
    hide Power;
    var gap := Exp(q - CUTOFF) - q;
    z := CUTOFF - q + if gap / 2.0 <= q then gap / 2.0 else q;
    ExpGentle(CUTOFF - q, z);
    assert -(CUTOFF - q) == q - CUTOFF;
  }

  /** A time at which the response to such a ramp is negative. */
  lemma ShortRampDips(t0: real, dt: real, rc: real) returns (t: real)
    requires rc > 0.0 && dt > 0.0 && TooShort(dt / rc)
    ensures Response(t, t0, dt, rc) < 0.0
  {
    hide Exp, Mul, Response;
    var q := dt / rc;
    Quotient(dt, rc);
    PositiveQuotient(dt, rc);
    var z := ShortGap(q);
    var lag := Mul(rc, z);
    t := t0 + dt + lag;
    MulSign(rc, z);
    Scales(rc, z, dt);
    MulOrder(rc, Exp(-z), q);
    assert t - t0 - dt == lag && t - t0 == dt + lag;
    assert (-(t - t0 - dt)) / rc == -z && (t - t0 - dt) / rc == z && (t - t0) / rc == q + z;
    assert Straddles(t, t0, dt, rc) && Mul(rc, Exp((-(t - t0 - dt)) / rc)) > dt;
    ResponseNegativeAt(t, t0, dt, rc);
  }

  lemma MulSign(r: real, z: real)
    requires r > 0.0 && z > 0.0
    ensures Mul(r, z) > 0.0
  {
    MulPositive(r, z);
  }

  lemma PositiveQuotient(dt: real, rc: real)
    requires rc > 0.0 && dt > 0.0
    ensures dt / rc > 0.0
  {
  }

  lemma Scales(rc: real, z: real, dt: real)
    requires rc > 0.0
    ensures (-Mul(rc, z)) / rc == -z && Mul(rc, z) / rc == z && (dt + Mul(rc, z)) / rc == dt / rc + z
  {
    assert Mul(rc, z) == rc * z;
    assert (rc * z) / rc == z;
  }

  /** The response is never negative, at any time, exactly when the ramp is not too short. */
  lemma ResponseNonNegative(t0: real, dt: real, rc: real)
    requires rc > 0.0 && dt > 0.0
    ensures (forall t :: Response(t, t0, dt, rc) >= 0.0) <==> !TooShort(dt / rc)
  {
    if TooShort(dt / rc) {
      var t := ShortRampDips(t0, dt, rc);
    } else {
      forall t
        ensures Response(t, t0, dt, rc) >= 0.0
      {
        LongRamp(t, t0, dt, rc);
      }
    }
  }

  lemma LongRamp(t: real, t0: real, dt: real, rc: real)
    requires rc > 0.0 && dt > 0.0 && !TooShort(dt / rc)
    ensures Response(t, t0, dt, rc) >= 0.0
  {
    ResponseNegativeAt(t, t0, dt, rc);
    var z, q := (t - t0 - dt) / rc, dt / rc;
    if Straddles(t, t0, dt, rc) {
      Quotient(t - t0 - dt, rc);
      Quotient(dt, rc);
      GapOf(rc, t - t0, dt);
      SumOfQuotients(t - t0 - dt, dt, rc);
      if q < CUTOFF {
        ExpDecreases(CUTOFF - q, z);
        assert -(CUTOFF - q) == q - CUTOFF;
      } else {
        ExpBounds(z);
      }
      MulOrder(rc, Exp(-z), q);
    }
  }

  lemma SumOfQuotients(a: real, b: real, rc: real)
    requires rc > 0.0
    ensures (a + b) / rc == a / rc + b / rc
  {
  }

  /** Such a ramp exists. */
  lemma ResponseDips() returns (t: real, dt: real)
    ensures dt > 0.0 && Response(t, 0.0, dt, 1.0) < 0.0
  {
    var e := Exp(-CUTOFF);
    PowerPositive(1.0 + (-CUTOFF) / 4096.0, STEPS);
    ExpBounds(CUTOFF);
    dt := e / 2.0;
    ExpDecreases(CUTOFF - dt, CUTOFF);
    assert dt / 1.0 == dt && -(CUTOFF - dt) == dt - CUTOFF;
    t := ShortRampDips(0.0, dt, 1.0);
  }
}
