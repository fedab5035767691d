/** The two-state Kalman filter (Kalman.cpp) over exact reals: angle and bias, with a 2x2 covariance. */
module KalmanFilter {
  import opened Arithmetic

  datatype Covariance = Covariance(p00: real, p01: real, p10: real, p11: real)

  const ZERO: Covariance := Covariance(0.0, 0.0, 0.0, 0.0)

  function Det(p: Covariance): real { p.p00 * p.p11 - p.p01 * p.p10 }

  /** Symmetric and positive semidefinite. */
  predicate Psd(p: Covariance) {
    p.p01 == p.p10 && p.p00 >= 0.0 && p.p11 >= 0.0 && Det(p) >= 0.0
  }

  datatype Tuning = Tuning(qAngle: real, qBias: real, r: real)
  {
    predicate Ok() { qAngle >= 0.0 && qBias >= 0.0 && r > 0.0 }
  }

  datatype Gain = Gain(k0: real, k1: real)

  datatype Estimate = Estimate(angle: real, bias: real, rate: real)

  // ----- Prediction and correction, as matrices -----

  /** F P F' + Q dt for the transition F = [[1, -dt], [0, 1]]. */
  function Predicted(p: Covariance, t: Tuning, dt: real): Covariance {
    Covariance(
      p.p00 - dt * p.p01 - dt * p.p10 + dt * dt * p.p11 + dt * t.qAngle,
      p.p01 - dt * p.p11,
      p.p10 - dt * p.p11,
      p.p11 + dt * t.qBias)
  }

  /** The innovation variance and the gain. */
  function Innovation(p: Covariance, r: real): real { p.p00 + r }

  function GainOf(p: Covariance, r: real): Gain
    requires Innovation(p, r) > 0.0
  {
    Gain(p.p00 / Innovation(p, r), p.p10 / Innovation(p, r))
  }

  /** The covariance of the error left by correcting with any gain `g`: (I - gH) P (I - gH)' + g r g'. */
  function Joseph(p: Covariance, g: Gain, r: real): Covariance {
    var a := 1.0 - g.k0;
    Covariance(
      a * a * p.p00 + g.k0 * g.k0 * r,
      a * (p.p01 - g.k1 * p.p00) + g.k0 * g.k1 * r,
      a * (p.p10 - g.k1 * p.p00) + g.k0 * g.k1 * r,
      p.p11 - g.k1 * p.p01 - g.k1 * p.p10 + g.k1 * g.k1 * p.p00 + g.k1 * g.k1 * r)
  }

  /** (I - KH) P, as the source computes it. */
  function Corrected(p: Covariance, g: Gain): Covariance {
    Covariance(p.p00 - g.k0 * p.p00, p.p01 - g.k0 * p.p01, p.p10 - g.k1 * p.p00, p.p11 - g.k1 * p.p01)
  }

  function NextCovariance(p: Covariance, t: Tuning, dt: real): Covariance
    requires Psd(p) && t.Ok() && dt >= 0.0
  {
    PredictKeepsPsd(p, t, dt);
    var q := Predicted(p, t, dt);
    Corrected(q, GainOf(q, t.r))
  }

  // ----- Arithmetic -----

  lemma PsdFacts(p: Covariance)
    requires Psd(p)
    ensures p.p00 >= 0.0 && p.p11 >= 0.0 && p.p01 == p.p10 && Det(p) >= 0.0
  {}

  lemma ZeroIsPsd()
    ensures Psd(ZERO)
  {
    assert 0.0 * 0.0 == 0.0;
  }

  // ----- Prediction -----

  /** The variance of angle - dt * bias. */
  function Sheared(p: Covariance, dt: real): real { p.p00 - dt * p.p01 - dt * p.p10 + dt * dt * p.p11 }

  lemma ShearIsVariance(p: Covariance, dt: real)
    requires Psd(p)
    ensures Sheared(p, dt) >= 0.0
  {
    ShearNonNegative(p.p00, p.p01, p.p11, dt);
  }

  lemma ShearNonNegative(a: real, b: real, c: real, dt: real)
    requires a >= 0.0 && c >= 0.0 && a * c - b * b >= 0.0
    ensures a - dt * b - dt * b + dt * dt * c >= 0.0
  {
    if c > 0.0 {
      ShearTimesC(a, b, c, dt);
      Square(b - dt * c);
      PositiveProduct(c, a - dt * b - dt * b + dt * dt * c);
    } else {
      assert a * c == 0.0;
      ZeroRow(b);
      assert dt * b == 0.0 && dt * dt * c == 0.0;
    }
  }

  lemma ShearTimesC(a: real, b: real, c: real, dt: real)
    ensures c * (a - dt * b - dt * b + dt * dt * c) == (a * c - b * b) + (b - dt * c) * (b - dt * c)
  {}

  lemma ZeroRow(b: real)
    requires b * b <= 0.0
    ensures b == 0.0
  {
    if b > 0.0 { Positive(b, b, b * b); }
    if b < 0.0 {
      assert (-b) * (-b) == b * b;
      Positive(-b, -b, b * b);
    }
  }

  lemma Positive(a: real, b: real, y: real)
    requires 0.0 < a <= b && a * b == y
    ensures y > 0.0
  {}

  lemma ShearKeepsDet(a: real, b: real, c: real, dt: real)
    ensures (a - dt * b - dt * b + dt * dt * c) * c - (b - dt * c) * (b - dt * c) == a * c - b * b
  {}

  lemma DiagonalNoise(a: real, b: real, c: real, x: real, y: real)
    requires a >= 0.0 && c >= 0.0 && x >= 0.0 && y >= 0.0 && a * c - b * b >= 0.0
    ensures (a + x) * (c + y) - b * b >= 0.0
  {
    Times(a, y); Times(x, c); Times(x, y);
    assert (a + x) * (c + y) == a * c + a * y + x * c + x * y;
  }

  /** The entries of a prediction: a sheared covariance with noise on its diagonal. */
  lemma PredictedEntries(p: Covariance, t: Tuning, dt: real)
    requires p.p01 == p.p10
    ensures var q, b := Predicted(p, t, dt), p.p01 - dt * p.p11;
            q.p00 == Sheared(p, dt) + dt * t.qAngle && q.p01 == b && q.p10 == b && q.p11 == p.p11 + dt * t.qBias
    ensures Sheared(p, dt) * p.p11 - Predicted(p, t, dt).p01 * Predicted(p, t, dt).p01 == Det(p)
  {
    ShearKeepsDet(p.p00, p.p01, p.p11, dt);
  }

  lemma PredictKeepsPsd(p: Covariance, t: Tuning, dt: real)
    requires Psd(p) && t.Ok() && dt >= 0.0
    ensures Psd(Predicted(p, t, dt)) && Innovation(Predicted(p, t, dt), t.r) > 0.0
  {
    hide Psd, Det, Sheared, Predicted;
    PsdFacts(p);
    ShearIsVariance(p, dt);
    PredictedEntries(p, t, dt);
    Times(dt, t.qAngle); Times(dt, t.qBias);
    NoisyIsPsd(Predicted(p, t, dt), Sheared(p, dt), p.p11, dt * t.qAngle, dt * t.qBias, Det(p));
    PsdFacts(Predicted(p, t, dt));
  }

  lemma NoisyIsPsd(q: Covariance, a: real, c: real, x: real, y: real, det: real)
    requires q.p01 == q.p10 && q.p00 == a + x && q.p11 == c + y && a >= 0.0 && c >= 0.0 && x >= 0.0 && y >= 0.0
    requires a * c - q.p01 * q.p01 == det && det >= 0.0
    ensures Psd(q)
  {
    DiagonalNoise(a, q.p01, c, x, y);
  }

  // ----- Correction -----

  /** What the two divisions of the gain give. */
  lemma GainFacts(p: Covariance, r: real)
    requires p.p01 == p.p10 && p.p00 >= 0.0 && r > 0.0
    ensures var g := GainOf(p, r);
            0.0 <= g.k0 < 1.0 && g.k0 * p.p00 + g.k0 * r == p.p00 && g.k1 * p.p00 + g.k1 * r == p.p01 &&
            g.k1 * p.p00 == g.k0 * p.p01
  {
    var s, g := p.p00 + r, GainOf(p, r);
    Cancel(p.p00, s); Cancel(p.p01, s);
    hide GainOf;
    GainTimes(g.k0, g.k1, p.p00, p.p01, r, s);
  }

  lemma GainTimes(k0: real, k1: real, a: real, b: real, r: real, s: real)
    requires a >= 0.0 && r > 0.0 && s == a + r && k0 * s == a && k1 * s == b
    ensures 0.0 <= k0 < 1.0 && k0 * a + k0 * r == a && k1 * a + k1 * r == b && k1 * a == k0 * b
  {
    NonNegative(k0, s, a);
    BelowOne(k0, s, r);
    assert k1 * (k0 * s) == k0 * (k1 * s);
  }

  lemma NonNegative(k: real, s: real, y: real)
    requires s > 0.0 && y >= 0.0 && k * s == y
    ensures k >= 0.0
  {}

  lemma BelowOne(k: real, s: real, r: real)
    requires s > 0.0 && r > 0.0 && k * s == s - r
    ensures k < 1.0
  {
    if k >= 1.0 { Times(k - 1.0, s); }
  }

  /** A correction scales the determinant by 1 - k0. */
  lemma DetScales(a: real, b: real, c: real, k0: real, k1: real)
    requires k1 * a == k0 * b
    ensures (a - k0 * a) * (c - k1 * b) - (b - k0 * b) * (b - k0 * b) == (1.0 - k0) * (a * c - b * b)
  {
    var k := 1.0 - k0;
    assert (k * a) * (c - k1 * b) == k * (a * c) - k * ((k1 * a) * b);
    assert k * ((k0 * b) * b) + (k * b) * (k * b) == k * (b * b);
  }

  /** The bias variance, scaled by the innovation variance. */
  lemma BiasVariance(a: real, b: real, c: real, r: real, k1: real)
    requires a >= 0.0 && c >= 0.0 && r > 0.0 && a * c - b * b >= 0.0 && k1 * a + k1 * r == b
    ensures c - k1 * b >= 0.0
  {
    Times(r, c);
    assert (k1 * b) * (a + r) == b * (k1 * a + k1 * r);
    assert (c - k1 * b) * (a + r) == (a * c - b * b) + r * c;
    NonNegative(c - k1 * b, a + r, (a * c - b * b) + r * c);
  }

  lemma CorrectedEntries(p: Covariance, g: Gain, r: real)
    requires Psd(p) && r > 0.0 && 0.0 <= g.k0 < 1.0
    requires g.k0 * p.p00 + g.k0 * r == p.p00 && g.k1 * p.p00 + g.k1 * r == p.p01 && g.k1 * p.p00 == g.k0 * p.p01
    ensures var c := Corrected(p, g);
            c.p00 == g.k0 * r && c.p01 == c.p10 && c.p11 >= 0.0 && Det(c) == (1.0 - g.k0) * Det(p)
  {
    DetScales(p.p00, p.p01, p.p11, g.k0, g.k1);
    BiasVariance(p.p00, p.p01, p.p11, r, g.k1);
  }

  lemma CorrectKeepsPsd(p: Covariance, r: real)
    requires Psd(p) && r > 0.0
    ensures Psd(Corrected(p, GainOf(p, r))) && Corrected(p, GainOf(p, r)).p00 < r
  {
    hide GainOf, Corrected, Det;
    GainFacts(p, r);
    var g := GainOf(p, r);
    CorrectedEntries(p, g, r);
    Times(1.0 - g.k0, Det(p));
    Times(g.k0, r);
    Below(g.k0, r);
  }

  lemma Below(k: real, r: real)
    requires k < 1.0 && r > 0.0
    ensures k * r < r
  {
    assert r - k * r == (1.0 - k) * r;
  }

  // ----- Optimality -----

  /** The source's covariance is the error covariance of its own gain ... */
  lemma CorrectedIsJoseph(p: Covariance, r: real)
    requires Psd(p) && r > 0.0
    ensures Corrected(p, GainOf(p, r)) == Joseph(p, GainOf(p, r), r)
  {
    GainFacts(p, r);
    var g := GainOf(p, r);
    hide GainOf;
    JosephTerms(p.p00, p.p01, r, g.k0, g.k1);
    JosephBias(p.p00, p.p01, p.p11, r, g.k1);
  }

  lemma JosephBias(a: real, b: real, c: real, r: real, k: real)
    requires k * a + k * r == b
    ensures c - k * b - k * b + k * k * a + k * k * r == c - k * b
  {
    assert k * (k * a + k * r) == k * k * a + k * k * r;
  }

  lemma JosephTerms(a: real, b: real, r: real, k0: real, k1: real)
    requires k0 * a + k0 * r == a && k1 * a + k1 * r == b && k1 * a == k0 * b
    ensures (1.0 - k0) * (1.0 - k0) * a + k0 * k0 * r == a - k0 * a
    ensures (1.0 - k0) * (b - k1 * a) + k0 * k1 * r == b - k0 * b
    ensures (1.0 - k0) * (b - k1 * a) + k0 * k1 * r == b - k1 * a
  {
    assert (1.0 - k0) * (1.0 - k0) * a + k0 * k0 * r == a - k0 * a - k0 * a + k0 * (k0 * a + k0 * r);
    assert (1.0 - k0) * (b - k1 * a) + k0 * k1 * r == b - k1 * a - k0 * b + k0 * (k1 * a + k1 * r);
  }

  /** ... and no other gain leaves a smaller variance of the angle or of the bias. */
  lemma GainIsOptimal(p: Covariance, r: real, g: Gain)
    requires Psd(p) && r > 0.0
    ensures Corrected(p, GainOf(p, r)).p00 <= Joseph(p, g, r).p00
    ensures Corrected(p, GainOf(p, r)).p11 <= Joseph(p, g, r).p11
  {
    var s := p.p00 + r;
    var k := GainOf(p, r);
    Cancel(p.p00, s); Cancel(p.p10, s);
    Excess(p.p00, p.p00, p.p00, r, k.k0, g.k0);
    Excess(p.p11, p.p01, p.p00, r, k.k1, g.k1);
    var h := g.k0;
    assert (1.0 - h) * (1.0 - h) * p.p00 + h * h * r == p.p00 - h * p.p00 - h * p.p00 + h * h * p.p00 + h * h * r;
  }

  /** Completing the square. */
  lemma Excess(v: real, b: real, a: real, r: real, k: real, g: real)
    requires a + r > 0.0 && k * (a + r) == b
    ensures v - k * b <= v - g * b - g * b + g * g * a + g * g * r
  {
    var s := a + r;
    Square(g - k);
    Times(s, (g - k) * (g - k));
    assert s * ((g - k) * (g - k)) == g * g * s - g * (k * s) - g * (k * s) + k * (k * s);
    assert g * g * s == g * g * a + g * g * r;
  }

  // ----- The object -----

  /** The angle projected ahead. */
  function Ahead(e: Estimate, newRate: real, dt: real): real { e.angle + dt * (newRate - e.bias) }

  /** The way from one value to another, to the given fraction. */
  function Blend(x: real, y: real, k: real): real { x + k * (y - x) }

  /** What one update of the estimate must do. */
  function NextEstimate(e: Estimate, g: Gain, newAngle: real, newRate: real, dt: real): Estimate {
    var a := Ahead(e, newRate, dt);
    Estimate(Blend(a, newAngle, g.k0), Shifted(e.bias, g.k1, newAngle - a), newRate - e.bias)
  }

  function Shifted(bias: real, k: real, y: real): real { bias + k * y }

  /** What the estimate is off by, when the angle moves at a rate that the gyro shows with a constant bias
      and the measurement is off by `noise`: the step takes the error ahead and weighs it by the gain. */
  lemma ErrorStep(e: Estimate, g: Gain, angle: real, bias: real, rate: real, noise: real, dt: real)
    ensures var there := angle + dt * rate;
            var n := NextEstimate(e, g, there + noise, rate + bias, dt);
            var off := (e.angle - angle) - dt * (e.bias - bias);
            n.angle - there == (1.0 - g.k0) * off + g.k0 * noise &&
            n.bias - bias == (e.bias - bias) - g.k1 * off + g.k1 * noise &&
            n.rate - rate == bias - e.bias
  {
    var there := angle + dt * rate;
    var off := (e.angle - angle) - dt * (e.bias - bias);
    var ahead := e.angle + dt * (rate + bias - e.bias);
    assert ahead - there == off by { Slopes(e.angle, angle, e.bias, bias, rate, dt); }
    WeighedError(ahead, there, off, noise, g.k0);
    ShiftedError(e.bias, ahead, there, off, noise, g.k1);
  }

  lemma Slopes(a: real, b: real, x: real, y: real, rate: real, dt: real)
    ensures (a + dt * (rate + y - x)) - (b + dt * rate) == (a - b) - dt * (x - y)
  {}

  lemma WeighedError(ahead: real, there: real, off: real, noise: real, k: real)
    requires ahead - there == off
    ensures Blend(ahead, there + noise, k) - there == (1.0 - k) * off + k * noise
  {
    assert there + noise - ahead == noise - off;
    assert k * (noise - off) == k * noise - k * off;
  }

  lemma ShiftedError(bias: real, ahead: real, there: real, off: real, noise: real, k: real)
    requires ahead - there == off
    ensures Shifted(bias, k, there + noise - ahead) == bias - k * off + k * noise
  {
    assert there + noise - ahead == noise - off;
  }

  /** The variance of `u` times the angle error plus `v` times the bias error. */
  function VarianceOf(p: Covariance, u: real, v: real): real {
    u * u * p.p00 + u * v * (p.p01 + p.p10) + v * v * p.p11
  }

  /** The prediction is the covariance of the error taken ahead, plus the process noise over the time step. */
  lemma PredictedMeans(p: Covariance, t: Tuning, dt: real, u: real, v: real)
    ensures VarianceOf(Predicted(p, t, dt), u, v) ==
            VarianceOf(p, u, v - dt * u) + dt * (t.qAngle * (u * u) + t.qBias * (v * v))
  {
    PredictedIs(p.p00, p.p01, p.p10, p.p11, t.qAngle, t.qBias, t.r, dt);
    hide Predicted;
    VarianceTerms(p.p00, p.p01, p.p10, p.p11, t.qAngle, t.qBias, dt, u, v, v - dt * u);
  }

  lemma VarianceTerms(a: real, b: real, c: real, d: real, qa: real, qb: real, dt: real, u: real, v: real, w: real)
    requires w == v - dt * u
    ensures u * u * (a + dt * (dt * d - b - c + qa)) + u * v * ((b - dt * d) + (c - dt * d)) + v * v * (d + qb * dt) ==
            u * u * a + u * w * (b + c) + w * w * d + dt * (qa * (u * u) + qb * (v * v))
  {
    assert u * w == u * v - dt * (u * u);
    assert w * w == v * v - 2.0 * (dt * (u * v)) + dt * dt * (u * u);
    ExpandVariance(a, b + c, d, qa, qb, dt, u * u, u * v, v * v, u * w, w * w);
  }

  lemma ExpandVariance(a: real, s: real, d: real, qa: real, qb: real, dt: real, uu: real, uv: real, vv: real, uw: real, ww: real)
    requires uw == uv - dt * uu && ww == vv - 2.0 * (dt * uv) + dt * dt * uu
    ensures uu * (a + dt * (dt * d - s + qa)) + uv * (s - 2.0 * (dt * d)) + vv * (d + qb * dt) ==
            uu * a + uw * s + ww * d + dt * (qa * uu + qb * vv)
  {}

  lemma StepsAre(angle: real, bias: real, newAngle: real, k0: real, k1: real, y: real)
    requires y == newAngle - angle
    ensures Blend(angle, newAngle, k0) == angle + k0 * y && Shifted(bias, k1, y) == bias + k1 * y
  {}

  class Kalman {
    var qAngle: real
    var qBias: real
    var rMeasure: real
    var angle: real
    var bias: real
    var rate: real
    var p00: real
    var p01: real
    var p10: real
    var p11: real

    ghost function P(): Covariance
      reads this
    {
      Covariance(p00, p01, p10, p11)
    }

    ghost function Tuned(): Tuning
      reads this
    {
      Tuning(qAngle, qBias, rMeasure)
    }

    ghost function State(): Estimate
      reads this
    {
      Estimate(angle, bias, rate)
    }

    ghost predicate Valid()
      reads this
    {
      Psd(P()) && Tuned().Ok()
    }

    constructor ()
      ensures Valid() && P() == ZERO && Tuned() == Tuning(0.001, 0.003, 0.03)
      ensures angle == 0.0 && bias == 0.0
    {
      hide Psd;
      ZeroIsPsd();
      qAngle, qBias, rMeasure := 0.001, 0.003, 0.03;
      angle, bias, rate := 0.0, 0.0, 0.0;
      p00, p01, p10, p11 := 0.0, 0.0, 0.0, 0.0;
    }

    /** `getAngle`: the covariance step keeps the filter valid and ends below the measurement noise;
        the returned angle lies between the predicted and the measured one. */
    method GetAngle(newAngle: real, newRate: real, dt: real) returns (r: real)
      requires Valid() && dt >= 0.0
      modifies this`angle, this`bias, this`rate, this`p00, this`p01, this`p10, this`p11
      ensures Valid() && P() == NextCovariance(old(P()), Tuned(), dt) && p00 < rMeasure
      ensures Innovation(Predicted(old(P()), Tuned(), dt), rMeasure) > 0.0
      ensures State() == NextEstimate(old(State()), GainOf(Predicted(old(P()), Tuned(), dt), rMeasure), newAngle, newRate, dt)
      ensures r == angle && Between(r, Ahead(old(State()), newRate, dt), newAngle)
    {
      hide Psd, Predicted, Corrected, Between, Ahead, Blend, Shifted, GainOf;
      ghost var before := State();
      PredictKeepsPsd(P(), Tuned(), dt);
      ProjectAngle(newRate, dt);
      PredictStep(dt);
      ghost var q := P();
      CorrectKeepsPsd(q, rMeasure);
      PsdFacts(q);
      GainFacts(q, rMeasure);
      var k0, k1 := ComputeGain();
      Interpolates(angle, newAngle, k0);
      CorrectEstimate(newAngle, k0, k1);
      CorrectStep(k0, k1);
      ghost var e := NextEstimate(before, GainOf(q, rMeasure), newAngle, newRate, dt);
      assert angle == e.angle && bias == e.bias && rate == e.rate;
      r := angle;
    }

    method ProjectAngle(newRate: real, dt: real)
      modifies this`angle, this`rate
      ensures angle == Ahead(old(State()), newRate, dt) && rate == newRate - old(bias)
    {
      rate := newRate - bias;
      angle := angle + dt * rate;
    }

    method CorrectEstimate(newAngle: real, k0: real, k1: real)
      modifies this`angle, this`bias
      ensures angle == Blend(old(angle), newAngle, k0) && bias == Shifted(old(bias), k1, newAngle - old(angle))
    {
      hide Blend, Shifted;
      var y := newAngle - angle;
      StepsAre(angle, bias, newAngle, k0, k1, y);
      angle := angle + k0 * y;
      bias := bias + k1 * y;
    }

    method PredictStep(dt: real)
      modifies this`p00, this`p01, this`p10, this`p11
      ensures P() == Predicted(old(P()), Tuned(), dt)
    {
      hide Predicted;
      ghost var q := Predicted(P(), Tuned(), dt);
      PredictedIs(p00, p01, p10, p11, qAngle, qBias, rMeasure, dt);
      p00 := p00 + dt * (dt * p11 - p01 - p10 + qAngle);
      p01 := p01 - dt * p11;
      p10 := p10 - dt * p11;
      p11 := p11 + qBias * dt;
      assert p00 == q.p00 && p01 == q.p01 && p10 == q.p10 && p11 == q.p11;
    }

    /** The Kalman gain of the projected covariance. */
    method ComputeGain() returns (k0: real, k1: real)
      requires Innovation(P(), rMeasure) > 0.0
      ensures Gain(k0, k1) == GainOf(P(), rMeasure)
    {
      var s := p00 + rMeasure;
      k0, k1 := p00 / s, p10 / s;
    }

    method CorrectStep(k0: real, k1: real)
      modifies this`p00, this`p01, this`p10, this`p11
      ensures P() == Corrected(old(P()), Gain(k0, k1))
    {
      var t00, t01 := p00, p01;
      p00 := p00 - k0 * t00;
      p01 := p01 - k0 * t01;
      p10 := p10 - k1 * t00;
      p11 := p11 - k1 * t01;
    }
  }

  predicate Between(x: real, a: real, b: real) { (a <= x <= b) || (b <= x <= a) }

  lemma PredictedIs(a: real, b: real, c: real, d: real, qAngle: real, qBias: real, r: real, dt: real)
    ensures var q := Predicted(Covariance(a, b, c, d), Tuning(qAngle, qBias, r), dt);
            q.p00 == a + dt * (dt * d - b - c + qAngle) && q.p01 == b - dt * d && q.p10 == c - dt * d &&
            q.p11 == d + qBias * dt
  {}

  lemma Interpolates(a: real, b: real, k: real)
    requires 0.0 <= k < 1.0
    ensures Between(Blend(a, b, k), a, b)
  {
    if b >= a {
      Times(k, b - a); Times(1.0 - k, b - a);
    } else {
      Times(k, a - b); Times(1.0 - k, a - b);
    }
  }

  // ----- Runs -----

  datatype Input = Input(t: Tuning, dt: real)

  /** The covariance after a run of updates, with the tuning changed at will in between. */
  function Run(inputs: seq<Input>): Covariance
    requires forall i :: 0 <= i < |inputs| ==> inputs[i].t.Ok() && inputs[i].dt >= 0.0
    ensures Psd(Run(inputs))
  {
    if inputs == [] then ZeroIsPsd(); ZERO
    else
      var n := |inputs| - 1;
      var p := Run(inputs[..n]);
      var t, dt := inputs[n].t, inputs[n].dt;
      PredictKeepsPsd(p, t, dt);
      CorrectKeepsPsd(Predicted(p, t, dt), t.r);
      NextCovariance(p, t, dt)
  }

  /** After any run the filter knows the angle better than one measurement tells it. */
  lemma {:induction false} RunBelowNoise(inputs: seq<Input>)
    requires inputs != [] && forall i :: 0 <= i < |inputs| ==> inputs[i].t.Ok() && inputs[i].dt >= 0.0
    ensures Psd(Run(inputs)) && Run(inputs).p00 < inputs[|inputs| - 1].t.r
  {
    hide Psd, Predicted, Corrected;
    var n := |inputs| - 1;
    var t, dt := inputs[n].t, inputs[n].dt;
    PredictKeepsPsd(Run(inputs[..n]), t, dt);
    CorrectKeepsPsd(Predicted(Run(inputs[..n]), t, dt), t.r);
  }
}
