/** When the stick curves grow: exactly, for every rate type and every setting. */
module RateGrowth {
  import opened Arithmetic
  import opened RateCurves

  // ----- Factors that grow -----

  lemma Mono3(k: real, a: real, b: real, c: real, d: real)
    requires 0.0 <= k && 0.0 <= a <= b && 0.0 <= c <= d
    ensures 0.0 <= k * a * c <= k * b * d
  {
    Mono(k, k, a, b);
    Mono(k * a, k * b, c, d);
  }

  lemma Reciprocal(a: real, b: real)
    requires 0.0 < a <= b
    ensures 0.0 < 1.0 / b <= 1.0 / a
  {}

  /** The less of the stick is left, the more it is raised; a negative use raises nothing. */
  lemma SuperGrows(u: real, v: real)
    requires u <= v
    ensures 1.0 <= Super(u) <= Super(v)
  {
    Reciprocal(Clamp(1.0 - v, 0.01, 1.0), Clamp(1.0 - u, 0.01, 1.0));
    Reciprocal(Clamp(1.0 - u, 0.01, 1.0), 1.0);
  }

  lemma UsedGrows(a: Axis, d: real, f: real)
    requires 0.0 <= d <= f
    ensures 0.0 <= Used(a, d) <= Used(a, f) && 1.0 <= RaceflightBoost(a, d) <= RaceflightBoost(a, f)
  {
    Mono(d, f, a.rate as real / 100.0, a.rate as real / 100.0);
    Mono(d, f, a.rate as real, a.rate as real);
  }

  lemma PowersGrow(d: real, f: real)
    requires 0.0 <= d <= f
    ensures 0.0 <= Power2(d) <= Power2(f) && 0.0 <= Power3(d) <= Power3(f) && 0.0 <= Power4(d) <= Power4(f)
  {
    Mono(d, f, d, f);
    Mono(d * d, f * f, d, f);
    Mono(d * d * d, f * f * f, d, f);
  }

  lemma BlendGrows(e: real, p: real, q: real)
    requires 0.0 <= e <= 1.0 && 0.0 <= p <= q
    ensures 0.0 <= Blend(e, p) <= Blend(e, q)
  {
    Mono(p, q, e, e);
  }

  lemma QuickShareIsShare(a: Axis)
    requires a.rcRate > 0
    ensures 0.0 <= QuickShare(a)
  {
    var rcRate := a.rcRate as real * 2.0;
    var maxDps := if a.rate as real * 10.0 < rcRate then rcRate else a.rate as real * 10.0;
    Ratio(maxDps, rcRate);
    Quotient(maxDps / rcRate - 1.0, maxDps / rcRate);
  }

  lemma Ratio(x: real, y: real)
    requires 0.0 < y <= x
    ensures x / y >= 1.0
  {
    Cancel(x, y);
    var q := x / y;
    if q < 1.0 { Strictly(1.0 - q, y); }
  }

  lemma Quotient(x: real, y: real)
    requires 0.0 <= x && 0.0 < y
    ensures 0.0 <= x / y
  {
    Cancel(x, y);
    var q := x / y;
    if q < 0.0 { Strictly(-q, y); }
  }

  lemma RatesAreRates(a: Axis)
    ensures BetaflightRate(a) >= 0.0 && Movement(a) >= 0.0 && (a.rcRate == 0 ==> BetaflightRate(a) == 0.0)
    ensures a.rcRate > 0 ==> BetaflightRate(a) > 0.0
  {}

  // ----- Gains that grow -----

  /** With an expo of at most 100, every gain is nonnegative and grows with the deflection. */
  lemma GainGrows(t: RateType, a: Axis, d: real, f: real)
    requires 0.0 <= d <= f && (a.expo <= 100 || t.Quick?)
    ensures 0.0 <= Gain(t, a, d) <= Gain(t, a, f)
  {
    hide Gain, Super, Used, Blend, Power2, Power3, Power4;
    var e := Expo(a);
    PowersGrow(d, f);
    UsedGrows(a, d, f);
    SuperGrows(Used(a, d), Used(a, f));
    if t.Quick? {
      QuickGrows(a, d, f);
    } else {
      BlendGrows(e, Power2(d), Power2(f));
      BlendGrows(e, Power3(d), Power3(f));
      BlendGrows(e, Power4(d), Power4(f));
      hide Expo;
      match t
      case Betaflight => BetaflightGrows(a, d, f);
      case Raceflight => RaceflightGrows(a, d, f);
      case Kiss => KissGrows(a, d, f);
      case Actual => ActualGrows(a, d, f);
    }
  }

  lemma BetaflightGrows(a: Axis, d: real, f: real)
    requires 0.0 <= Blend(Expo(a), Power3(d)) <= Blend(Expo(a), Power3(f))
    requires 0.0 <= Super(Used(a, d)) <= Super(Used(a, f))
    ensures 0.0 <= Gain(Betaflight, a, d) <= Gain(Betaflight, a, f)
  {
    hide Super, Used, Blend, Expo, Power3, BetaflightRate;
    RatesAreRates(a);
    Mono3(200.0 * BetaflightRate(a), Blend(Expo(a), Power3(d)), Blend(Expo(a), Power3(f)),
          Super(Used(a, d)), Super(Used(a, f)));
  }

  lemma RaceflightGrows(a: Axis, d: real, f: real)
    requires 0.0 <= Blend(Expo(a), Power2(d)) <= Blend(Expo(a), Power2(f))
    requires 0.0 <= RaceflightBoost(a, d) <= RaceflightBoost(a, f)
    ensures 0.0 <= Gain(Raceflight, a, d) <= Gain(Raceflight, a, f)
  {
    hide RaceflightBoost, Blend, Expo, Power2;
    Mono3(10.0 * a.rcRate as real, Blend(Expo(a), Power2(d)), Blend(Expo(a), Power2(f)),
          RaceflightBoost(a, d), RaceflightBoost(a, f));
  }

  lemma KissGrows(a: Axis, d: real, f: real)
    requires 0.0 <= Blend(Expo(a), Power2(d)) <= Blend(Expo(a), Power2(f))
    requires 0.0 <= Super(Used(a, d)) <= Super(Used(a, f))
    ensures 0.0 <= Gain(Kiss, a, d) <= Gain(Kiss, a, f)
  {
    hide Super, Used, Blend, Expo, Power2;
    Mono3(2.0 * a.rcRate as real, Blend(Expo(a), Power2(d)), Blend(Expo(a), Power2(f)),
          Super(Used(a, d)), Super(Used(a, f)));
  }

  lemma ActualGrows(a: Axis, d: real, f: real)
    requires 0.0 <= d <= f && 0.0 <= Blend(Expo(a), Power4(d)) <= Blend(Expo(a), Power4(f))
    ensures 0.0 <= Gain(Actual, a, d) <= Gain(Actual, a, f)
  {
    hide Movement, Blend, Expo, Power4;
    RatesAreRates(a);
    Mono(d, f, Blend(Expo(a), Power4(d)), Blend(Expo(a), Power4(f)));
    Mono(Movement(a), Movement(a), d * Blend(Expo(a), Power4(d)), f * Blend(Expo(a), Power4(f)));
  }

  /** QUICK grows whatever its expo: where more expo bends its curve below zero, nothing is raised. */
  lemma QuickGrows(a: Axis, d: real, f: real)
    requires 0.0 <= d <= f
    ensures 0.0 <= Gain(Quick, a, d) <= Gain(Quick, a, f)
  {
    hide Super, QuickUse;
    if a.rcRate > 0 {
      QuickUseGrows(a, d, f);
      var u, v := QuickUse(a, d), QuickUse(a, f);
      SuperGrows(if u < 0.0 then 0.0 else u, if v < 0.0 then 0.0 else v);
      NoUse(QuickUse(a, d));
      NoUse(QuickUse(a, f));
      Mono(a.rcRate as real * 2.0, a.rcRate as real * 2.0, Super(QuickUse(a, d)), Super(QuickUse(a, f)));
    }
  }

  lemma NoUse(u: real)
    ensures u < 0.0 ==> Super(u) == Super(0.0)
  {}

  lemma BlendRises(e: real, p: real, q: real)
    requires 0.0 <= e && p <= q
    ensures Blend(e, p) <= Blend(e, q)
  {
    Scaled(e, p, q);
  }

  /** Once the curve is above zero it stays there and grows. */
  lemma MixedGrows(e: real, d: real, f: real)
    requires 0.0 <= e && 0.0 <= d <= f && Mixed(e, Power3(d), d) > 0.0
    ensures Mixed(e, Power3(d), d) <= Mixed(e, Power3(f), f)
  {
    hide Mixed, Blend, Power2, Power3;
    var b, c := Blend(e, Power2(d)), Blend(e, Power2(f));
    MixedAsBlend(e, d);
    MixedAsBlend(e, f);
    PowersGrow(d, f);
    BlendRises(e, Power2(d), Power2(f));
    assert d == 0.0 ==> d * b == 0.0;
    PositiveProduct(d, b);
    Mono(d, f, b, c);
  }

  lemma MixedAsBlend(e: real, d: real)
    ensures Mixed(e, Power3(d), d) == d * Blend(e, Power2(d))
  {
    MixedIsBlend(e, Power3(d), d, Power2(d));
  }

  lemma QuickUseGrows(a: Axis, d: real, f: real)
    requires 0.0 <= d <= f && a.rcRate > 0
    ensures QuickUse(a, d) > 0.0 ==> QuickUse(a, d) <= QuickUse(a, f)
  {
    hide QuickShare, Expo, Power3, Mixed;
    QuickShareIsShare(a);
    ExpoNonnegative(a);
    var u, k := Mixed(Expo(a), Power3(d), d), QuickShare(a);
    if u * k > 0.0 {
      SignOf(u, k);
      MixedGrows(Expo(a), d, f);
      Scaled(k, u, Mixed(Expo(a), Power3(f), f));
    }
  }

  lemma SignOf(u: real, k: real)
    requires u * k > 0.0 && k >= 0.0
    ensures u > 0.0
  {
    if u <= 0.0 { Times(-u, k); }
  }

  lemma ExpoNonnegative(a: Axis)
    ensures Expo(a) >= 0.0
  {}

  // ----- ACTUAL beyond full expo -----

  /** How far ACTUAL has turned at a deflection, for centre sensitivity `c`, stick movement `m` and
      `h` = expo - 1. */
  function Travel(c: real, m: real, h: real, d: real): real {
    d * (c + m * (d * Blend(h + 1.0, Power4(d))))
  }

  /** Its slope. */
  function Slope(c: real, m: real, h: real, d: real): real {
    c + m * (6.0 * (h + 1.0) * Power5(d) - 2.0 * h * d)
  }

  /** The sum of d^(5-i) f^i around the middle of d and f. */
  function Sum6(mid: real, half: real): real {
    6.0 * Power5(mid) + 20.0 * Power3(mid) * Power2(half) + 6.0 * mid * Power4(half)
  }

  /** A difference of travels, by the middle and half the distance of the two deflections. */
  lemma TravelDifference(c: real, m: real, h: real, mid: real, half: real, x: real, y: real, g: real)
    requires x == mid - half && y == mid + half && g == c + m * ((h + 1.0) * Sum6(mid, half) - 2.0 * h * mid)
    ensures Travel(c, m, h, y) - Travel(c, m, h, x) == 2.0 * half * g
  {
    hide Travel, Power2, Power6, Sum6;
    TravelTerms(c, m, h, x);
    TravelTerms(c, m, h, y);
    SixthPowers(mid, half);
    SecondPowers(mid, half);
    Collect(c, m, h, mid, half, x, y, g, Power6(y), Power6(x), Power2(x), Power2(y), Sum6(mid, half));
  }

  lemma SecondPowers(a: real, b: real)
    ensures Power2(a + b) - Power2(a - b) == 4.0 * a * b
  {}

  lemma Collect(c: real, m: real, h: real, mid: real, half: real, x: real, y: real, g: real,
                p: real, q: real, xx: real, yy: real, t: real)
    requires x == mid - half && y == mid + half && g == c + m * ((h + 1.0) * t - 2.0 * h * mid)
    requires p - q == 2.0 * half * t && yy - xx == 4.0 * mid * half
    ensures (c * y + m * ((h + 1.0) * p - h * yy)) - (c * x + m * ((h + 1.0) * q - h * xx)) == 2.0 * half * g
  {
    assert p == q + 2.0 * half * t && yy == xx + 4.0 * mid * half;
    CollectTerms(c, m, h, mid, half, q, xx, t);
  }

  lemma CollectTerms(c: real, m: real, h: real, mid: real, half: real, q: real, xx: real, t: real)
    ensures (c * (mid + half) + m * ((h + 1.0) * (q + 2.0 * half * t) - h * (xx + 4.0 * mid * half))) -
            (c * (mid - half) + m * ((h + 1.0) * q - h * xx)) ==
            2.0 * half * (c + m * ((h + 1.0) * t - 2.0 * h * mid))
  {}

  function Power6(d: real): real { d * d * d * d * d * d }

  lemma TravelTerms(c: real, m: real, h: real, d: real)
    ensures Travel(c, m, h, d) == c * d + m * ((h + 1.0) * Power6(d) - h * Power2(d))
  {
    var p := Power4(d);
    assert Power6(d) == d * d * p;
    hide Power4, Power6;
    assert d * (m * (d * (p * (h + 1.0) + (1.0 - (h + 1.0))))) == m * ((h + 1.0) * (d * d * p) - h * (d * d));
  }

  lemma SixthPowers(a: real, b: real)
    ensures Power6(a + b) - Power6(a - b) == 2.0 * b * Sum6(a, b)
  {
    hide Power6, Sum6;
    var u, v := a * a + b * b, a * b;
    Cubes(a + b, u + 2.0 * v);
    Cubes(a - b, u - 2.0 * v);
    CubesApart(u, v);
    SumIsCubes(a, b, u, v);
  }

  lemma Cubes(d: real, s: real)
    requires s == d * d
    ensures Power6(d) == s * s * s
  {}

  lemma CubesApart(u: real, v: real)
    ensures (u + 2.0 * v) * (u + 2.0 * v) * (u + 2.0 * v) - (u - 2.0 * v) * (u - 2.0 * v) * (u - 2.0 * v) ==
            v * (12.0 * u * u + 16.0 * v * v)
  {}

  lemma SumIsCubes(a: real, b: real, u: real, v: real)
    requires u == a * a + b * b && v == a * b
    ensures v * (12.0 * u * u + 16.0 * v * v) == 2.0 * b * Sum6(a, b)
  {}

  /** The condition under which ACTUAL turns back, for an expo above one. */
  predicate Dips(c: real, m: real, h: real) {
    15.0 * (h + 1.0) * Power4(c) < h * Power4(1.6 * h * m)
  }

  /** The inequality of arithmetic and geometric mean, for one factor and four equal ones. */
  lemma FiveFactors(p: real, q: real)
    requires p >= 0.0 && q >= 0.0
    ensures q * Power4(p) <= 0.08192 * Power5(p + q)
  {
    var k := 0.00512 * Power3(q) + 0.02816 * (Power2(q) * p) + 0.06496 * (q * Power2(p)) + 0.08192 * Power3(p);
    FiveFactorsGap(p, q);
    PowersGrow(0.0, p);
    PowersGrow(0.0, q);
    Times(Power2(q), p);
    Times(q, Power2(p));
    Square(p - 4.0 * q);
    Times((p - 4.0 * q) * (p - 4.0 * q), k);
  }

  lemma FiveFactorsGap(p: real, q: real)
    ensures 0.08192 * Power5(p + q) - q * Power4(p) == (p - 4.0 * q) * (p - 4.0 * q) *
            (0.00512 * Power3(q) + 0.02816 * (Power2(q) * p) + 0.06496 * (q * Power2(p)) + 0.08192 * Power3(p))
  {}

  lemma ProductGrows(a: real, b: real, c: real, d: real)
    requires 0.0 <= a < b && 0.0 <= c < d
    ensures 0.0 <= a * c < b * d
  {
    Times(a, c);
    Strictly(b - a, d);
    Times(a, d - c);
    assert b * d - a * c == (b - a) * d + a * (d - c);
  }

  lemma SquareGrows(a: real, b: real)
    requires 0.0 <= a < b
    ensures 0.0 <= a * a < b * b
  {
    ProductGrows(a, b, a, b);
  }

  lemma Power4Grows(a: real, b: real)
    requires 0.0 <= a < b
    ensures Power4(a) < Power4(b)
  {
    SquareGrows(a, b);
    SquareGrows(a * a, b * b);
    assert Power4(a) == (a * a) * (a * a) && Power4(b) == (b * b) * (b * b);
  }

  lemma Power4Product(x: real, y: real)
    ensures Power4(x * y) == Power4(x) * Power4(y)
  {}

  /** Where the travel is as steep downwards as it gets. */
  lemma SlopeNonNegative(c: real, m: real, h: real, d: real)
    requires c >= 0.0 && m >= 0.0 && h > 0.0 && d >= 0.0 && !Dips(c, m, h)
    ensures Slope(c, m, h, d) >= 0.0
  {
    hide Power4, Power5, Slope;
    var z := (h + 1.0) * Power4(d);
    var w := 2.0 * h - 6.0 * z;
    var g := m * d * w;
    SlopeIs(c, m, h, d, z);
    PowersGrow(0.0, d);
    Times(h + 1.0, Power4(d));
    if g > c {
      Times(m, d);
      PositiveFactor(m * d, w);
      Power4Grows(c, g);
      FiveFactors(w / 2.0, 3.0 * z);
      assert w / 2.0 + 3.0 * z == h;
      SteepestIs(m, d, w, h, z, g);
      Contradicts(15.0 * (h + 1.0), Power4(g), Power4(c), h * Power4(1.6 * h * m));
    }
  }

  lemma Contradicts(k: real, x: real, y: real, limit: real)
    requires k > 0.0 && x > y
    ensures k * x > k * y && !(k * x <= limit <= k * y)
  {
    Strictly(k, x - y);
    assert k * x - k * y == k * (x - y);
  }

  lemma PositiveFactor(a: real, b: real)
    requires a >= 0.0 && a * b > 0.0
    ensures b > 0.0
  {
    if b <= 0.0 { Times(a, -b); }
  }

  lemma SlopeIs(c: real, m: real, h: real, d: real, z: real)
    requires z == (h + 1.0) * Power4(d)
    ensures Slope(c, m, h, d) == c - m * d * (2.0 * h - 6.0 * z)
  {
    assert Power5(d) == d * Power4(d);
    hide Power4, Power5;
    var p := Power4(d);
    assert m * (6.0 * (h + 1.0) * (d * p) - 2.0 * h * d) == -(m * d * (2.0 * h - 6.0 * ((h + 1.0) * p)));
  }

  lemma SteepestIs(m: real, d: real, w: real, h: real, z: real, g: real)
    requires z == (h + 1.0) * Power4(d) && g == m * d * w && m >= 0.0
    requires 3.0 * z * Power4(w / 2.0) <= 0.08192 * Power5(h)
    ensures 15.0 * (h + 1.0) * Power4(g) <= h * Power4(1.6 * h * m)
  {
    assert Power4(w / 2.0) == Power4(w) / 16.0;
    assert Power4(1.6 * h) == 6.5536 * Power4(h) && Power5(h) == h * Power4(h);
    Power4Product(m, d);
    Power4Product(m * d, w);
    Power4Product(1.6 * h, m);
    PowersGrow(0.0, m);
    hide Power4, Power5;
    SteepestTerms(Power4(m), Power4(d), Power4(w), Power4(h), h, z);
  }

  lemma SteepestTerms(m: real, d: real, w: real, p: real, h: real, z: real)
    requires m >= 0.0 && z == (h + 1.0) * d && 3.0 * z * (w / 16.0) <= 0.08192 * (h * p)
    ensures 15.0 * (h + 1.0) * (m * d * w) <= h * (6.5536 * p * m)
  {
    Scaled(m, 15.0 * z * w, 6.5536 * (h * p));
    assert m * (15.0 * z * w) == 15.0 * (h + 1.0) * (m * d * w);
    assert m * (6.5536 * (h * p)) == h * (6.5536 * p * m);
  }

  lemma TravelGrows(c: real, m: real, h: real, x: real, y: real)
    requires c >= 0.0 && m >= 0.0 && h > 0.0 && 0.0 <= x <= y && !Dips(c, m, h)
    ensures Travel(c, m, h, x) <= Travel(c, m, h, y)
  {
    hide Travel, Slope, Sum6, Dips;
    var mid, half := (x + y) / 2.0, (y - x) / 2.0;
    SlopeNonNegative(c, m, h, mid);
    SteeperThanSlope(c, m, h, mid, half);
    var g := c + m * ((h + 1.0) * Sum6(mid, half) - 2.0 * h * mid);
    TravelDifference(c, m, h, mid, half, x, y, g);
    Times(2.0 * half, g);
  }

  lemma SteeperThanSlope(c: real, m: real, h: real, mid: real, half: real)
    requires m >= 0.0 && h > 0.0 && mid >= 0.0 && half >= 0.0
    ensures c + m * ((h + 1.0) * Sum6(mid, half) - 2.0 * h * mid) >= Slope(c, m, h, mid)
  {
    PowersGrow(0.0, mid);
    PowersGrow(0.0, half);
    Times(Power3(mid), Power2(half));
    Times(mid, Power4(half));
    hide Power2, Power3, Power4, Power5;
    Scaled(h + 1.0, 6.0 * Power5(mid), Sum6(mid, half));
    Scaled(m, 6.0 * (h + 1.0) * Power5(mid) - 2.0 * h * mid, (h + 1.0) * Sum6(mid, half) - 2.0 * h * mid);
  }

  /** The deflection around which the travel falls. */
  lemma DipCentre(c: real, m: real, h: real) returns (k: real)
    requires c >= 0.0 && m > 0.0 && h >= 0.01 && Dips(c, m, h)
    ensures 0.0 < k < 0.51 && 15.0 * (h + 1.0) * Power4(k) < h && c <= 1.6 * h * m * k
  {
    if c > 0.0 {
      var u := 1.6 * h * m;
      Strictly(1.6 * h, m);
      k := c / u;
      Cancel(c, u);
      assert k * u == c;
      Power4Product(k, u);
      SquareGrows(0.0, u);
      Power4Grows(0.0, u);
      CancelPower(15.0 * (h + 1.0), Power4(k), Power4(u), h);
      if k <= 0.0 { Times(-k, u); }
    } else {
      k := 0.05;
      Strictly(h, m);
      assert Power4(0.05) == 0.00000625;
    }
    BelowHalf(k, h);
  }

  lemma CancelPower(a: real, p: real, q: real, h: real)
    requires q > 0.0 && a * (p * q) < h * q
    ensures a * p < h
  {
    assert (a * p - h) * q == a * (p * q) - h * q;
    if a * p >= h { Times(a * p - h, q); }
  }

  lemma BelowHalf(k: real, h: real)
    requires k > 0.0 && h > 0.0 && 15.0 * (h + 1.0) * Power4(k) < h
    ensures k < 0.51
  {
    assert Power4(0.51) >= 0.0676;
    if k >= 0.51 {
      PowersGrow(0.51, k);
      Scaled(15.0 * (h + 1.0), 0.0676, Power4(k));
    }
  }

  /** ACTUAL falls between two deflections around that centre. */
  lemma DipShows(c: real, m: real, h: real) returns (x: real, y: real)
    requires c >= 0.0 && m > 0.0 && h >= 0.01 && Dips(c, m, h)
    ensures 0.0 <= x < y <= 0.995 && Travel(c, m, h, y) < Travel(c, m, h, x)
    ensures Travel(c, m, h, y) <= y * c
  {
    hide Travel, Dips, Power4, Sum6;
    var k := DipCentre(c, m, h);
    var z := (h + 1.0) * Power4(k);
    PowersGrow(0.0, k);
    Times(h + 1.0, Power4(k));
    assert 15.0 * z < h;
    var s := 0.4 * h - 6.0 * z;
    var t := s / (27.0 * z + 2.0 * s);
    ShareIs(s, z, t);
    var half := k * t;
    Strictly(k, t);
    Mono(t, 0.5, k, k);
    assert half == t * k <= 0.5 * k;
    x, y := k - half, k + half;
    assert 0.0 < half && y <= 1.5 * k;
    FallsAround(c, m, h, k, z, s, t);
    var g := c + m * ((h + 1.0) * Sum6(k, half) - 2.0 * h * k);
    TravelDifference(c, m, h, k, half, x, y, g);
    Strictly(2.0 * half, -g);
    assert 2.0 * half * (-g) == -(2.0 * half * g);
    StillBelow(h, k, y);
    BelowCentre(c, m, h, y);
  }

  /** Around the dip the raised share is still negative. */
  lemma StillBelow(h: real, k: real, y: real)
    requires h >= 0.0 && 0.0 < k && 0.0 <= y <= 1.5 * k && 15.0 * (h + 1.0) * Power4(k) < h
    ensures Blend(h + 1.0, Power4(y)) <= 0.0
  {
    hide Power4;
    PowersGrow(y, 1.5 * k);
    Power4Product(1.5, k);
    assert Power4(1.5) == 5.0625 by { FourthOfThreeHalves(); }
    PowersGrow(0.0, k);
    Scaled(h + 1.0, Power4(y), 5.0625 * Power4(k));
    Times(h + 1.0, Power4(k));
    assert (h + 1.0) * (5.0625 * Power4(k)) == 5.0625 * ((h + 1.0) * Power4(k));
  }

  lemma FourthOfThreeHalves()
    ensures Power4(1.5) == 5.0625
  {}

  lemma BelowCentre(c: real, m: real, h: real, y: real)
    requires m > 0.0 && y >= 0.0 && Blend(h + 1.0, Power4(y)) <= 0.0
    ensures Travel(c, m, h, y) <= y * c
  {
    hide Power4, Blend;
    var b := Blend(h + 1.0, Power4(y));
    Times(y, -b);
    Times(m, y * (-b));
    Times(y, m * (y * (-b)));
    assert y * (c + m * (y * b)) == y * c - y * (m * (y * (-b)));
  }

  lemma ShareIs(s: real, z: real, t: real)
    requires s > 0.0 && z >= 0.0 && t == s / (27.0 * z + 2.0 * s)
    ensures 0.0 < t <= 0.5 && 26.0 * (z * t) < s
  {
    var d := 27.0 * z + 2.0 * s;
    Cancel(s, d);
    assert t * d == s;
    if t <= 0.0 { Times(-t, d); }
    if t > 0.5 { Strictly(t - 0.5, d); }
    Times(z, t);
    Strictly(s, t);
    assert t * d == 27.0 * (z * t) + 2.0 * (s * t);
  }

  lemma FallsAround(c: real, m: real, h: real, k: real, z: real, s: real, t: real)
    requires m > 0.0 && h > 0.0 && k > 0.0 && c <= 1.6 * h * m * k && 0.0 < t <= 0.5
    requires z == (h + 1.0) * Power4(k) && z >= 0.0 && s == 0.4 * h - 6.0 * z && 26.0 * (z * t) < s
    ensures c + m * ((h + 1.0) * Sum6(k, k * t) - 2.0 * h * k) < 0.0
  {
    Sum6Scales(k, t);
    var r := 6.0 + 20.0 * Power2(t) + 6.0 * Power4(t);
    SmallPowers(t);
    assert r <= 6.0 + 26.0 * t;
    hide Power2, Power4, Sum6;
    Scaled(z, r, 6.0 + 26.0 * t);
    assert z * (6.0 + 26.0 * t) == 6.0 * z + 26.0 * (z * t);
    FallTerms(c, m, h, k, z, Power4(k), r, Sum6(k, k * t));
  }

  lemma SmallPowers(t: real)
    requires 0.0 < t <= 0.5
    ensures 0.0 <= Power2(t) <= t && 0.0 <= Power4(t) <= t
  {
    assert Power2(t) == t * t && Power3(t) == Power2(t) * t && Power4(t) == Power3(t) * t;
    hide Power2, Power3, Power4;
    ShareOf(t, t);
    ShareOf(Power2(t), t);
    ShareOf(Power3(t), t);
  }

  lemma ShareOf(a: real, t: real)
    requires 0.0 <= a <= 1.0 && 0.0 < t
    ensures 0.0 <= a * t <= t
  {
    Times(a, t);
    Times(1.0 - a, t);
  }

  lemma Sum6Scales(k: real, t: real)
    ensures Sum6(k, k * t) == k * Power4(k) * (6.0 + 20.0 * Power2(t) + 6.0 * Power4(t))
  {}

  lemma FallTerms(c: real, m: real, h: real, k: real, z: real, p: real, r: real, v: real)
    requires m > 0.0 && k > 0.0 && c <= 1.6 * h * m * k && z == (h + 1.0) * p && z * r < 0.4 * h && v == k * p * r
    ensures c + m * ((h + 1.0) * v - 2.0 * h * k) < 0.0
  {
    assert (h + 1.0) * v == k * (z * r);
    Strictly(m, k);
    Strictly(m * k, 0.4 * h - z * r);
    FallSum(m, h, k, z * r, (h + 1.0) * v);
  }

  lemma FallSum(m: real, h: real, k: real, u: real, w: real)
    requires w == k * u && (m * k) * (0.4 * h - u) > 0.0
    ensures 1.6 * h * m * k + m * (w - 2.0 * h * k) < 0.0
  {
    assert m * (k * u - 2.0 * h * k) == (m * k) * u - 2.0 * (h * m * k);
  }

  // ----- Curves that grow -----

  /** The settings with which a curve turns back somewhere. */
  predicate TurnsBack(t: RateType, a: Axis) {
    a.expo > 100 &&
    match t
    case Quick => false
    case Actual => Dips(a.rcRate as real * 10.0, Movement(a), Expo(a) - 1.0)
    case _ => a.rcRate > 0
  }

  /** Stick times gain, for a deflection. */
  function Turn(t: RateType, a: Axis, d: real): real { d * Gain(t, a, d) }

  lemma TurnGrows(t: RateType, a: Axis, d: real, f: real)
    requires 0.0 <= d <= f && !TurnsBack(t, a)
    ensures 0.0 <= Turn(t, a, d) <= Turn(t, a, f)
  {
    hide Gain;
    if a.expo <= 100 || t.Quick? {
      GainGrows(t, a, d, f);
      Mono(d, f, Gain(t, a, d), Gain(t, a, f));
    } else if t.Actual? {
      hide Turn, Dips, Travel, Movement;
      RatesAreRates(a);
      ActualIsTravel(a, 0.0);
      ActualIsTravel(a, d);
      ActualIsTravel(a, f);
      NoTravel(a.rcRate as real * 10.0, Movement(a), Expo(a) - 1.0);
      TravelGrows(a.rcRate as real * 10.0, Movement(a), Expo(a) - 1.0, 0.0, d);
      TravelGrows(a.rcRate as real * 10.0, Movement(a), Expo(a) - 1.0, d, f);
    } else {
      NoGain(t, a, d);
      NoGain(t, a, f);
    }
  }

  lemma NoTravel(c: real, m: real, h: real)
    ensures Travel(c, m, h, 0.0) == 0.0
  {
    hide Power4;
  }

  lemma NoGain(t: RateType, a: Axis, d: real)
    requires (t.Betaflight? || t.Raceflight? || t.Kiss?) && a.rcRate == 0
    ensures Turn(t, a, d) == 0.0
  {
    RatesAreRates(a);
    hide Super, Used, Blend, Expo, BetaflightRate, RaceflightBoost;
    assert Gain(t, a, d) == 0.0;
    assert d * 0.0 == 0.0;
  }

  lemma ActualIsTravel(a: Axis, d: real)
    ensures Turn(Actual, a, d) == Travel(a.rcRate as real * 10.0, Movement(a), Expo(a) - 1.0, d)
  {
    hide Movement, Power4;
    assert Expo(a) - 1.0 + 1.0 == Expo(a);
  }

  /** A curve that does not turn back never turns slower with more stick. */
  lemma CurveGrows(t: RateType, a: Axis, x: real, y: real)
    requires x <= y && !TurnsBack(t, a)
    ensures Curve(t, a, x) <= Curve(t, a, y)
  {
    hide Curve, Gain, TurnsBack;
    CurveIsGain(t, a, x);
    CurveIsGain(t, a, y);
    if 0.0 <= x {
      TurnGrows(t, a, x, y);
    } else if y <= 0.0 {
      TurnGrows(t, a, -y, -x);
    } else {
      TurnGrows(t, a, 0.0, -x);
      TurnGrows(t, a, 0.0, y);
    }
    GainedIsTurn(t, a, x);
    GainedIsTurn(t, a, y);
    hide Turn, Gained;
    assert Gained(t, a, x) <= Gained(t, a, y);
  }

  lemma GainedIsTurn(t: RateType, a: Axis, x: real)
    ensures Gained(t, a, x) == if x >= 0.0 then Turn(t, a, x) else -Turn(t, a, -x)
  {
    hide Gain;
    if x < 0.0 { assert x * Gain(t, a, -x) == -((-x) * Gain(t, a, -x)); }
  }

  /** More stick never turns slower, for every rate type and every setting that does not turn back. */
  lemma SetpointGrows(t: RateType, a: Axis, x: real, y: real)
    requires x <= y && !TurnsBack(t, a)
    ensures Setpoint(t, a, x) <= Setpoint(t, a, y)
  {
    hide Curve, TurnsBack;
    CurveGrows(t, a, Clamp(x, -0.995, 0.995), Clamp(y, -0.995, 0.995));
  }

  // ----- Curves that turn back -----

  lemma BlendTurns(e: real, p: real)
    requires e >= 1.01 && 0.0 <= p <= 0.0025
    ensures Blend(e, p) < 0.0
  {
    Mono(p, 0.0025, e, e);
    assert p * e <= 0.0025 * e;
  }

  lemma NegativeProduct(k: real, b: real, s: real)
    requires k > 0.0 && b < 0.0 && s > 0.0
    ensures k * b * s < 0.0
  {
    Strictly(k, -b);
    Strictly(k * (-b), s);
    assert k * b * s == -(k * (-b) * s);
  }

  /** Near the centre, more than full expo makes the gain of the cubic curves negative. */
  lemma GainTurns(t: RateType, a: Axis)
    requires (t.Betaflight? || t.Raceflight? || t.Kiss?) && a.rcRate > 0 && a.expo > 100
    ensures Gain(t, a, 0.05) < 0.0
  {
    hide Super, Used, Blend, RaceflightBoost, BetaflightRate;
    var e := Expo(a);
    assert Power2(0.05) == 0.0025 && Power3(0.05) == 0.000125;
    BlendTurns(e, Power2(0.05));
    BlendTurns(e, Power3(0.05));
    UsedGrows(a, 0.05, 0.05);
    SuperGrows(Used(a, 0.05), Used(a, 0.05));
    RatesAreRates(a);
    hide Power2, Power3, Expo;
    match t
    case Betaflight => NegativeProduct(200.0 * BetaflightRate(a), Blend(e, Power3(0.05)), Super(Used(a, 0.05)));
    case Raceflight => NegativeProduct(10.0 * a.rcRate as real, Blend(e, Power2(0.05)), RaceflightBoost(a, 0.05));
    case Kiss => NegativeProduct(2.0 * a.rcRate as real, Blend(e, Power2(0.05)), Super(Used(a, 0.05)));
  }

  lemma CurveTurns(t: RateType, a: Axis) returns (x: real, y: real)
    requires TurnsBack(t, a)
    ensures 0.0 <= x <= y <= 0.995 && Curve(t, a, y) < Curve(t, a, x)
    ensures if t.Actual? then Curve(t, a, y) <= y * (10.0 * a.rcRate as real) else Curve(t, a, y) < 0.0
  {
    hide Curve, Gain, Dips, Travel, Movement, Turn;
    if t.Actual? {
      RatesAreRates(a);
      MovesIfDips(a.rcRate as real * 10.0, Movement(a), Expo(a) - 1.0);
      x, y := DipShows(a.rcRate as real * 10.0, Movement(a), Expo(a) - 1.0);
      ActualIsTravel(a, x);
      ActualIsTravel(a, y);
    } else {
      x, y := 0.0, 0.05;
      GainTurns(t, a);
      TurnFalls(t, a);
    }
    CurveIsGain(t, a, x);
    CurveIsGain(t, a, y);
    GainedIsTurn(t, a, x);
    GainedIsTurn(t, a, y);
  }

  lemma TurnFalls(t: RateType, a: Axis)
    requires Gain(t, a, 0.05) < 0.0
    ensures Turn(t, a, 0.05) < 0.0 == Turn(t, a, 0.0)
  {
    hide Gain;
    assert 0.0 * Gain(t, a, 0.0) == 0.0;
  }

  lemma MovesIfDips(c: real, m: real, h: real)
    requires c >= 0.0 && m >= 0.0 && h > 0.0 && Dips(c, m, h)
    ensures m > 0.0
  {
    NoDip(c, h);
    hide Dips;
  }

  lemma NoDip(c: real, h: real)
    requires c >= 0.0 && h > 0.0
    ensures !Dips(c, 0.0, h)
  {
    hide Power4;
    Power4OfZero();
    PowersGrow(0.0, c);
    NotBelow(15.0 * (h + 1.0), Power4(c), h, Power4(1.6 * h * 0.0));
  }

  lemma Power4OfZero()
    ensures Power4(0.0) == 0.0
  {}

  lemma NotBelow(k: real, p: real, h: real, q: real)
    requires k >= 0.0 && p >= 0.0 && q == 0.0
    ensures !(k * p < h * q)
  {
    Times(k, p);
  }

  /** A curve grows over the whole stick range if and only if its settings do not turn it back. */
  lemma GrowsExactly(t: RateType, a: Axis)
    ensures (forall x: real, y: real :: -0.995 <= x <= y <= 0.995 ==> Curve(t, a, x) <= Curve(t, a, y)) <==> !TurnsBack(t, a)
  {
    hide Curve, TurnsBack;
    if TurnsBack(t, a) {
      var x, y := CurveTurns(t, a);
    } else {
      forall x: real, y: real | -0.995 <= x <= y <= 0.995 ensures Curve(t, a, x) <= Curve(t, a, y) {
        CurveGrows(t, a, x, y);
      }
    }
  }

  // ----- The limited setpoint -----

  /** A curve that turns back does so below its limit: for ACTUAL, if the limit leaves the centre
      sensitivity room. */
  lemma SetpointTurns(t: RateType, a: Axis) returns (x: real, y: real)
    requires TurnsBack(t, a) && a.limit > 0 && (t.Actual? ==> a.limit >= 10 * a.rcRate)
    ensures x <= y && Setpoint(t, a, y) < Setpoint(t, a, x)
  {
    hide Curve, TurnsBack;
    x, y := CurveTurns(t, a);
    CurveStart(t, a);
    if t.Actual? {
      assert 10.0 * a.rcRate as real == (10 * a.rcRate) as real <= a.limit as real;
      BelowLimit(y, 10.0 * a.rcRate as real, a.limit as real);
    }
    if Curve(t, a, y) < 0.0 { x := 0.0; }
    LimitShows(Curve(t, a, x), Curve(t, a, y), a.limit as real);
  }

  lemma CurveStart(t: RateType, a: Axis)
    ensures Curve(t, a, 0.0) == 0.0
  {
    hide Curve, Gain;
    CurveIsGain(t, a, 0.0);
    assert 0.0 * Gain(t, a, 0.0) == 0.0;
  }

  lemma BelowLimit(y: real, c: real, limit: real)
    requires 0.0 <= y <= 0.995 && 0.0 <= c <= limit && limit > 0.0
    ensures y * c < limit
  {
    Mono(y, 0.995, c, c);
    var p, q := y * c, 0.995 * c;
    assert p <= q && q <= 0.995 * limit;
  }

  lemma LimitShows(u: real, v: real, limit: real)
    requires v < u && v < limit && limit > 0.0 && (v < 0.0 ==> u == 0.0)
    ensures Clamp(v, -limit, limit) * DEGREE < Clamp(u, -limit, limit) * DEGREE
  {}

  /** The setpoint, too, grows over every stick input if and only if its settings do not turn it back. */
  lemma SetpointGrowsExactly(t: RateType, a: Axis)
    requires t.Actual? ==> a.limit >= 10 * a.rcRate
    ensures (forall x: real, y: real :: x <= y ==> Setpoint(t, a, x) <= Setpoint(t, a, y)) <==>
              !TurnsBack(t, a) || a.limit == 0
  {
    hide Curve, TurnsBack, Setpoint;
    if a.limit == 0 {
      forall x: real, y: real | x <= y ensures Setpoint(t, a, x) <= Setpoint(t, a, y) { NoSetpoint(t, a, x); NoSetpoint(t, a, y); }
    } else if TurnsBack(t, a) {
      var x, y := SetpointTurns(t, a);
    } else {
      forall x: real, y: real | x <= y ensures Setpoint(t, a, x) <= Setpoint(t, a, y) { SetpointGrows(t, a, x, y); }
    }
  }

  lemma NoSetpoint(t: RateType, a: Axis, x: real)
    requires a.limit == 0
    ensures Setpoint(t, a, x) == 0.0
  {
    hide Curve;
  }
}
