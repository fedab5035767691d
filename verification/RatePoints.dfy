/** The stick curves in numbers: at half stick, at full stick, and what the limit makes of them. */
module RatePoints {
  import opened Arithmetic
  import opened RateCurves

  /** What the super rate leaves of the stick, at least one percent. */
  function LeftOf(used: real): real {
    if used >= 0.99 then 0.01 else if used <= 0.0 then 1.0 else 1.0 - used
  }

  /** The rate is `turn` divided by what the super rate leaves. */
  predicate Divided(rate: real, turn: real, used: real) { rate * LeftOf(used) == turn }

  lemma SuperDivides(used: real, s: real, l: real)
    requires s == Super(used) && l == LeftOf(used)
    ensures s * l == 1.0
  {}

  lemma TimesSuper(rate: real, turn: real, used: real, s: real)
    requires s == Super(used) && rate == turn * s
    ensures Divided(rate, turn, used)
  {
    var l := LeftOf(used);
    SuperDivides(used, s, l);
    hide Super, LeftOf;
    Regroup(turn, s, l, rate);
    assert rate * l == turn;
  }

  lemma Regroup(a: real, b: real, c: real, rate: real)
    requires b * c == 1.0 && rate == a * b
    ensures rate * c == a
  {
    assert a * b * c == a * (b * c);
  }

  lemma NoSuper(turn: real)
    ensures Divided(turn, turn, 0.0)
  {
    assert LeftOf(0.0) == 1.0;
  }

  // ----- BETAFLIGHT -----

  /** The rate setting in units: hundredths, which count 15.54 times from 2.0 on. */
  function Units(a: Axis): real {
    if a.rcRate <= 200 then a.rcRate as real / 100.0 else 2.0 + 15.54 * ((a.rcRate - 200) as real / 100.0)
  }

  /** 200 deg/s for each unit; the expo blends in the fourth power of the stick; the super rate divides. */
  lemma BetaflightPoints(a: Axis)
    ensures Divided(Curve(Betaflight, a, 0.5), 100.0 * Units(a) * (1.0 - 0.875 * (a.expo as real / 100.0)), a.rate as real / 200.0)
    ensures Divided(Curve(Betaflight, a, 1.0), 200.0 * Units(a), a.rate as real / 100.0)
  {
    var e, r := a.expo as real / 100.0, Units(a);
    UnitsAre(a);
    UsedAt(a);
    hide Units, BetaflightRate, Used, Divided, Curve;
    HalfTurn(r, e, 0.5 * (1.0 - 0.875 * e), 100.0 * r * (1.0 - 0.875 * e));
    HalfStick(a, e, 0.5 * (1.0 - 0.875 * e));
    FullStick(a);
    BetaflightAt(a, 0.5, 0.5 * (1.0 - 0.875 * e), r, 100.0 * r * (1.0 - 0.875 * e));
    BetaflightAt(a, 1.0, 1.0, r, 200.0 * r);
  }

  /** The stick after the expo. */
  predicate Stick(a: Axis, x: real, rc: real) {
    if a.expo == 0 then rc == x else rc == Mixed(Expo(a), BetaflightStick(x, x), x)
  }

  lemma HalfStick(a: Axis, e: real, half: real)
    requires e == a.expo as real / 100.0 && half == 0.5 * (1.0 - 0.875 * e)
    ensures Stick(a, 0.5, half)
  {
    assert BetaflightStick(0.5, 0.5) == 0.0625;
    StickHalf(e, 0.0625);
  }

  lemma FullStick(a: Axis)
    ensures Stick(a, 1.0, 1.0)
  {
    assert BetaflightStick(1.0, 1.0) == 1.0;
  }

  lemma UsedAt(a: Axis)
    ensures Used(a, 0.5) == a.rate as real / 200.0 && Used(a, 1.0) == a.rate as real / 100.0
  {}

  lemma UnitsAre(a: Axis)
    ensures BetaflightRate(a) == Units(a)
  {}

  lemma BetaflightAt(a: Axis, x: real, rc: real, r: real, turn: real)
    requires x > 0.0 && Stick(a, x, rc) && r == BetaflightRate(a) && turn == 200.0 * r * rc
    ensures Divided(Curve(Betaflight, a, x), turn, Used(a, x))
  {
    if a.rate == 0 { NothingUsed(a, x); }
    hide BetaflightRate, Mixed, BetaflightStick, Used, Super, Divided;
    var rate := Curve(Betaflight, a, x);
    if a.rate == 0 {
      assert rate == turn;
      NoSuper(turn);
    } else {
      assert rate == turn * Super(Used(a, x));
      TimesSuper(rate, turn, Used(a, x), Super(Used(a, x)));
    }
  }

  lemma NothingUsed(a: Axis, x: real)
    requires a.rate == 0
    ensures Used(a, x) == 0.0
  {}

  lemma StickHalf(e: real, p: real)
    requires p == 0.0625
    ensures Mixed(e, p, 0.5) == 0.5 * (1.0 - 0.875 * e)
  {}

  lemma HalfTurn(r: real, e: real, half: real, turn: real)
    requires half == 0.5 * (1.0 - 0.875 * e) && turn == 100.0 * r * (1.0 - 0.875 * e)
    ensures turn == 200.0 * r * half
  {}

  // ----- RACEFLIGHT -----

  lemma RaceflightPoints(a: Axis)
    ensures Curve(Raceflight, a, 0.5) ==
            5.0 * a.rcRate as real * (1.0 - 0.0075 * a.expo as real) * (1.0 + 0.005 * a.rate as real)
    ensures Curve(Raceflight, a, 1.0) == 10.0 * a.rcRate as real * (1.0 + 0.01 * a.rate as real)
  {
    assert RaceflightStick(a, 0.5) == 0.5 * (1.0 - 0.0075 * a.expo as real);
    assert RaceflightStick(a, 1.0) == 1.0;
    assert RaceflightBoost(a, 0.5) == 1.0 + 0.005 * a.rate as real;
    assert RaceflightBoost(a, 1.0) == 1.0 + 0.01 * a.rate as real;
    hide RaceflightStick, RaceflightBoost;
    RaceProduct(10.0 * a.rcRate as real, 1.0 - 0.0075 * a.expo as real, 1.0 + 0.005 * a.rate as real);
  }

  lemma RaceProduct(r: real, e: real, b: real)
    ensures r * (0.5 * e) * b == 0.5 * r * e * b
  {}

  // ----- KISS -----

  /** 2 deg/s for each step of the rate, divided by what the super rate leaves, at most 1998 deg/s. */
  lemma KissPoints(a: Axis)
    ensures Divided(KissTurn(a, Mixed(Expo(a), Power3(0.5), 0.5), 0.5),
                    a.rcRate as real * (1.0 - 0.75 * (a.expo as real / 100.0)), a.rate as real / 200.0)
    ensures Divided(KissTurn(a, Mixed(Expo(a), Power3(1.0), 1.0), 1.0), 2.0 * a.rcRate as real, a.rate as real / 100.0)
    ensures var half := KissTurn(a, Mixed(Expo(a), Power3(0.5), 0.5), 0.5);
            Curve(Kiss, a, 0.5) == if half > 1998.0 then 1998.0 else if half < -1998.0 then -1998.0 else half
    ensures var full := KissTurn(a, Mixed(Expo(a), Power3(1.0), 1.0), 1.0);
            Curve(Kiss, a, 1.0) == if full > 1998.0 then 1998.0 else full
  {
    assert Used(a, 0.5) == a.rate as real / 200.0 && Used(a, 1.0) == a.rate as real / 100.0;
    assert Mixed(Expo(a), Power3(0.5), 0.5) == 0.5 * (1.0 - 0.75 * Expo(a));
    assert Mixed(Expo(a), Power3(1.0), 1.0) == 1.0;
    KissHalf(a.rcRate as real, Expo(a));
    KissIs(a, 0.5 * (1.0 - 0.75 * Expo(a)), 0.5, a.rcRate as real * (1.0 - 0.75 * Expo(a)));
    KissIs(a, 1.0, 1.0, 2.0 * a.rcRate as real);
    NotBelowZero(a);
  }

  lemma KissHalf(r: real, e: real)
    ensures 2.0 * (0.5 * (1.0 - 0.75 * e) * r) == r * (1.0 - 0.75 * e)
  {}

  lemma KissIs(a: Axis, rc: real, abs: real, turn: real)
    requires turn == 2.0 * (rc * a.rcRate as real)
    ensures Divided(KissTurn(a, rc, abs), turn, Used(a, abs))
  {
    var u, s := Used(a, abs), Super(Used(a, abs));
    hide Used, Super, Divided;
    KissProduct(rc, a.rcRate as real, s, turn);
    TimesSuper(KissTurn(a, rc, abs), turn, u, s);
  }

  lemma KissProduct(rc: real, r: real, s: real, turn: real)
    requires turn == 2.0 * (rc * r)
    ensures (2000.0 * s) * (rc * (r / 1000.0)) == turn * s
  {
    assert (2000.0 * s) * (rc * (r / 1000.0)) == 2.0 * (rc * r) * s;
  }

  lemma NotBelowZero(a: Axis)
    ensures KissTurn(a, 1.0, 1.0) >= 0.0
  {
    var s := Super(Used(a, 1.0));
    assert s > 0.0;
    hide Super;
    Times(2000.0 * s, a.rcRate as real / 1000.0);
  }

  // ----- ACTUAL -----

  /** The rate at full stick is the larger of the two settings, in tens of degrees per second; the centre
      sensitivity counts with the stick, the rest with its square, which the expo blends into its sixth power. */
  lemma ActualPoints(a: Axis)
    ensures var centre, full := 10.0 * a.rcRate as real, 10.0 * (if a.rate > a.rcRate then a.rate else a.rcRate) as real;
            Curve(Actual, a, 1.0) == full &&
            Curve(Actual, a, 0.5) == 0.5 * centre + (full - centre) * (0.25 - 0.234375 * (a.expo as real / 100.0))
  {
    var m := Movement(a);
    assert m == 10.0 * (if a.rate > a.rcRate then a.rate else a.rcRate) as real - 10.0 * a.rcRate as real;
    assert Mixed(Expo(a), Power5(0.5), 0.5) == 0.5 - 0.46875 * Expo(a);
    assert Mixed(Expo(a), Power5(1.0), 1.0) == 1.0;
    hide Movement;
    HalfMovement(m, Expo(a));
  }

  lemma HalfMovement(m: real, e: real)
    ensures m * (0.5 * (0.5 - 0.46875 * e)) == m * (0.25 - 0.234375 * e)
  {}

  // ----- QUICK -----

  /** The rate at full stick is the larger of ten times the one setting and twice the other, at most 1998 deg/s,
      as long as it is no more than a hundred times that of the other. */
  lemma QuickFullStick(a: Axis)
    requires a.rate <= 20 * a.rcRate
    ensures var full := if 10 * a.rate > 2 * a.rcRate then 10 * a.rate else 2 * a.rcRate;
            Curve(Quick, a, 1.0) == if full > 1998 then 1998.0 else full as real
  {
    if a.rcRate > 0 {
      var full := if 10 * a.rate > 2 * a.rcRate then 10 * a.rate else 2 * a.rcRate;
      var r, m := 2.0 * a.rcRate as real, full as real;
      assert Mixed(Expo(a), Power3(1.0), 1.0) == 1.0;
      assert QuickUse(a, 1.0) == QuickShare(a);
      ShareAtFull(a, r, m);
      QuickAtFull(r, m, QuickShare(a));
    }
  }

  /** At half stick: the expo blends in the third power of the stick for what the super rate uses. */
  lemma QuickHalfStick(a: Axis) returns (share: real)
    requires 0 < a.rcRate && a.rate <= 20 * a.rcRate
    ensures var full := if 10 * a.rate > 2 * a.rcRate then 10 * a.rate else 2 * a.rcRate;
            share * full as real == (full - 2 * a.rcRate) as real
    ensures Divided(QuickTurn(a, 0.5, 0.5), a.rcRate as real, share * (0.5 - 0.375 * (a.expo as real / 100.0)))
    ensures var half := QuickTurn(a, 0.5, 0.5);
            Curve(Quick, a, 0.5) == if half > 1998.0 then 1998.0 else if half < -1998.0 then -1998.0 else half
  {
    var full := if 10 * a.rate > 2 * a.rcRate then 10 * a.rate else 2 * a.rcRate;
    share := QuickShare(a);
    hide QuickShare, Divided, Curve, QuickTurn;
    ShareAtFull(a, 2.0 * a.rcRate as real, full as real);
    RealDifference(full, 2 * a.rcRate, a.rcRate);
    QuickIsLimited(a);
    QuickAtHalf(a, share, share * (0.5 - 0.375 * (a.expo as real / 100.0)));
  }

  lemma RealDifference(x: nat, y: nat, r: nat)
    requires y == 2 * r
    ensures (x - y) as real == x as real - 2.0 * r as real
  {}

  lemma QuickAtHalf(a: Axis, share: real, use: real)
    requires a.rcRate > 0 && share == QuickShare(a) && use == share * (0.5 - 0.375 * (a.expo as real / 100.0))
    ensures Divided(QuickTurn(a, 0.5, 0.5), a.rcRate as real, use)
  {
    UseAtHalf(a, share, use);
    var s := Super(use);
    hide Super, QuickUse, QuickShare, Divided;
    assert QuickTurn(a, 0.5, 0.5) == a.rcRate as real * s;
    TimesSuper(QuickTurn(a, 0.5, 0.5), a.rcRate as real, use, s);
  }

  lemma UseAtHalf(a: Axis, share: real, use: real)
    requires a.rcRate > 0 && share == QuickShare(a) && use == share * (0.5 - 0.375 * (a.expo as real / 100.0))
    ensures QuickUse(a, 0.5) == use
  {
    hide QuickShare;
    assert Mixed(Expo(a), Power3(0.5), 0.5) == 0.5 - 0.375 * Expo(a);
  }

  lemma QuickIsLimited(a: Axis)
    requires a.rcRate > 0
    ensures var half := QuickTurn(a, 0.5, 0.5);
            Curve(Quick, a, 0.5) == if half > 1998.0 then 1998.0 else if half < -1998.0 then -1998.0 else half
  {
    hide QuickTurn;
  }

  lemma ShareAtFull(a: Axis, r: real, m: real)
    requires a.rcRate > 0 && r == 2.0 * a.rcRate as real
    requires m == (if 10 * a.rate > 2 * a.rcRate then 10 * a.rate else 2 * a.rcRate) as real && a.rate <= 20 * a.rcRate
    ensures r <= m <= 100.0 * r && QuickShare(a) * m == m - r
  {
    assert (10 * a.rate) as real == a.rate as real * 10.0 && (2 * a.rcRate) as real == a.rcRate as real * 2.0;
    ShareProduct(m, r);
  }

  lemma ShareProduct(m: real, r: real)
    requires r > 0.0 && m >= r
    ensures m / r > 0.0 && ((m / r - 1.0) / (m / r)) * m == m - r
  {
    var q := m / r;
    Cancel(m, r);
    assert q * r == m;
    if q <= 0.0 { Times(-q, r); }
    Cancel(q - 1.0, q);
    var w := (q - 1.0) / q;
    assert w * q == q - 1.0;
    assert w * m == w * q * r == (q - 1.0) * r;
  }

  lemma QuickAtFull(r: real, m: real, share: real)
    requires r > 0.0 && r <= m <= 100.0 * r && share * m == m - r
    ensures 1.0 * r * Super(share) == m
  {
    if share > 0.99 { Strictly(share - 0.99, m); }
    if share < 0.0 { Strictly(-share, m); }
    var left := 1.0 - share;
    assert Super(share) == 1.0 / left;
    Cancel(1.0, left);
    var s := 1.0 / left;
    assert s * left == 1.0;
    assert left * m == r;
    assert r * s == m * (left * s);
  }

  // ----- The limit -----

  /** Within the limit the setpoint is the curve, in radians per second; beyond it, the limit.  The stick counts up
      to 99.5 %. */
  lemma SetpointInRadians(t: RateType, a: Axis, input: real)
    ensures var x := if input < -0.995 then -0.995 else if input > 0.995 then 0.995 else input;
            var rate := Curve(t, a, x);
            Setpoint(t, a, input) * 180.0 ==
              3.14159265358979 * (if rate > a.limit as real then a.limit as real
                                  else if rate < -(a.limit as real) then -(a.limit as real) else rate)
  {
    hide Curve;
  }
}
