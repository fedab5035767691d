/** The stick curves (Control/Rates.cpp) over exact reals. */
module RateCurves {
  import opened Arithmetic

  datatype RateType = Betaflight | Raceflight | Kiss | Actual | Quick

  /** One axis of the rate profile: three 8-bit settings and the limit in degrees per second. */
  datatype Axis = Axis(expo: nat, rcRate: nat, rate: nat, limit: nat)

  const RC_RATE_INCREMENTAL: real := 14.54
  const SETPOINT_RATE_LIMIT: real := 1998.0
  const DEGREE: real := 3.14159265358979 / 180.0

  function AbsR(x: real): real { if x < 0.0 then -x else x }

  function Clamp(x: real, lo: real, hi: real): real
    requires lo <= hi
  {
    if x < lo then lo else if x > hi then hi else x
  }

  function Power3(x: real): real { x * x * x }

  function Power5(x: real): real { x * x * x * x * x }

  /** One over what is left of the stick after the super rate. */
  function Super(used: real): real { 1.0 / Clamp(1.0 - used, 0.01, 1.0) }

  // ----- The curves as written -----

  function Expo(a: Axis): real { a.expo as real / 100.0 }

  /** The share of the stick that the super rate uses up. */
  function Used(a: Axis, abs: real): real { abs * (a.rate as real / 100.0) }

  /** Between the plain stick and a powered one. */
  function Mixed(e: real, powered: real, x: real): real { powered * e + x * (1.0 - e) }

  function BetaflightRate(a: Axis): real {
    var rcRate := a.rcRate as real / 100.0;
    if rcRate > 2.0 then rcRate + RC_RATE_INCREMENTAL * (rcRate - 2.0) else rcRate
  }

  function BetaflightTurn(a: Axis, rc: real, abs: real): real {
    var angleRate := 200.0 * BetaflightRate(a) * rc;
    if a.rate != 0 then angleRate * Super(Used(a, abs)) else angleRate
  }

  function BetaflightStick(x: real, abs: real): real { x * Power3(abs) }

  function BetaflightCurve(a: Axis, x: real, abs: real): real {
    BetaflightTurn(a, if a.expo != 0 then Mixed(Expo(a), BetaflightStick(x, abs), x) else x, abs)
  }

  function RaceflightStick(a: Axis, x: real): real {
    (1.0 + 0.01 * a.expo as real * (x * x - 1.0)) * x
  }

  function RaceflightBoost(a: Axis, abs: real): real { 1.0 + abs * a.rate as real * 0.01 }

  function RaceflightTurn(a: Axis, rc: real, abs: real): real {
    10.0 * a.rcRate as real * rc * RaceflightBoost(a, abs)
  }

  function RaceflightCurve(a: Axis, x: real, abs: real): real {
    RaceflightTurn(a, RaceflightStick(a, x), abs)
  }

  function KissTurn(a: Axis, rc: real, abs: real): real {
    (2000.0 * Super(Used(a, abs))) * (rc * (a.rcRate as real / 1000.0))
  }

  function KissCurve(a: Axis, x: real, abs: real): real {
    Clamp(KissTurn(a, Mixed(Expo(a), Power3(x), x), abs), -SETPOINT_RATE_LIMIT, SETPOINT_RATE_LIMIT)
  }

  /** What ACTUAL adds to the centre sensitivity at full stick. */
  function Movement(a: Axis): real {
    var m := a.rate as real * 10.0 - a.rcRate as real * 10.0;
    if m < 0.0 then 0.0 else m
  }

  function ActualTurn(a: Axis, rc: real, x: real, abs: real): real {
    x * (a.rcRate as real * 10.0) + Movement(a) * (abs * rc)
  }

  function ActualCurve(a: Axis, x: real, abs: real): real {
    ActualTurn(a, Mixed(Expo(a), Power5(x), x), x, abs)
  }

  /** The largest share of the stick that the QUICK super factor may use up. */
  function QuickShare(a: Axis): real
    requires a.rcRate > 0
  {
    var rcRate := a.rcRate as real * 2.0;
    var maxDps := if a.rate as real * 10.0 < rcRate then rcRate else a.rate as real * 10.0;
    (maxDps / rcRate - 1.0) / (maxDps / rcRate)
  }

  function QuickUse(a: Axis, abs: real): real
    requires a.rcRate > 0
  {
    Mixed(Expo(a), Power3(abs), abs) * QuickShare(a)
  }

  function QuickTurn(a: Axis, x: real, abs: real): real
    requires a.rcRate > 0
  {
    x * (a.rcRate as real * 2.0) * Super(QuickUse(a, abs))
  }

  function QuickCurve(a: Axis, x: real, abs: real): real {
    if a.rcRate == 0 then 0.0
    else Clamp(QuickTurn(a, x, abs), -SETPOINT_RATE_LIMIT, SETPOINT_RATE_LIMIT)
  }

  function Curve(t: RateType, a: Axis, x: real): real {
    match t
    case Betaflight => BetaflightCurve(a, x, AbsR(x))
    case Raceflight => RaceflightCurve(a, x, AbsR(x))
    case Kiss => KissCurve(a, x, AbsR(x))
    case Actual => ActualCurve(a, x, AbsR(x))
    case Quick => QuickCurve(a, x, AbsR(x))
  }

  /** `getSetpoint`, in radians per second. */
  function Setpoint(t: RateType, a: Axis, input: real): real {
    Clamp(Curve(t, a, Clamp(input, -0.995, 0.995)), -(a.limit as real), a.limit as real) * DEGREE
  }

  // ----- The same curves as stick times gain -----

  /** Between flat and a power of the deflection. */
  function Blend(e: real, p: real): real { p * e + (1.0 - e) }

  function Power2(d: real): real { d * d }

  function Power4(d: real): real { d * d * d * d }

  /** The gain at a stick deflection; every curve is the stick times its gain. */
  function Gain(t: RateType, a: Axis, d: real): real {
    match t
    case Betaflight => 200.0 * BetaflightRate(a) * Blend(Expo(a), Power3(d)) * Super(Used(a, d))
    case Raceflight => 10.0 * a.rcRate as real * Blend(Expo(a), Power2(d)) * RaceflightBoost(a, d)
    case Kiss => 2.0 * a.rcRate as real * Blend(Expo(a), Power2(d)) * Super(Used(a, d))
    case Actual => a.rcRate as real * 10.0 + Movement(a) * (d * Blend(Expo(a), Power4(d)))
    case Quick => if a.rcRate == 0 then 0.0 else a.rcRate as real * 2.0 * Super(QuickUse(a, d))
  }

  /** KISS and QUICK limit themselves. */
  function Limited(t: RateType, y: real): real {
    if t.Kiss? || t.Quick? then Clamp(y, -SETPOINT_RATE_LIMIT, SETPOINT_RATE_LIMIT) else y
  }

  function Gained(t: RateType, a: Axis, x: real): real { x * Gain(t, a, AbsR(x)) }

  lemma CurveIsGain(t: RateType, a: Axis, x: real)
    ensures Curve(t, a, x) == Limited(t, Gained(t, a, x))
  {
    hide BetaflightCurve, RaceflightCurve, KissCurve, ActualCurve, QuickCurve, Gained;
    match t
    case Betaflight => BetaflightGain(a, x);
    case Raceflight => RaceflightGain(a, x);
    case Kiss => KissGain(a, x);
    case Actual => ActualGain(a, x);
    case Quick => QuickGain(a, x);
  }

  lemma MixedIsBlend(e: real, y: real, x: real, p: real)
    requires y == x * p
    ensures Mixed(e, y, x) == x * Blend(e, p)
  {
    assert x * (p * e) == (x * p) * e;
  }

  lemma Regroup(k: real, x: real, p: real, s: real)
    ensures k * (x * p) * s == x * (k * p * s)
  {}

  lemma NoSuper(a: Axis, d: real)
    requires a.rate == 0
    ensures Super(Used(a, d)) == 1.0
  {}

  lemma BetaflightTurnIs(a: Axis, x: real, m: real)
    requires m == x * Blend(Expo(a), Power3(AbsR(x)))
    ensures BetaflightTurn(a, m, AbsR(x)) == Gained(Betaflight, a, x)
  {
    var d := AbsR(x);
    if a.rate == 0 { NoSuper(a, d); }
    hide Super, Used, BetaflightRate, Blend, Expo, Power3, AbsR;
    Regroup(200.0 * BetaflightRate(a), x, Blend(Expo(a), Power3(d)), Super(Used(a, d)));
  }

  lemma NoExpo(a: Axis, x: real, p: real)
    requires a.expo == 0
    ensures x * Blend(Expo(a), p) == x
  {}

  lemma BetaflightGain(a: Axis, x: real)
    ensures BetaflightCurve(a, x, AbsR(x)) == Gained(Betaflight, a, x)
  {
    var p := Power3(AbsR(x));
    var y := BetaflightStick(x, AbsR(x));
    assert y == x * p;
    hide BetaflightStick, Power3, Mixed, Expo, Blend, BetaflightTurn, Gained, AbsR;
    if a.expo == 0 {
      NoExpo(a, x, p);
      BetaflightTurnIs(a, x, x);
    } else {
      MixedIsBlend(Expo(a), y, x, p);
      BetaflightTurnIs(a, x, Mixed(Expo(a), y, x));
    }
  }

  lemma RaceflightStickIs(a: Axis, x: real)
    ensures RaceflightStick(a, x) == x * Blend(Expo(a), Power2(AbsR(x)))
  {
    EvenPowers(x);
    var e, p := Expo(a), Power2(AbsR(x));
    assert p == x * x;
    assert 0.01 * a.expo as real == e;
    assert (1.0 + e * (p - 1.0)) * x == x * (p * e + (1.0 - e));
  }

  lemma RaceflightGain(a: Axis, x: real)
    ensures RaceflightCurve(a, x, AbsR(x)) == Gained(Raceflight, a, x)
  {
    hide RaceflightStick, RaceflightBoost, Blend, Expo, Power2, AbsR;
    RaceflightStickIs(a, x);
    RaceflightTurnIs(a, x, RaceflightStick(a, x));
  }

  lemma RaceflightTurnIs(a: Axis, x: real, m: real)
    requires m == x * Blend(Expo(a), Power2(AbsR(x)))
    ensures RaceflightTurn(a, m, AbsR(x)) == Gained(Raceflight, a, x)
  {
    hide RaceflightBoost, Blend, Expo, Power2, AbsR;
    Regroup(10.0 * a.rcRate as real, x, Blend(Expo(a), Power2(AbsR(x))), RaceflightBoost(a, AbsR(x)));
  }

  lemma EvenPowers(x: real)
    ensures Power2(AbsR(x)) == x * x && Power3(x) == x * Power2(AbsR(x)) && Power5(x) == x * Power4(AbsR(x))
  {
    var d := AbsR(x);
    assert d * d == x * x;
    assert d * d * d * d == (d * d) * (d * d) == (x * x) * (x * x);
    assert x * x * x * x * x == x * ((x * x) * (x * x));
  }

  lemma KissOrder(s: real, x: real, b: real, r: real)
    ensures (2000.0 * s) * (x * b * (r / 1000.0)) == x * (2.0 * r * b * s)
  {
    assert r / 1000.0 == 0.001 * r;
  }

  lemma KissTurnIs(a: Axis, x: real, m: real)
    requires m == x * Blend(Expo(a), Power2(AbsR(x)))
    ensures KissTurn(a, m, AbsR(x)) == Gained(Kiss, a, x)
  {
    hide Super, Used, Blend, Expo, Power2, AbsR;
    KissOrder(Super(Used(a, AbsR(x))), x, Blend(Expo(a), Power2(AbsR(x))), a.rcRate as real);
  }

  lemma KissGain(a: Axis, x: real)
    ensures KissCurve(a, x, AbsR(x)) == Limited(Kiss, Gained(Kiss, a, x))
  {
    hide KissTurn, Gained, Power2, Blend, Mixed, Expo, AbsR, Power3, Clamp;
    EvenPowers(x);
    MixedIsBlend(Expo(a), Power3(x), x, Power2(AbsR(x)));
    KissTurnIs(a, x, Mixed(Expo(a), Power3(x), x));
  }

  lemma ActualOrder(c: real, d: real, x: real, b: real, m: real)
    ensures x * c + m * (d * (x * b)) == x * (c + m * (d * b))
  {}

  lemma ActualTurnIs(a: Axis, x: real, m: real)
    requires m == x * Blend(Expo(a), Power4(AbsR(x)))
    ensures ActualTurn(a, m, x, AbsR(x)) == Gained(Actual, a, x)
  {
    hide Movement, Power4, Blend, Expo, AbsR;
    ActualOrder(a.rcRate as real * 10.0, AbsR(x), x, Blend(Expo(a), Power4(AbsR(x))), Movement(a));
  }

  lemma ActualGain(a: Axis, x: real)
    ensures ActualCurve(a, x, AbsR(x)) == Gained(Actual, a, x)
  {
    hide ActualTurn, Gained, Power4, Blend, Mixed, Expo, AbsR, Power5;
    EvenPowers(x);
    MixedIsBlend(Expo(a), Power5(x), x, Power4(AbsR(x)));
    ActualTurnIs(a, x, Mixed(Expo(a), Power5(x), x));
  }

  lemma QuickTurnIs(a: Axis, x: real)
    requires a.rcRate > 0
    ensures QuickTurn(a, x, AbsR(x)) == Gained(Quick, a, x)
  {
    hide Super, QuickUse, AbsR;
    QuickOrder(x, a.rcRate as real * 2.0, Super(QuickUse(a, AbsR(x))));
  }

  lemma QuickOrder(x: real, r: real, s: real)
    ensures x * r * s == x * (r * s)
  {}

  lemma QuickIdle(a: Axis, x: real)
    requires a.rcRate == 0
    ensures Limited(Quick, Gained(Quick, a, x)) == 0.0
  {
    assert x * 0.0 == 0.0;
  }

  lemma QuickGain(a: Axis, x: real)
    ensures QuickCurve(a, x, AbsR(x)) == Limited(Quick, Gained(Quick, a, x))
  {
    hide QuickTurn, Gained, AbsR, Clamp;
    if a.rcRate > 0 { QuickTurnIs(a, x); } else { QuickIdle(a, x); }
  }

  // ----- The properties of the setpoint -----

  /** Every curve is odd: opposite sticks turn opposite ways, equally fast. */
  lemma SetpointIsOdd(t: RateType, a: Axis, x: real)
    ensures Setpoint(t, a, -x) == -Setpoint(t, a, x)
  {
    hide Curve;
    CurveIsOdd(t, a, Clamp(x, -0.995, 0.995));
  }

  lemma CurveIsOdd(t: RateType, a: Axis, c: real)
    ensures Curve(t, a, -c) == -Curve(t, a, c)
  {
    hide Curve, Gain;
    CurveIsGain(t, a, c);
    CurveIsGain(t, a, -c);
    assert AbsR(-c) == AbsR(c);
    Negated(c, Gain(t, a, AbsR(c)));
  }

  lemma Negated(x: real, g: real)
    ensures (-x) * g == -(x * g)
  {}

  /** The axis limit bounds every setpoint. */
  lemma SetpointIsBounded(t: RateType, a: Axis, x: real)
    ensures AbsR(Setpoint(t, a, x)) <= a.limit as real * DEGREE
  {
    hide Curve;
  }
}
