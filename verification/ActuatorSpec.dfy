/** One mode/arming/LAND update (`Actuator::update`) as a function of the craft and of what
    the outside world shows it. */
module ActuatorSpec {
  import opened FlightModel

  /** Sensor health, sticks and switches seen by one update.  `requested` is the resolved
      switch request of the mode rows.  The health of an estimator is read anew at every call
      site, so the reading at mode supervision, at activation and at LAND supervision may differ.
      Height and vario matter only where LAND supervision has just found them finite.  `nanCast` is
      what casting a NaN to 32 bits yields, which the language leaves open. */
  datatype ModePoll = ModePoll(
    now: nat,
    requested: Mask,
    gyroFresh: bool, busErrors: bool, throttleLow: bool, calibrating: bool,
    protocolDisabled: bool, rebootRequired: bool, tiltUnsafe: bool, gpsMissing: bool,
    pinConflict: bool, airmodeThrottle: bool,
    attitudeHealthy: bool, altitudeHealthy: bool,
    attitudeHealthyAtActivation: bool, altitudeHealthyAtActivation: bool,
    altitudeHealthyAtLand: bool,
    stickValid: bool, stickCentered: bool,
    height: real, vario: real, thrust: Reading, nanCast: nat)

  // ----- updateArmingDisabled -----

  /** When each flag is up after `updateArmingDisabled`; the flags it does not name stay. */
  predicate BlocksArming(c: Craft, a: ModePoll, flag: ArmingFlag) {
    match flag
    case NoGyro => !a.gyroFresh || a.busErrors
    case FailsafePhaseFlag => c.fs.phase != Idle
    case RxFailsafe => c.rx.rxLoss || c.rx.rxFailSafe
    case ThrottleHigh => !a.throttleLow
    case Calibrating => a.calibrating
    case MotorProtocol => a.protocolDisabled
    case RebootRequired => a.rebootRequired
    case TiltAngle => a.tiltUnsafe
    case Gps => a.gpsMissing
    case _ => flag in c.mode.flags
  }

  function ArmingFlags(c: Craft, a: ModePoll): set<ArmingFlag> {
    set flag: ArmingFlag | BlocksArming(c, a, flag)
  }

  function UpdateArmingDisabled(c: Craft, a: ModePoll): Craft {
    var m := if c.Armed() && !a.gyroFresh then Disarm(c.mode, ReasonSystem) else c.mode;
    c.(mode := m.(flags := ArmingFlags(c, a)))
  }

  // ----- updateModeMask, after the rows are resolved -----

  function AltHoldBlocksArming(cfg: Config, c: Craft, a: ModePoll): bool {
    var altHold := MODE_ALTHOLD in a.requested;
    var needed := altHold || (cfg.autoLand && MODE_ARMED in a.requested);
    (needed && !a.altitudeHealthy) ||
    (altHold && !a.stickValid) ||
    (altHold && MODE_ALTHOLD !in c.mode.mask && !(a.stickValid && a.stickCentered))
  }

  function NextLatches(l: Latches, a: ModePoll): Latches {
    Latches(
      MODE_ANGLE in a.requested && (l.angle || !a.attitudeHealthy),
      MODE_ALTHOLD in a.requested && (l.altHold || !a.altitudeHealthy || !a.stickValid))
  }

  /** The requested modes without those whose estimator or stick has failed or is latched. */
  function Assisted(l: Latches, a: ModePoll): Mask {
    var noAngle := if l.angle || !a.attitudeHealthy then {MODE_ANGLE} else {};
    var stickOk := MODE_ALTHOLD !in a.requested || a.stickValid;
    var noAltHold := if l.altHold || !a.altitudeHealthy || !stickOk then {MODE_ALTHOLD} else {};
    a.requested - noAngle - noAltHold
  }

  /** What remains wanted once the failsafe phase has added its own mode. */
  function Supervised(c: Craft, l: Latches, a: ModePoll): Mask {
    Assisted(l, a) + (if c.fs.phase != Idle then {MODE_FAILSAFE} else {})
  }

  predicate ArmingDisabled(m: ModeState, a: ModePoll) {
    m.flags != {} || a.pinConflict
  }

  predicate CanActivate(m: ModeState, l: Latches, a: ModePoll, mode: nat) {
    if mode == MODE_ARMED then !ArmingDisabled(m, a) && a.throttleLow
    else if mode == MODE_ANGLE then a.attitudeHealthyAtActivation && !l.angle
    else if mode == MODE_AIRMODE then m.airmodeAllowed
    else if mode == MODE_ALTHOLD then
      a.altitudeHealthyAtActivation && !l.altHold && a.stickValid && a.stickCentered
    else true
  }

  /** The flags that mode supervision refreshes before it looks at the arm switch. */
  function SupervisionFlags(cfg: Config, c: Craft, a: ModePoll): set<ArmingFlag> {
    set flag: ArmingFlag |
      if flag == AltHoldFlag then AltHoldBlocksArming(cfg, c, a)
      else if flag == FailsafePhaseFlag then c.fs.phase != Idle
      else if flag == BoxFailsafe then MODE_FAILSAFE in a.requested
      else flag in c.mode.flags
  }

  /** The arm-switch flag goes up when arming is requested while any flag, itself included, is up. */
  function ModeFlags(cfg: Config, c: Craft, a: ModePoll): set<ArmingFlag> {
    var flags := SupervisionFlags(cfg, c, a);
    if (flags != {} || a.pinConflict) && MODE_ARMED in a.requested
    then flags + {ArmSwitch} else flags - {ArmSwitch}
  }

  /** A mode that is newly wanted is granted only if it may be activated now. */
  function Granted(want: Mask, m: ModeState, l: Latches, a: ModePoll): Mask {
    set k | k in want && (k >= MODE_COUNT || k in m.mask || CanActivate(m, l, a, k))
  }

  function UpdateModeMask(cfg: Config, c: Craft, a: ModePoll): Craft {
    var l := NextLatches(c.latch, a);
    var m := c.mode.(maskSwitch := a.requested, flags := ModeFlags(cfg, c, a));
    c.(latch := l,
       mode := m.(maskPrev := m.mask, mask := Granted(Supervised(c, l, a), m, l, a)))
  }

  // ----- updateArmed -----

  predicate HasChanged(m: ModeState, bit: nat) {
    (bit in m.mask) != (bit in m.maskPrev)
  }

  /** A new arm starts a new LAND lifecycle. */
  function UpdateArmed(c: Craft): Craft {
    if !HasChanged(c.mode, MODE_ARMED) then c
    else if c.Armed() then
      c.(mode := c.mode.(disarmReason := ReasonSystem), fs := c.fs.(land := NO_LAND))
    else if c.mode.disarmReason == ReasonSystem then
      c.(mode := c.mode.(disarmReason := ReasonSwitch))
    else c
  }

  // ----- updateFailsafeLand -----

  const MIN_LANDING_TIME_US: nat := 1_500_000
  const TOUCHDOWN_DWELL_US: nat := 1_000_000
  const LAND_DESCENT_RATE_MS: real := 0.10

  const CAST_RANGE: nat := 0x1_0000_0000

  /** The LAND timeout; a NaN passes both `max` and `clamp` and reaches the cast. */
  function LandTimeoutUs(entryHeight: Reading, nanCast: nat): int {
    match entryHeight
    case NotANumber => nanCast % CAST_RANGE
    case Infinite(positive) => if positive then 60_000_000 else 15_000_000
    case Finite(v) =>
      var h := if v < 0.0 then 0.0 else v;
      (ClampReal(h / LAND_DESCENT_RATE_MS + 10.0, 15.0, 60.0) * 1000000.0).Floor
  }

  function HoverThrust(cfg: Config): real {
    ClampReal(-1.0 + 2.0 * (ClampInt(cfg.itermCenter, 10, 60) as real * 0.01), -0.8, 0.8)
  }

  function ReferenceThrust(cfg: Config, e: Entry): real {
    var hover := HoverThrust(cfg);
    var entry := if e.thrust.Finite? then ClampReal(e.thrust.value, -1.0, 1.0) else hover;
    if entry < hover then entry else hover
  }

  function Abs(v: real): real { if v < 0.0 then -v else v }

  /** The craft has come down from its entry height, or began near the ground; a NaN is neither. */
  predicate Descended(entryHeight: Reading, height: real) {
    match entryHeight
    case NotANumber => false
    case Infinite(_) => true
    case Finite(v) => v - height >= 0.20 || v <= 0.25
  }

  /** Touchdown evidence within the given vario, height and thrust margins. */
  predicate Evidence(cfg: Config, e: Entry, a: ModePoll, vario: real, height: real, margin: real) {
    a.now - e.requestedUs >= MIN_LANDING_TIME_US &&
    Abs(a.vario) <= vario &&
    a.height <= height &&
    Descended(e.height, a.height) &&
    a.thrust.Finite? && a.thrust.value <= ReferenceThrust(cfg, e) - margin
  }

  /** The strict evidence that starts a touchdown candidate. */
  predicate TouchdownEvidence(cfg: Config, e: Entry, a: ModePoll) {
    Evidence(cfg, e, a, 0.15, 0.30, 0.05)
  }

  /** The wider evidence that keeps a candidate alive. */
  predicate HoldEvidence(cfg: Config, e: Entry, a: ModePoll) {
    Evidence(cfg, e, a, 0.25, 0.40, 0.02)
  }

  predicate ActiveLand(c: Craft) {
    c.fs.land.requested && c.fs.phase == Landing && c.Armed()
  }

  /** What the estimator grants; the output stays blocked unless an active request frees it. */
  function Granting(eligible: bool, healthy: bool): Grant {
    Grant(healthy, eligible, eligible, eligible, eligible, true)
  }

  predicate Expired(e: Entry, now: nat, nanCast: nat) {
    now - e.requestedUs >= LandTimeoutUs(e.height, nanCast)
  }

  /** The touchdown candidate after an update of an eligible, unexpired request. */
  function NextTouchdown(cfg: Config, l: Land, a: ModePoll): Touchdown {
    if !l.touchdown.candidate then
      if TouchdownEvidence(cfg, l.entry, a) then Touchdown(true, a.now) else l.touchdown
    else if HoldEvidence(cfg, l.entry, a) then l.touchdown
    else NO_TOUCHDOWN
  }

  predicate TouchedDown(cfg: Config, l: Land, a: ModePoll) {
    l.touchdown.candidate && HoldEvidence(cfg, l.entry, a) &&
    a.now - l.touchdown.startedUs >= TOUCHDOWN_DWELL_US
  }

  datatype LandOutcome = Inactive | Faulted | TimedOut | Touched | Descending

  /** Which way a LAND request goes at this update. */
  function LandDecision(cfg: Config, c: Craft, a: ModePoll): LandOutcome {
    if !ActiveLand(c) then Inactive
    else if !(c.fs.rxEverValid && a.altitudeHealthyAtLand) then Faulted
    else if Expired(c.fs.land.entry, a.now, a.nanCast) then TimedOut
    else if TouchedDown(cfg, c.fs.land, a) then Touched
    else Descending
  }

  /** The LAND record after this update.  A withdrawn request keeps its snapshot, its fault latch
      and the last update time; a touchdown also keeps its candidate until the next update. */
  function NextLand(cfg: Config, c: Craft, a: ModePoll): Land {
    var l := c.fs.land;
    if !l.requested then l.(lastUpdateUs := 0, grant := NO_GRANT, touchdown := NO_TOUCHDOWN)
    else
      var eligible := c.fs.rxEverValid && a.altitudeHealthyAtLand;
      var withdrawn := Granting(eligible, a.altitudeHealthyAtLand).(
        active := false, levelRequested := false, descentRequested := false);
      match LandDecision(cfg, c, a)
      case Inactive =>
        l.(fault := l.fault || !eligible, lastUpdateUs := a.now, grant := Granting(eligible, a.altitudeHealthyAtLand))
      case Descending =>
        l.(lastUpdateUs := a.now, grant := FULL_GRANT, touchdown := NextTouchdown(cfg, l, a))
      case Touched =>
        l.(requested := false, lastUpdateUs := a.now, grant := withdrawn)
      case _ =>
        l.(requested := false, fault := true, lastUpdateUs := a.now, grant := withdrawn, touchdown := NO_TOUCHDOWN)
  }

  predicate EndsLand(o: LandOutcome) {
    o.Faulted? || o.TimedOut? || o.Touched?
  }

  function UpdateFailsafeLand(cfg: Config, c: Craft, a: ModePoll): Craft {
    var ends := EndsLand(LandDecision(cfg, c, a));
    c.(fs := c.fs.(land := NextLand(cfg, c, a), phase := if ends then Landed else c.fs.phase),
       mode := if ends then Disarm(c.mode, ReasonFailsafe) else c.mode)
  }

  // ----- updateAirMode and the whole update -----

  function UpdateAirMode(c: Craft, a: ModePoll): Craft {
    var allowed := c.Armed() && (c.mode.airmodeAllowed || a.airmodeThrottle);
    c.(mode := c.mode.(airmodeAllowed := allowed))
  }

  function ModeStep(cfg: Config, c: Craft, a: ModePoll): Craft {
    UpdateAirMode(UpdateFailsafeLand(cfg, UpdateArmed(UpdateModeMask(cfg, UpdateArmingDisabled(c, a), a)), a), a)
  }
}
