/** How modes come up, why a craft was disarmed, and what the configurator's arming command holds back. */
module ArmingRules {
  import opened FlightModel
  import opened ReceiverSpec
  import opened ActuatorSpec
  import opened FlightRuns

  // ----- Which modes come up -----

  /** The mode mask when an update is through: supervision, less what an ended LAND clears. */
  lemma MaskAfterUpdate(cfg: Config, c: Craft, a: ModePoll)
    ensures var d := UpdateArmingDisabled(c, a);
            var l := NextLatches(c.latch, a);
            var m := d.mode.(maskSwitch := a.requested, flags := ModeFlags(cfg, d, a));
            var mask := Granted(Supervised(d, l, a), m, l, a);
            ModeStep(cfg, c, a).mode.flags == m.flags &&
            ModeStep(cfg, c, a).mode.mask ==
              if EndsLand(LandDecision(cfg, Moded(cfg, c, a), a)) then mask - {MODE_ARMED, MODE_AIRMODE} else mask
  {
    hide LandDecision, NextLand, Granted, Supervised;
  }

  /** What lets a disarmed craft arm: nothing that the sensors, the receiver, the switches or the
      configuration show against it, and no flag up that only its owner takes down. */
  predicate MayArm(cfg: Config, c: Craft, a: ModePoll) {
    a.gyroFresh && !a.busErrors && !a.calibrating && !a.tiltUnsafe && !a.gpsMissing &&
    c.fs.phase == Idle && !c.rx.rxLoss && !c.rx.rxFailSafe &&
    a.throttleLow && MODE_FAILSAFE !in a.requested &&
    (cfg.autoLand || MODE_ALTHOLD in a.requested ==> a.altitudeHealthy) &&
    (MODE_ALTHOLD in a.requested ==> a.stickValid && (MODE_ALTHOLD in c.mode.mask || a.stickCentered)) &&
    !a.protocolDisabled && !a.rebootRequired && !a.pinConflict &&
    Msp !in c.mode.flags && Cli !in c.mode.flags && ArmSwitch !in c.mode.flags
  }

  /** What stands against arming, flag by flag, on the craft before the update. */
  predicate Stands(cfg: Config, c: Craft, a: ModePoll, flag: ArmingFlag) {
    match flag
    case NoGyro => !a.gyroFresh || a.busErrors
    case FailsafePhaseFlag => c.fs.phase != Idle
    case RxFailsafe => c.rx.rxLoss || c.rx.rxFailSafe
    case BoxFailsafe => MODE_FAILSAFE in a.requested
    case ThrottleHigh => !a.throttleLow
    case TiltAngle => a.tiltUnsafe
    case Calibrating => a.calibrating
    case Gps => a.gpsMissing
    case RebootRequired => a.rebootRequired
    case MotorProtocol => a.protocolDisabled
    case AltHoldFlag =>
      (MODE_ALTHOLD in a.requested &&
        !(a.altitudeHealthy && a.stickValid && (MODE_ALTHOLD in c.mode.mask || a.stickCentered))) ||
      (cfg.autoLand && MODE_ARMED in a.requested && !a.altitudeHealthy)
    case Cli => Cli in c.mode.flags
    case Msp => Msp in c.mode.flags
    case ArmSwitch => ArmSwitch in c.mode.flags
  }

  lemma StandsIsFlag(cfg: Config, c: Craft, a: ModePoll, flag: ArmingFlag)
    ensures flag in SupervisionFlags(cfg, UpdateArmingDisabled(c, a), a) <==> Stands(cfg, c, a, flag)
  {
    hide AltHoldBlocksArming, Disarm;
    var d := UpdateArmingDisabled(c, a);
    assert d.fs == c.fs && d.mode.flags == ArmingFlags(c, a);
    assert flag in ArmingFlags(c, a) <==> BlocksArming(c, a, flag);
    AltHoldGate(cfg, c, a);
  }

  lemma AltHoldGate(cfg: Config, c: Craft, a: ModePoll)
    ensures AltHoldBlocksArming(cfg, UpdateArmingDisabled(c, a), a) <==> Stands(cfg, c, a, AltHoldFlag)
  {
    hide ArmingFlags;
    assert MODE_ALTHOLD in UpdateArmingDisabled(c, a).mode.mask <==> MODE_ALTHOLD in c.mode.mask;
  }

  lemma MayArmIs(cfg: Config, c: Craft, a: ModePoll)
    requires MODE_ARMED in a.requested
    ensures MayArm(cfg, c, a) <==> !a.pinConflict && a.throttleLow && forall flag: ArmingFlag :: !Stands(cfg, c, a, flag)
  {
    if MayArm(cfg, c, a) {
      forall flag: ArmingFlag ensures !Stands(cfg, c, a, flag) {}
    } else if !a.pinConflict && a.throttleLow && forall flag: ArmingFlag :: !Stands(cfg, c, a, flag) {
      NothingStands(cfg, c, a);
    }
  }

  lemma NothingStands(cfg: Config, c: Craft, a: ModePoll)
    requires MODE_ARMED in a.requested
    requires !a.pinConflict && a.throttleLow && forall flag: ArmingFlag :: !Stands(cfg, c, a, flag)
    ensures MayArm(cfg, c, a)
  {
    assert !Stands(cfg, c, a, NoGyro) && !Stands(cfg, c, a, FailsafePhaseFlag) && !Stands(cfg, c, a, RxFailsafe);
    assert !Stands(cfg, c, a, BoxFailsafe) && !Stands(cfg, c, a, TiltAngle) && !Stands(cfg, c, a, Calibrating);
    assert !Stands(cfg, c, a, Cli) && !Stands(cfg, c, a, Msp) && !Stands(cfg, c, a, Gps);
    assert !Stands(cfg, c, a, RebootRequired) && !Stands(cfg, c, a, MotorProtocol);
    assert !Stands(cfg, c, a, AltHoldFlag) && !Stands(cfg, c, a, ArmSwitch);
  }

  /** No flag is up before the arm switch is looked at exactly if nothing stands against arming. */
  lemma FlagsClear(cfg: Config, c: Craft, a: ModePoll)
    ensures SupervisionFlags(cfg, UpdateArmingDisabled(c, a), a) == {} <==>
              forall flag: ArmingFlag :: !Stands(cfg, c, a, flag)
  {
    hide Stands, SupervisionFlags, UpdateArmingDisabled;
    var flags := SupervisionFlags(cfg, UpdateArmingDisabled(c, a), a);
    forall f: ArmingFlag ensures f in flags <==> Stands(cfg, c, a, f) { StandsIsFlag(cfg, c, a, f); }
  }

  /** With the arm switch on, no flag is up after an update exactly if nothing stood against arming. */
  lemma FlagsAllow(cfg: Config, c: Craft, a: ModePoll)
    requires MODE_ARMED in a.requested
    ensures ModeFlags(cfg, UpdateArmingDisabled(c, a), a) == {} && !a.pinConflict && a.throttleLow <==> MayArm(cfg, c, a)
  {
    hide Stands, MayArm, SupervisionFlags, UpdateArmingDisabled;
    MayArmIs(cfg, c, a);
    FlagsClear(cfg, c, a);
  }

  /** What lets a mode that was off come up in one whole update. */
  predicate MayComeUp(cfg: Config, c: Craft, a: ModePoll, mode: nat) {
    if mode == MODE_ARMED then MayArm(cfg, c, a)
    else if mode == MODE_ANGLE then
      a.attitudeHealthy && a.attitudeHealthyAtActivation && !c.latch.angle
    else if mode == MODE_ALTHOLD then
      a.altitudeHealthy && a.altitudeHealthyAtActivation && a.stickValid && a.stickCentered && !c.latch.altHold
    else if mode == MODE_AIRMODE then
      c.mode.airmodeAllowed && !EndsLand(LandDecision(cfg, Moded(cfg, c, a), a))
    else true
  }

  /** A mode that was off is on after an update exactly if it was requested (or is the mode of a failsafe
      phase) and its gates were open. */
  lemma NewModesExactly(cfg: Config, c: Craft, a: ModePoll, mode: nat)
    requires mode < MODE_COUNT && mode !in c.mode.mask
    ensures mode in ModeStep(cfg, c, a).mode.mask <==>
      (mode in a.requested || (mode == MODE_FAILSAFE && c.fs.phase != Idle)) && MayComeUp(cfg, c, a, mode)
  {
    hide ModeStep, ModeFlags, LandDecision, Moded;
    MaskAfterUpdate(cfg, c, a);
    if mode == MODE_ARMED && MODE_ARMED in a.requested { FlagsAllow(cfg, c, a); }
    if mode == MODE_ARMED && EndsLand(LandDecision(cfg, Moded(cfg, c, a), a)) {
      NewArmKeepsLand(cfg, c, a);
    }
  }

  /** LAND ends nothing at the update that arms, for arming has cleared the request. */
  lemma NewArmKeepsLand(cfg: Config, c: Craft, a: ModePoll)
    requires !c.Armed()
    ensures !EndsLand(LandDecision(cfg, Moded(cfg, c, a), a))
  {
    if Moded(cfg, c, a).Armed() { ModedArming(cfg, c, a); }
  }

  // ----- Why a craft was disarmed -----

  /** An armed craft carries the reason that arming gave it. */
  ghost predicate ArmedReason(c: Craft) {
    c.Armed() ==> c.mode.disarmReason == ReasonSystem
  }

  /** The reason that a disarm at this event must show. */
  function ReasonOf(e: Event): DisarmReason {
    match e
    case Rx(_) => ReasonFailsafe
    case Modes(a) =>
      if !a.gyroFresh then ReasonSystem
      else if MODE_ARMED !in a.requested then ReasonSwitch
      else ReasonFailsafe
    case _ => ReasonArmingDisabled
  }

  lemma UpdateReasons(cfg: Config, c: Craft, a: ModePoll)
    requires ArmedReason(c)
    ensures var d := ModeStep(cfg, c, a);
            if d.Armed() then
              d.mode.disarmReason == ReasonSystem && (!c.Armed() ==> d.fs.land == NO_LAND)
            else d.mode.disarmReason == if c.Armed() then ReasonOf(Modes(a)) else c.mode.disarmReason
  {
    hide Evidence, LandTimeoutUs, ModeFlags;
    if c.Armed() { KeepsArm(cfg, c, a); } else { NewArmKeepsLand(cfg, c, a); }
  }

  /** Supervision keeps an armed craft armed exactly if the gyro is fresh and the switch still on. */
  lemma KeepsArm(cfg: Config, c: Craft, a: ModePoll)
    requires c.Armed()
    ensures Moded(cfg, c, a).Armed() <==> a.gyroFresh && MODE_ARMED in a.requested
  {
    if Moded(cfg, c, a).Armed() { ModedArming(cfg, c, a); }
  }

  lemma StepReasons(cfg: Config, c: Craft, e: Event)
    requires ArmedReason(c)
    ensures ArmedReason(Step(cfg, c, e))
    ensures c.Armed() && !Step(cfg, c, e).Armed() ==> Step(cfg, c, e).mode.disarmReason == ReasonOf(e)
  {
    hide ModeStep;
    match e
    case Modes(a) => UpdateReasons(cfg, c, a);
    case _ =>
  }

  lemma {:induction false} ReasonsHold(cfg: Config, run: seq<Event>, n: nat)
    requires n <= |run|
    ensures ArmedReason(At(cfg, run, n))
  {
    hide Step;
    if n > 0 {
      ReasonsHold(cfg, run, n - 1);
      StepReasons(cfg, At(cfg, run, n - 1), run[n - 1]);
    }
  }

  /** In every run a craft is armed with a cleared LAND record and the reason SYSTEM, and each disarm shows
      its own reason: FAILSAFE for a receiver poll or an ended LAND, SYSTEM for a stale gyro, SWITCH for
      the arm switch, ARMING_DISABLED for the configurator. */
  lemma DisarmIsAttributed(cfg: Config, run: seq<Event>, i: nat)
    requires i < |run|
    ensures var c, d := At(cfg, run, i), At(cfg, run, i + 1);
            (c.Armed() && !d.Armed() ==> d.mode.disarmReason == ReasonOf(run[i])) &&
            (!c.Armed() && d.Armed() ==> d.mode.disarmReason == ReasonSystem && d.fs.land == NO_LAND)
  {
    hide Step, ModeStep;
    ReasonsHold(cfg, run, i);
    var c := At(cfg, run, i);
    StepReasons(cfg, c, run[i]);
    OnlyUpdatesArm(cfg, c, run[i]);
    if run[i].Modes? {
      UpdateReasons(cfg, c, run[i].a);
    }
  }

  lemma OnlyUpdatesArm(cfg: Config, c: Craft, e: Event)
    ensures !c.Armed() && Step(cfg, c, e).Armed() ==> e.Modes? && Step(cfg, c, e) == ModeStep(cfg, c, e.a)
  {
    hide ModeStep;
  }

  /** A disarm outside mode supervision is no change to the next update, which overwrites the previous
      mask before it compares: only a new arm is. */
  lemma DisarmIsNoChange(cfg: Config, c: Craft, reason: DisarmReason, a: ModePoll)
    ensures var d := UpdateArmingDisabled(c.(mode := Disarm(c.mode, reason)), a);
            var e := UpdateModeMask(cfg, d, a);
            MODE_ARMED !in e.mode.maskPrev && (HasChanged(e.mode, MODE_ARMED) <==> e.Armed()) &&
            (!e.Armed() ==> UpdateArmed(e) == e && e.mode.disarmReason == reason)
  {
    hide ModeFlags, Supervised, CanActivate, ArmingFlags;
  }

  /** So the reason of the last disarm is shown until the craft is armed again. */
  lemma {:induction false} ReasonStays(cfg: Config, run: seq<Event>, m: nat, n: nat)
    requires m <= n <= |run| && forall i :: m <= i <= n ==> !At(cfg, run, i).Armed()
    ensures At(cfg, run, n).mode.disarmReason == At(cfg, run, m).mode.disarmReason
  {
    hide Step;
    if m < n {
      ReasonStays(cfg, run, m, n - 1);
      ReasonsHold(cfg, run, n - 1);
      assert !At(cfg, run, n - 1).Armed() && !At(cfg, run, n).Armed();
      DisarmedKeepsReason(cfg, At(cfg, run, n - 1), run[n - 1]);
    }
  }

  lemma DisarmedKeepsReason(cfg: Config, c: Craft, e: Event)
    requires !c.Armed() && !Step(cfg, c, e).Armed()
    ensures Step(cfg, c, e).mode.disarmReason == c.mode.disarmReason
  {
    hide ModeStep;
    if e.Modes? { UpdateReasons(cfg, c, e.a); }
  }

  // ----- The configurator's arming command -----

  /** No arming command of the configurator in [m, n) allows arming again. */
  ghost predicate NotAllowedAgain(run: seq<Event>, m: nat, n: nat)
    requires n <= |run|
  {
    forall i :: m <= i < n && run[i].MspArming? ==> run[i].disable
  }

  lemma MspFlagStays(cfg: Config, c: Craft, e: Event)
    requires e.Valid() && (e.MspArming? ==> e.disable) && Msp in c.mode.flags
    ensures Msp in Step(cfg, c, e).mode.flags
    ensures Step(cfg, c, e).Armed() ==> c.Armed()
  {
    match e
    case Modes(a) =>
      MspBlocks(cfg, c, a);
    case _ =>
  }

  lemma MspBlocks(cfg: Config, c: Craft, a: ModePoll)
    requires Msp in c.mode.flags
    ensures Msp in ModeStep(cfg, c, a).mode.flags
    ensures ModeStep(cfg, c, a).Armed() ==> c.Armed()
  {
    hide ModeStep, Moded, LandDecision;
    MaskAfterUpdate(cfg, c, a);
    assert Msp in SupervisionFlags(cfg, UpdateArmingDisabled(c, a), a);
    if !c.Armed() { NewModesExactly(cfg, c, a, MODE_ARMED); }
  }

  /** Once the configurator has disabled arming the craft is disarmed, and nothing arms it until the
      configurator allows it again. */
  lemma {:induction false} MspArmingHolds(cfg: Config, run: seq<Event>, m: nat, n: nat)
    requires IsRun(run) && m < n <= |run|
    requires run[m].MspArming? && run[m].disable && NotAllowedAgain(run, m, n)
    ensures !At(cfg, run, n).Armed() && Msp in At(cfg, run, n).mode.flags
  {
    hide Step;
    if m + 1 < n {
      MspArmingHolds(cfg, run, m, n - 1);
      assert run[n - 1].Valid();
      MspFlagStays(cfg, At(cfg, run, n - 1), run[n - 1]);
    } else {
      MspDisarms(cfg, At(cfg, run, m), run[m]);
    }
  }

  lemma MspDisarms(cfg: Config, c: Craft, e: Event)
    requires e.MspArming?
    ensures !Step(cfg, c, e).Armed() && (Msp in Step(cfg, c, e).mode.flags <==> e.disable)
  {}
}
