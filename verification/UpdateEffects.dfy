/** One mode update, field by field: what it leaves in every field of the craft, in numbers and without
    the steps that lead there.  The bits are ARMED 0, AIRMODE 1, ANGLE 2, ALTHOLD 3 and FAILSAFE 5. */
module UpdateEffects {
  import opened FlightModel
  import opened ActuatorSpec
  import opened FlightRuns
  import opened ArmingRules

  // ----- LAND -----

  /** The update finds a LAND under way: armed before and still wanted, the gyro fresh. */
  predicate LandLive(c: Craft, a: ModePoll) {
    0 in c.mode.mask && a.gyroFresh && 0 in a.requested && c.fs.phase == Landing && c.fs.land.requested
  }

  function ElapsedUs(c: Craft, a: ModePoll): int { a.now - c.fs.land.entry.requestedUs }

  /** The time is up: ten seconds more than a descent at 0.1 m/s takes, at least 15 s and at most 60 s. */
  predicate TimeIsUp(c: Craft, a: ModePoll) {
    match c.fs.land.entry.height
    case NotANumber => ElapsedUs(c, a) >= a.nanCast % 0x1_0000_0000
    case Infinite(positive) => ElapsedUs(c, a) >= if positive then 60_000_000 else 15_000_000
    case Finite(v) =>
      if v <= 0.5 then ElapsedUs(c, a) >= 15_000_000
      else if v >= 5.0 then ElapsedUs(c, a) >= 60_000_000
      else ElapsedUs(c, a) >= (10_000_000.0 * v).Floor + 10_000_000
  }

  /** The craft is 20 cm below its entry height, or began at no more than 25 cm. */
  predicate CameDown(c: Craft, a: ModePoll) {
    match c.fs.land.entry.height
    case NotANumber => false
    case Infinite(_) => true
    case Finite(v) => a.height <= v - 0.20 || v <= 0.25
  }

  /** The hover thrust of the configuration: 10 % to 60 % of the range -1 to 1. */
  function HoverOf(cfg: Config): real {
    if cfg.itermCenter <= 10 then -0.8 else if cfg.itermCenter >= 60 then 0.2
    else cfg.itermCenter as real / 50.0 - 1.0
  }

  /** The commanded thrust is at most `thrust`, and so it is short of `level` by the margin. */
  predicate ShortOf(a: ModePoll, level: real, margin: real) {
    a.thrust.Finite? && a.thrust.value <= level - margin
  }

  /** On the ground as far as the sensors tell: 1.5 s into the descent, hardly moving, low, come down, and the
      thrust short of both the hover thrust and the thrust at entry. */
  predicate OnGround(cfg: Config, c: Craft, a: ModePoll, speed: real, height: real, margin: real) {
    ElapsedUs(c, a) >= 1_500_000 && -speed <= a.vario <= speed && a.height <= height && CameDown(c, a) &&
    ShortOf(a, HoverOf(cfg), margin) &&
    (c.fs.land.entry.thrust.Finite? ==>
      var t := c.fs.land.entry.thrust.value;
      ShortOf(a, if t < -1.0 then -1.0 else if t > 1.0 then 1.0 else t, margin))
  }

  /** What starts a touchdown: 15 cm/s, 30 cm, 5 %. */
  predicate GroundContact(cfg: Config, c: Craft, a: ModePoll) { OnGround(cfg, c, a, 0.15, 0.30, 0.05) }

  /** What keeps it: 25 cm/s, 40 cm, 2 %. */
  predicate GroundHold(cfg: Config, c: Craft, a: ModePoll) { OnGround(cfg, c, a, 0.25, 0.40, 0.02) }

  predicate LandsNow(cfg: Config, c: Craft, a: ModePoll) {
    c.fs.land.touchdown.candidate && GroundHold(cfg, c, a) && a.now - c.fs.land.touchdown.startedUs >= 1_000_000
  }

  /** The ending of a LAND at this update, if it has one. */
  predicate Ends(cfg: Config, c: Craft, a: ModePoll) {
    LandLive(c, a) && (!c.fs.rxEverValid || !a.altitudeHealthyAtLand || TimeIsUp(c, a) || LandsNow(cfg, c, a))
  }

  lemma LiveIsActive(cfg: Config, c: Craft, a: ModePoll)
    ensures ActiveLand(Moded(cfg, c, a)) <==> LandLive(c, a)
    ensures LandLive(c, a) ==> Moded(cfg, c, a).fs == c.fs
  {
    if c.Armed() { KeepsArm(cfg, c, a); }
    if Moded(cfg, c, a).Armed() { ModedArming(cfg, c, a); } else { ModedDisarmed(cfg, c, a); }
  }

  lemma TimeIsTimeout(c: Craft, a: ModePoll)
    ensures TimeIsUp(c, a) <==> Expired(c.fs.land.entry, a.now, a.nanCast)
  {
    match c.fs.land.entry.height
    case Finite(v) =>
      FiniteTimeoutIs(v);
    case _ =>
  }

  lemma FiniteTimeoutIs(v: real)
    ensures LandTimeoutUs(Finite(v), 0) ==
            if v <= 0.5 then 15_000_000 else if v >= 5.0 then 60_000_000 else (10_000_000.0 * v).Floor + 10_000_000
    ensures forall nanCast: nat :: LandTimeoutUs(Finite(v), nanCast) == LandTimeoutUs(Finite(v), 0)
  {}

  lemma HoverIs(cfg: Config)
    ensures HoverThrust(cfg) == HoverOf(cfg)
  {}

  lemma EvidenceIs(cfg: Config, c: Craft, a: ModePoll, speed: real, height: real, margin: real)
    requires speed >= 0.0
    ensures Evidence(cfg, c.fs.land.entry, a, speed, height, margin) <==> OnGround(cfg, c, a, speed, height, margin)
  {
    HoverIs(cfg);
    hide HoverThrust, HoverOf;
  }

  /** Which way a LAND goes. */
  lemma LandGoes(cfg: Config, c: Craft, a: ModePoll)
    ensures LandDecision(cfg, Moded(cfg, c, a), a) ==
            if !LandLive(c, a) then Inactive
            else if !c.fs.rxEverValid || !a.altitudeHealthyAtLand then Faulted
            else if TimeIsUp(c, a) then TimedOut
            else if LandsNow(cfg, c, a) then Touched
            else Descending
  {
    hide Moded, ActiveLand, TimeIsUp, Expired, Evidence, OnGround;
    LiveIsActive(cfg, c, a);
    TimeIsTimeout(c, a);
    EvidenceIs(cfg, c, a, 0.25, 0.40, 0.02);
  }

  /** A new arm at this update. */
  predicate ArmsNow(cfg: Config, c: Craft, a: ModePoll) {
    0 !in c.mode.mask && 0 in ModeStep(cfg, c, a).mode.mask
  }

  /** A new arm clears the LAND record; the ending of a LAND withdraws the request, and with it authority; a
      live request gets what the estimator grants, and the output only while it descends. */
  lemma LandRecordAfterUpdate(cfg: Config, c: Craft, a: ModePoll)
    ensures var l, m := c.fs.land, ModeStep(cfg, c, a).fs.land;
            if ArmsNow(cfg, c, a) then
              m == Land(false, false, 0, Entry(0, Finite(0.0), Finite(0.0), Finite(0.0)),
                        Grant(false, false, false, false, false, true), Touchdown(false, 0))
            else if !l.requested then
              m == l.(lastUpdateUs := 0, grant := Grant(false, false, false, false, false, true), touchdown := Touchdown(false, 0))
            else
              var eligible := c.fs.rxEverValid && a.altitudeHealthyAtLand;
              var going := eligible && !Ends(cfg, c, a);
              m.requested == !Ends(cfg, c, a) && m.entry == l.entry && m.lastUpdateUs == a.now &&
              m.fault == (l.fault || !eligible || (LandLive(c, a) && TimeIsUp(c, a))) &&
              m.grant == Grant(a.altitudeHealthyAtLand, eligible, going, going, going, !(going && LandLive(c, a)))
  {
    hide ModeStep, Moded, LandDecision, LandLive, TimeIsUp, LandsNow, Disarm, Expired, Evidence, OnGround, UpdateAirMode;
    LandIs(cfg, c, a);
    LandGoes(cfg, c, a);
    ArmIs(cfg, c, a);
    LiveIsActive(cfg, c, a);
    if Moded(cfg, c, a).Armed() { ModedArming(cfg, c, a); } else { ModedDisarmed(cfg, c, a); }
  }

  lemma LandIs(cfg: Config, c: Craft, a: ModePoll)
    ensures ModeStep(cfg, c, a).fs.land == NextLand(cfg, Moded(cfg, c, a), a)
    ensures ModeStep(cfg, c, a).fs ==
            Moded(cfg, c, a).fs.(land := NextLand(cfg, Moded(cfg, c, a), a),
              phase := if EndsLand(LandDecision(cfg, Moded(cfg, c, a), a)) then Landed else Moded(cfg, c, a).fs.phase)
  {}

  lemma ArmIs(cfg: Config, c: Craft, a: ModePoll)
    ensures ModeStep(cfg, c, a).Armed() <==> Moded(cfg, c, a).Armed() && !EndsLand(LandDecision(cfg, Moded(cfg, c, a), a))
    ensures 0 !in c.mode.mask ==> !EndsLand(LandDecision(cfg, Moded(cfg, c, a), a))
  {
    hide ModeStep, LandDecision;
    ModeStepShape(cfg, c, a);
    if !c.Armed() { NewArmKeepsLand(cfg, c, a); }
  }

  /** The touchdown candidate of a request that stays alive: started by contact, kept by hold. */
  lemma TouchdownAfterUpdate(cfg: Config, c: Craft, a: ModePoll)
    ensures var t := ModeStep(cfg, c, a).fs.land.touchdown;
            c.fs.land.requested && !ArmsNow(cfg, c, a) ==>
              t == if !LandLive(c, a) then c.fs.land.touchdown
                   else if !c.fs.rxEverValid || !a.altitudeHealthyAtLand || TimeIsUp(c, a) then Touchdown(false, 0)
                   else if !c.fs.land.touchdown.candidate then
                     if GroundContact(cfg, c, a) then Touchdown(true, a.now) else c.fs.land.touchdown
                   else if GroundHold(cfg, c, a) then c.fs.land.touchdown else Touchdown(false, 0)
  {
    hide ModeStep, Moded, LandLive, TimeIsUp, Disarm, Expired, Evidence, OnGround, ActiveLand;
    LandIs(cfg, c, a);
    LiveIsActive(cfg, c, a);
    TimeIsTimeout(c, a);
    EvidenceIs(cfg, c, a, 0.25, 0.40, 0.02);
    EvidenceIs(cfg, c, a, 0.15, 0.30, 0.05);
    ArmIs(cfg, c, a);
    if Moded(cfg, c, a).Armed() { ModedArming(cfg, c, a); } else { ModedDisarmed(cfg, c, a); }
  }

  /** Nothing else of the receiver's and the failsafe's state changes, but for LANDED at the end of a LAND. */
  lemma FailsafeAfterUpdate(cfg: Config, c: Craft, a: ModePoll)
    ensures var d := ModeStep(cfg, c, a);
            d.rx == c.rx && d.fs.rxEverValid == c.fs.rxEverValid && d.fs.recoveryActive == c.fs.recoveryActive &&
            d.fs.recoveryStartedUs == c.fs.recoveryStartedUs &&
            d.fs.phase == (if Ends(cfg, c, a) then Landed else c.fs.phase)
  {
    hide ModeStep, Moded, LandDecision, LandLive, TimeIsUp, LandsNow, NextLand;
    LandIs(cfg, c, a);
    LandGoes(cfg, c, a);
    ModeStepShape(cfg, c, a);
    if Moded(cfg, c, a).Armed() { ModedArming(cfg, c, a); } else { ModedDisarmed(cfg, c, a); }
  }

  // ----- Flags -----

  /** After an update a flag is up exactly if it stands against arming; the arm-switch flag exactly if the
      switch is on and anything stands against arming, itself included. */
  lemma FlagsAfterUpdate(cfg: Config, c: Craft, a: ModePoll, flag: ArmingFlag)
    ensures flag in ModeStep(cfg, c, a).mode.flags <==>
            if flag == ArmSwitch then 0 in a.requested && (a.pinConflict || exists f :: Stands(cfg, c, a, f))
            else Stands(cfg, c, a, flag)
  {
    hide ModeStep, Stands, SupervisionFlags, UpdateArmingDisabled;
    MaskAfterUpdate(cfg, c, a);
    var flags := SupervisionFlags(cfg, UpdateArmingDisabled(c, a), a);
    forall f: ArmingFlag ensures f in flags <==> Stands(cfg, c, a, f) { StandsIsFlag(cfg, c, a, f); }
    if f :| Stands(cfg, c, a, f) { assert f in flags; }
    if flags != {} { var f :| f in flags; }
  }

  // ----- Modes -----

  /** ANGLE is latched out while requested by any failed attitude, ALTHOLD by a failed altitude or stick. */
  lemma LatchesAfterUpdate(cfg: Config, c: Craft, a: ModePoll)
    ensures var l := ModeStep(cfg, c, a).latch;
            (l.angle <==> 2 in a.requested && (c.latch.angle || !a.attitudeHealthy)) &&
            (l.altHold <==> 3 in a.requested && (c.latch.altHold || !a.altitudeHealthy || !a.stickValid))
  {}

  /** A stale gyro disarms before the modes are looked at. */
  predicate GyroDisarms(c: Craft, a: ModePoll) { 0 in c.mode.mask && !a.gyroFresh }

  /** Which modes are on after an update, mode by mode. */
  predicate StaysOrComes(cfg: Config, c: Craft, a: ModePoll, mode: nat) {
    if mode == 0 then
      0 in a.requested && !Ends(cfg, c, a) &&
      if 0 in c.mode.mask then a.gyroFresh
      else MayArm(cfg, c, a)
    else if mode == 1 then
      1 in a.requested && !Ends(cfg, c, a) && (c.mode.airmodeAllowed || (1 in c.mode.mask && !GyroDisarms(c, a)))
    else if mode == 2 then
      2 in a.requested && a.attitudeHealthy && !c.latch.angle && (2 in c.mode.mask || a.attitudeHealthyAtActivation)
    else if mode == 3 then
      3 in a.requested && a.altitudeHealthy && a.stickValid && !c.latch.altHold &&
      (3 in c.mode.mask || (a.altitudeHealthyAtActivation && a.stickCentered))
    else mode in a.requested || (mode == 5 && c.fs.phase != Idle)
  }

  lemma ModesAfterUpdate(cfg: Config, c: Craft, a: ModePoll, mode: nat)
    ensures mode in ModeStep(cfg, c, a).mode.mask <==> StaysOrComes(cfg, c, a, mode)
  {
    hide ModeStep, Moded, LandDecision, Ends, MayArm, LandLive, TimeIsUp, LandsNow, ModeFlags;
    MaskAfterUpdate(cfg, c, a);
    EndsIs(cfg, c, a);
    if mode == 0 && 0 in a.requested {
      FlagsAllow(cfg, c, a);
      if !a.gyroFresh { NoGyroNoArm(cfg, c, a); }
    }
  }

  lemma NoGyroNoArm(cfg: Config, c: Craft, a: ModePoll)
    requires !a.gyroFresh
    ensures !MayArm(cfg, c, a)
  {}

  lemma EndsIs(cfg: Config, c: Craft, a: ModePoll)
    ensures Ends(cfg, c, a) <==> EndsLand(LandDecision(cfg, Moded(cfg, c, a), a))
  {
    hide Moded, LandDecision, LandLive, TimeIsUp, LandsNow;
    LandGoes(cfg, c, a);
  }

  /** The switch mask is the request; the previous mask is the mask before, less what a stale gyro took out,
      with what the ending of a LAND takes out now; airmode stays allowed once the throttle was up, while armed. */
  lemma OtherModeFields(cfg: Config, c: Craft, a: ModePoll)
    ensures var m := ModeStep(cfg, c, a).mode;
            m.maskSwitch == a.requested &&
            (m.airmodeAllowed <==> 0 in m.mask && (c.mode.airmodeAllowed || a.airmodeThrottle)) &&
            (forall k: nat :: k in m.maskPrev <==>
              (k in c.mode.mask && !(GyroDisarms(c, a) && k in {0, 1})) ||
              (Ends(cfg, c, a) && (k == 0 || (k == 1 && 1 in a.requested &&
                (c.mode.airmodeAllowed || (1 in c.mode.mask && !GyroDisarms(c, a)))))))
  {
    hide LandDecision, Ends, LandLive, TimeIsUp, LandsNow, ModeFlags, NextLand, ArmingFlags;
    EndsIs(cfg, c, a);
    if Ends(cfg, c, a) { EndedWasArmed(cfg, c, a); }
  }

  lemma EndedWasArmed(cfg: Config, c: Craft, a: ModePoll)
    requires Ends(cfg, c, a)
    ensures 0 in c.mode.mask && a.gyroFresh && 0 in a.requested
  {}
}
