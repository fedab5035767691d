/** The receiver and mode code as it runs: one object whose fields the polls update in place.
    Every method is proved to move the state as `ReceiverSpec` and `ActuatorSpec` say. */
module Firmware {
  import opened FlightModel
  import opened ReceiverSpec
  import opened ActuatorSpec
  import ModeRows
  import FlightRuns

  /** The switch-side flags do not depend on what the ALTHOLD gate has already written. */
  lemma SameFlags(cfg: Config, c: Craft, d: Craft, a: ModePoll)
    requires d.fs == c.fs && d.mode.mask == c.mode.mask
    requires forall f: ArmingFlag :: f != AltHoldFlag ==> (f in c.mode.flags <==> f in d.mode.flags)
    ensures ModeFlags(cfg, c, a) == ModeFlags(cfg, d, a)
  {
    assert AltHoldBlocksArming(cfg, c, a) == AltHoldBlocksArming(cfg, d, a);
    forall f: ArmingFlag ensures f in SupervisionFlags(cfg, c, a) <==> f in SupervisionFlags(cfg, d, a) {
      if f == AltHoldFlag || f == FailsafePhaseFlag || f == BoxFailsafe {} else {}
    }
    assert SupervisionFlags(cfg, c, a) == SupervisionFlags(cfg, d, a);
  }

  /** Nor do the arming conditions depend on what the gyro check has already written. */
  lemma SameBlocks(c: Craft, d: Craft, a: ModePoll)
    requires d.fs == c.fs && d.rx == c.rx
    requires forall f: ArmingFlag :: f != NoGyro ==> (f in c.mode.flags <==> f in d.mode.flags)
    ensures forall f: ArmingFlag :: f != NoGyro ==> (BlocksArming(c, a, f) <==> BlocksArming(d, a, f))
  {}

  lemma AreArmingFlags(c: Craft, a: ModePoll, flags: set<ArmingFlag>)
    requires forall f: ArmingFlag :: f in flags <==> BlocksArming(c, a, f)
    ensures flags == ArmingFlags(c, a)
  {}

  class FlightController {
    const cfg: Config
    const rows: seq<ModeRows.Row>

    var failsafe: FailsafeState
    var input: RxState
    var mode: ModeState
    var angleFaultLatched: bool
    var altHoldFaultLatched: bool

    constructor (cfg: Config, rows: seq<ModeRows.Row>)
      ensures View() == BOOT && this.cfg == cfg && this.rows == rows
    {
      this.cfg := cfg;
      this.rows := rows;
      failsafe := FailsafeState(Idle, false, false, 0, NO_LAND);
      input := RxState(false, true, false, 0, 0, 0);
      mode := ModeState({}, {}, {}, {}, ReasonArmingDisabled, false);
      angleFaultLatched := false;
      altHoldFaultLatched := false;
    }

    ghost function View(): Craft
      reads this
    {
      Craft(failsafe, input, mode, Latches(angleFaultLatched, altHoldFaultLatched))
    }

    // ----- Model.h -----

    predicate IsModeActive(m: nat)
      reads this
    {
      m in mode.mask
    }

    predicate IsSwitchActive(m: nat)
      reads this
    {
      m in mode.maskSwitch
    }

    method SetArmingDisabled(flag: ArmingFlag, value: bool)
      modifies this`mode
      ensures mode == old(mode).(flags := mode.flags)
      ensures forall f: ArmingFlag :: f in mode.flags <==> if f == flag then value else f in old(mode.flags)
    {
      mode := mode.(flags := if value then mode.flags + {flag} else mode.flags - {flag});
    }

    method ClearModeBit(bit: nat)
      modifies this`mode
      ensures mode == ClearMode(old(mode), bit)
    {
      mode := mode.(maskPrev := mode.maskPrev + mode.mask * {bit});
      mode := mode.(mask := mode.mask - {bit});
    }

    method DisarmCraft(r: DisarmReason)
      modifies this`mode
      ensures mode == Disarm(old(mode), r)
      ensures mode.mask == old(mode.mask) - {MODE_ARMED, MODE_AIRMODE}
      ensures mode.maskPrev == old(mode.maskPrev) + old(mode.mask) * {MODE_ARMED, MODE_AIRMODE}
      ensures mode.disarmReason == r && mode.maskSwitch == old(mode.maskSwitch) && mode.flags == old(mode.flags)
      ensures HasChanged(mode, MODE_ARMED) <==> MODE_ARMED in old(mode.mask) + old(mode.maskPrev)
    {
      mode := mode.(disarmReason := r);
      ClearModeBit(MODE_ARMED);
      ClearModeBit(MODE_AIRMODE);
    }

    // ----- Input.cpp -----

    method ReadInputStatus(p: RxPoll)
      modifies this`input
      ensures input == ReadInputs(old(input), p)
    {
      if p.status == NoFrame {
        return;
      }
      input := input.(rxLoss := p.status == Lost || p.status == ReportedFailsafe);
      input := input.(rxFailSafe := p.status == ReportedFailsafe);
      input := input.(frameCount := input.frameCount + 1);
      if input.frameCount >= FIRST_FRAMES {
        input := input.(channelsValid := p.channelsOk);
      }
      if p.status == Received && input.channelsValid {
        input := input.(frameTime := p.frameAt);
      }
    }

    method FailsafeIdle()
      modifies this`failsafe, this`input
      ensures failsafe == old(failsafe).(phase := Idle) && input == old(input).(lossTime := 0)
    {
      failsafe := failsafe.(phase := Idle);
      input := input.(lossTime := 0);
    }

    method FailsafeStage1()
      modifies this`failsafe, this`input
      ensures View() == Stage1(old(View()))
    {
      failsafe := failsafe.(recoveryActive := false);
      failsafe := failsafe.(phase := RxLossDetected);
      input := input.(rxLoss := true);
    }

    method FailsafeStage2(p: RxPoll)
      modifies this`failsafe, this`input, this`mode
      ensures View() == Stage2(cfg, old(View()), p)
    {
      failsafe := failsafe.(recoveryActive := false);
      input := input.(rxLoss := true);
      input := input.(rxFailSafe := true);
      if !IsModeActive(MODE_ARMED) {
        if failsafe.phase != Landed {
          failsafe := failsafe.(phase := RxLossDetected);
        }
        return;
      }
      failsafe := failsafe.(phase := RxLossDetected);
      if cfg.autoLand {
        if !failsafe.land.requested {
          var land := failsafe.land.(requested := true);
          land := land.(entry := Entry(p.requestAt, p.height, p.vario, p.thrust));
          land := land.(grant := NO_GRANT, fault := false);
          land := land.(lastUpdateUs := 0, touchdown := NO_TOUCHDOWN);
          failsafe := failsafe.(land := land);
        }
        failsafe := failsafe.(phase := Landing);
        return;
      }
      failsafe := failsafe.(land := NO_LAND);
      failsafe := failsafe.(phase := Landed);
      DisarmCraft(ReasonFailsafe);
    }

    method ReceiveValidFrame(now: nat) returns (gated: bool)
      modifies this`failsafe, this`input
      ensures (View(), gated) == OnValidFrame(old(View()), now)
    {
      if !failsafe.recoveryActive {
        failsafe := failsafe.(recoveryActive := true, recoveryStartedUs := now);
      }
      var healthyForUs := now - failsafe.recoveryStartedUs;
      if !failsafe.rxEverValid {
        input := input.(rxLoss := true, rxFailSafe := false, lossTime := 0);
        if healthyForUs < RX_RECOVERY_US {
          return true;
        }
        failsafe := failsafe.(rxEverValid := true, recoveryActive := false);
        input := input.(rxLoss := false, rxFailSafe := false);
        FailsafeIdle();
        return false;
      }
      if failsafe.phase != Idle || input.rxLoss || input.rxFailSafe {
        if failsafe.phase == Landing && failsafe.land.requested {
          input := input.(rxLoss := true, rxFailSafe := false);
          if healthyForUs < RX_RECOVERY_US {
            return true;
          }
          input := input.(rxLoss := false, rxFailSafe := false);
          return true;
        }
        failsafe := failsafe.(phase := RxLossMonitoring);
        input := input.(rxLoss := true, rxFailSafe := false);
        if healthyForUs < RX_RECOVERY_US {
          return true;
        }
        failsafe := failsafe.(recoveryActive := false, phase := RxLossRecovered);
        input := input.(rxLoss := false, rxFailSafe := false);
        FailsafeIdle();
        return false;
      }
      failsafe := failsafe.(recoveryActive := false);
      input := input.(rxLoss := false, rxFailSafe := false, lossTime := 0);
      return false;
    }

    method RunFailsafe(p: RxPoll) returns (gated: bool)
      modifies this`failsafe, this`input, this`mode
      ensures (View(), gated) == Failsafe(cfg, old(View()), p)
    {
      if IsSwitchActive(MODE_FAILSAFE) && failsafe.rxEverValid {
        failsafe := failsafe.(recoveryActive := false);
        FailsafeStage2(p);
        return true;
      }
      if p.status == Received && input.channelsValid {
        gated := ReceiveValidFrame(p.now);
        return;
      }
      var recoveryInterrupted := (p.status == Received && !input.channelsValid) ||
                                 p.status == Dropped || p.status == Lost || p.status == ReportedFailsafe;
      if recoveryInterrupted {
        failsafe := failsafe.(recoveryActive := false);
      }
      if !failsafe.rxEverValid {
        input := input.(rxLoss := true, rxFailSafe := p.status == ReportedFailsafe, lossTime := 0);
        failsafe := failsafe.(phase := Idle);
        if failsafe.recoveryActive {
          if p.now - input.frameTime >= RX_RECOVERY_GAP_US {
            failsafe := failsafe.(recoveryActive := false);
          }
        }
        return true;
      }
      if p.status == ReportedFailsafe {
        failsafe := failsafe.(recoveryActive := false);
        FailsafeStage2(p);
        return true;
      }
      input := input.(lossTime := p.now - input.frameTime);
      if input.lossTime > Stage2TimeoutUs(cfg) {
        failsafe := failsafe.(recoveryActive := false);
        FailsafeStage2(p);
        return true;
      }
      if input.lossTime >= RX_RECOVERY_GAP_US {
        failsafe := failsafe.(recoveryActive := false);
        FailsafeStage1();
        return true;
      }
      if failsafe.phase == RxLossMonitoring {
        return true;
      }
      if failsafe.phase == Landing && failsafe.land.requested {
        return true;
      }
      return false;
    }

    method UpdateInput(p: RxPoll) returns (gated: bool)
      modifies this
      ensures (View(), gated) == RxStep(cfg, old(View()), p)
    {
      ReadInputStatus(p);
      gated := RunFailsafe(p);
    }

    // ----- Actuator.cpp -----

    method RefreshArmingDisabled(a: ModePoll)
      modifies this`mode
      ensures View() == UpdateArmingDisabled(old(View()), a)
    {
      hide BlocksArming, Disarm;
      CheckGyro(a);
      ghost var m := mode;
      SameBlocks(old(View()), View(), a);
      RefreshFlags(a);
      AreArmingFlags(old(View()), a, mode.flags);
      assert mode == m.(flags := ArmingFlags(old(View()), a));
    }

    /** A quadrotor without a fresh gyro is disarmed at once. */
    method CheckGyro(a: ModePoll)
      modifies this`mode
      ensures mode == (if old(View()).Armed() && !a.gyroFresh then Disarm(old(mode), ReasonSystem)
                       else old(mode)).(flags := mode.flags)
      ensures forall f: ArmingFlag ::
        f in mode.flags <==> if f == NoGyro then BlocksArming(old(View()), a, f) else f in old(mode.flags)
    {
      SetArmingDisabled(NoGyro, !a.gyroFresh || a.busErrors);
      if IsModeActive(MODE_ARMED) && !a.gyroFresh {
        DisarmCraft(ReasonSystem);
      }
    }

    /** The flags after the gyro check. */
    method RefreshFlags(a: ModePoll)
      modifies this`mode
      ensures mode == old(mode).(flags := mode.flags)
      ensures forall f: ArmingFlag ::
        f in mode.flags <==> if f == NoGyro then f in old(mode.flags) else BlocksArming(old(View()), a, f)
    {
      RefreshPilotFlags(a);
      RefreshConfigFlags(a);
    }

    method RefreshPilotFlags(a: ModePoll)
      modifies this`mode
      ensures mode == old(mode).(flags := mode.flags)
      ensures forall f: ArmingFlag ::
        f in mode.flags <==>
          if f in {FailsafePhaseFlag, RxFailsafe, ThrottleHigh, Calibrating} then BlocksArming(old(View()), a, f)
          else f in old(mode.flags)
    {
      SetArmingDisabled(FailsafePhaseFlag, failsafe.phase != Idle);
      SetArmingDisabled(RxFailsafe, input.rxLoss || input.rxFailSafe);
      SetArmingDisabled(ThrottleHigh, !a.throttleLow);
      SetArmingDisabled(Calibrating, a.calibrating);
    }

    method RefreshConfigFlags(a: ModePoll)
      modifies this`mode
      ensures mode == old(mode).(flags := mode.flags)
      ensures forall f: ArmingFlag ::
        f in mode.flags <==>
          if f in {MotorProtocol, RebootRequired, TiltAngle, Gps} then BlocksArming(old(View()), a, f)
          else f in old(mode.flags)
    {
      SetArmingDisabled(MotorProtocol, a.protocolDisabled);
      SetArmingDisabled(RebootRequired, a.rebootRequired);
      SetArmingDisabled(TiltAngle, a.tiltUnsafe);
      SetArmingDisabled(Gps, a.gpsMissing);
    }

    method CanActivateMode(m: nat, a: ModePoll) returns (can: bool)
      ensures can == CanActivate(mode, Latches(angleFaultLatched, altHoldFaultLatched), a, m)
    {
      if m == MODE_ARMED {
        can := mode.flags == {} && !a.pinConflict && a.throttleLow;
      } else if m == MODE_ANGLE {
        can := a.attitudeHealthyAtActivation && !angleFaultLatched;
      } else if m == MODE_AIRMODE {
        can := mode.airmodeAllowed;
      } else if m == MODE_ALTHOLD {
        can := a.altitudeHealthyAtActivation && !altHoldFaultLatched && a.stickValid && a.stickCentered;
      } else {
        can := true;
      }
    }

    /** The loop over all modes that clears the bits of modes that may not be activated. */
    method BlockActivations(want: Mask, a: ModePoll) returns (newMask: Mask)
      ensures newMask == Granted(want, mode, Latches(angleFaultLatched, altHoldFaultLatched), a)
    {
      newMask := want;
      ghost var l := Latches(angleFaultLatched, altHoldFaultLatched);
      for i := 0 to MODE_COUNT
        invariant newMask == set k | k in want && (k >= i || k in mode.mask || CanActivate(mode, l, a, k))
      {
        var newVal := i in newMask;
        var oldVal := IsModeActive(i);
        if newVal == oldVal { continue; }
        var can := CanActivateMode(i, a);
        if newVal && !can {
          newMask := newMask - {i};
        }
      }
    }

    /** The estimator and stick gates of ALTHOLD that block a new arm. */
    method RefreshAltHoldFlag(a: ModePoll)
      modifies this`mode
      ensures mode == old(mode).(flags := mode.flags)
      ensures forall f: ArmingFlag ::
        f in mode.flags <==> if f == AltHoldFlag then AltHoldBlocksArming(cfg, old(View()), a) else f in old(mode.flags)
    {
      var altHoldRequested := MODE_ALTHOLD in a.requested;
      var assistedAltitudeRequired := altHoldRequested || (cfg.autoLand && MODE_ARMED in a.requested);
      var altHoldWasActive := IsModeActive(MODE_ALTHOLD);
      var altHoldPilotValid := !altHoldRequested || a.stickValid;
      var altHoldEntryUnsafe := altHoldRequested && !altHoldWasActive && !(a.stickValid && a.stickCentered);
      SetArmingDisabled(AltHoldFlag,
        (assistedAltitudeRequired && !a.altitudeHealthy) || !altHoldPilotValid || altHoldEntryUnsafe);
    }

    /** The two fault latches, and the request without the modes they or the estimators veto. */
    method FilterAssisted(a: ModePoll) returns (newMask: Mask)
      modifies this`angleFaultLatched, this`altHoldFaultLatched
      ensures View().latch == NextLatches(old(View().latch), a)
      ensures newMask == Assisted(View().latch, a)
    {
      newMask := a.requested;
      var angleRequested := MODE_ANGLE in newMask;
      var altHoldRequested := MODE_ALTHOLD in newMask;
      var altHoldPilotValid := !altHoldRequested || a.stickValid;
      if !angleRequested {
        angleFaultLatched := false;
      } else if !a.attitudeHealthy {
        angleFaultLatched := true;
      }
      if angleFaultLatched || !a.attitudeHealthy {
        newMask := newMask - {MODE_ANGLE};
      }
      if !altHoldRequested {
        altHoldFaultLatched := false;
      } else if !a.altitudeHealthy || !altHoldPilotValid {
        altHoldFaultLatched := true;
      }
      if altHoldFaultLatched || !a.altitudeHealthy || !altHoldPilotValid {
        newMask := newMask - {MODE_ALTHOLD};
      }
    }

    method RefreshSwitchFlags(a: ModePoll)
      requires mode.maskSwitch == a.requested
      modifies this`mode
      ensures mode == old(mode).(flags := mode.flags)
      ensures var c := old(View());
              old(AltHoldFlag in mode.flags) == AltHoldBlocksArming(cfg, c, a) ==> mode.flags == ModeFlags(cfg, c, a)
    {
      SetArmingDisabled(FailsafePhaseFlag, failsafe.phase != Idle);
      SetArmingDisabled(BoxFailsafe, IsSwitchActive(MODE_FAILSAFE));
      ghost var blocked := old(AltHoldFlag in mode.flags) == AltHoldBlocksArming(cfg, old(View()), a);
      assert blocked ==> mode.flags == SupervisionFlags(cfg, old(View()), a);
      ghost var before := mode.flags;
      var armSwitch := (mode.flags != {} || a.pinConflict) && IsSwitchActive(MODE_ARMED);
      SetArmingDisabled(ArmSwitch, armSwitch);
      assert mode.flags == if armSwitch then before + {ArmSwitch} else before - {ArmSwitch};
    }

    method SuperviseModes(a: ModePoll)
      modifies this`mode, this`angleFaultLatched, this`altHoldFaultLatched
      ensures View() == UpdateModeMask(cfg, old(View()), a)
    {
      mode := mode.(maskSwitch := a.requested);
      RefreshAltHoldFlag(a);
      var newMask := FilterAssisted(a);
      ghost var c := View();
      RefreshSwitchFlags(a);
      SameFlags(cfg, old(View()), c, a);
      if failsafe.phase != Idle {
        newMask := newMask + {MODE_FAILSAFE};
      }
      assert newMask == Supervised(old(View()), View().latch, a);
      newMask := BlockActivations(newMask, a);
      mode := mode.(maskPrev := mode.mask, mask := newMask);
    }

    method RefreshArmed()
      modifies this`mode, this`failsafe
      ensures View() == UpdateArmed(old(View()))
    {
      if HasChanged(mode, MODE_ARMED) {
        if IsModeActive(MODE_ARMED) {
          mode := mode.(disarmReason := ReasonSystem);
          failsafe := failsafe.(land := NO_LAND);
        } else if mode.disarmReason == ReasonSystem {
          mode := mode.(disarmReason := ReasonSwitch);
        }
      }
    }

    method SuperviseLand(a: ModePoll)
      modifies this`mode, this`failsafe
      ensures View() == UpdateFailsafeLand(cfg, old(View()), a)
    {
      var land := failsafe.land;
      var activeLandRequest := land.requested && failsafe.phase == Landing && IsModeActive(MODE_ARMED);
      if !land.requested {
        land := land.(grant := NO_GRANT);
        land := land.(lastUpdateUs := 0, touchdown := NO_TOUCHDOWN);
        failsafe := failsafe.(land := land);
        return;
      }
      var eligible := failsafe.rxEverValid && a.altitudeHealthyAtLand;
      land := land.(grant := Granting(eligible, a.altitudeHealthyAtLand));
      if !eligible {
        land := land.(fault := true);
      }
      land := land.(lastUpdateUs := a.now);
      var ended := false;
      if activeLandRequest {
        if !eligible {
          land := land.(touchdown := NO_TOUCHDOWN);
          ended := true;
        } else {
          land := land.(grant := land.grant.(outputBlocked := false));
          if a.now - land.entry.requestedUs >= LandTimeoutUs(land.entry.height, a.nanCast) {
            land := land.(fault := true, touchdown := NO_TOUCHDOWN);
            ended := true;
          } else if !land.touchdown.candidate {
            if TouchdownEvidence(cfg, land.entry, a) {
              land := land.(touchdown := Touchdown(true, a.now));
            }
          } else if HoldEvidence(cfg, land.entry, a) {
            var touchdownDwellUs := a.now - land.touchdown.startedUs;
            ended := touchdownDwellUs >= TOUCHDOWN_DWELL_US;
          } else {
            land := land.(touchdown := NO_TOUCHDOWN);
          }
        }
      }
      if ended {
        land := land.(requested := false);
        land := land.(grant := land.grant.(active := false, levelRequested := false, descentRequested := false,
                                           outputBlocked := true));
        failsafe := failsafe.(phase := Landed);
        DisarmCraft(ReasonFailsafe);
      }
      failsafe := failsafe.(land := land);
    }

    method RefreshAirMode(a: ModePoll)
      modifies this`mode
      ensures View() == UpdateAirMode(old(View()), a)
    {
      var armed := IsModeActive(MODE_ARMED);
      if !armed {
        mode := mode.(airmodeAllowed := false);
      }
      if armed && !mode.airmodeAllowed && a.airmodeThrottle {
        mode := mode.(airmodeAllowed := true);
      }
    }

    /** `Actuator::update`: the rows are resolved first, everything else reads that request. */
    method UpdateActuator(poll: ModePoll, sample: ModeRows.Sample)
      requires sample.Valid()
      modifies this
      ensures View() == ModeStep(cfg, old(View()), poll.(requested := ModeRows.Requested(rows, sample)))
    {
      var requested := ModeRows.Evaluate(rows, sample);
      var a := poll.(requested := requested);
      RefreshArmingDisabled(a);
      SuperviseModes(a);
      RefreshArmed();
      SuperviseLand(a);
      RefreshAirMode(a);
    }

    // ----- Commands from outside, and whole runs -----

    /** The configurator's arming command. */
    method MspArming(disable: bool)
      modifies this`mode
      ensures View() == FlightRuns.Step(cfg, old(View()), FlightRuns.MspArming(0, disable))
    {
      WriteFlag(Msp, disable);
      if IsModeActive(MODE_ARMED) {
        DisarmCraft(ReasonArmingDisabled);
      }
    }

    method WriteFlag(flag: ArmingFlag, value: bool)
      modifies this`mode
      ensures mode == FlightRuns.WriteFlag(old(mode), flag, value)
    {
      ghost var m := mode;
      SetArmingDisabled(flag, value);
      assert mode.flags == if value then m.flags + {flag} else m.flags - {flag};
    }

    /** One event of a run; a mode update is given the row inputs that lead to its request. */
    method Handle(e: FlightRuns.Event, sample: ModeRows.Sample)
      requires e.Modes? ==> sample.Valid() && e.a.requested == ModeRows.Requested(rows, sample)
      modifies this
      ensures View() == FlightRuns.Step(cfg, old(View()), e)
    {
      hide RxStep, ModeStep, ModeRows.Requested, Disarm;
      match e
      case Rx(p) => var _ := UpdateInput(p);
      case Modes(a) =>
        assert a.(requested := ModeRows.Requested(rows, sample)) == a;
        UpdateActuator(a, sample);
      case MspArming(_, disable) => MspArming(disable);
      case OtherFlag(_, flag, value) => WriteFlag(flag, value);
    }

    /** A freshly booted object that handles a run ends where `FlightRuns.At` says, so every property
        of runs is a property of this code. */
    method HandleAll(run: seq<FlightRuns.Event>, samples: seq<ModeRows.Sample>)
      requires View() == BOOT && |samples| == |run|
      requires forall i :: 0 <= i < |run| && run[i].Modes? ==>
        samples[i].Valid() && run[i].a.requested == ModeRows.Requested(rows, samples[i])
      modifies this
      ensures View() == FlightRuns.At(cfg, run, |run|)
    {
      hide FlightRuns.Step, ModeRows.Requested;
      for i := 0 to |run|
        invariant View() == FlightRuns.At(cfg, run, i)
      {
        Handle(run[i], samples[i]);
      }
    }
  }
}
