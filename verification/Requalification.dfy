/** The receiver must be healthy for a whole window before it is trusted, and trusted before arming. */
module Requalification {
  import opened FlightModel
  import opened ReceiverSpec
  import opened ActuatorSpec
  import opened FlightRuns
  import opened ArmingRules

  /** A receiver poll that does not break a qualification window: no BOXFAILSAFE in force, and
      either a valid frame or an idle poll soon enough after the last one. */
  ghost predicate HealthyPoll(c: Craft, p: RxPoll) {
    !(MODE_FAILSAFE in c.mode.maskSwitch && c.fs.rxEverValid) &&
    (ValidFrame(c.rx, p) || (p.status == NoFrame && p.now - c.rx.frameTime < 200_000))
  }

  /** Since the valid frame at event `j`, every receiver poll before event `i` was healthy. */
  ghost predicate HealthySince(cfg: Config, run: seq<Event>, j: nat, i: nat)
    requires i <= |run|
  {
    j < i && Valid(cfg, run, j) &&
    forall k :: j <= k < i && run[k].Rx? ==> HealthyPoll(At(cfg, run, k), run[k].p)
  }

  /** A full healthy window ends with the valid frame at event `i`. */
  ghost predicate Requalifies(cfg: Config, run: seq<Event>, i: nat)
    requires i < |run|
  {
    Valid(cfg, run, i) && HealthyPoll(At(cfg, run, i), run[i].p) &&
    exists j: nat :: HealthySince(cfg, run, j, i) && run[i].p.now - run[j].p.now >= 500_000
  }

  // ----- One poll -----

  /** A recovery timer that runs after a poll was running before it, or was started by it. */
  lemma TimerStep(cfg: Config, c: Craft, p: RxPoll)
    requires Unqualified(c)
    ensures var d := RxStep(cfg, c, p).0;
            d.fs.recoveryActive ==>
              HealthyPoll(c, p) &&
              (if c.fs.recoveryActive then d.fs.recoveryStartedUs == c.fs.recoveryStartedUs
               else ValidFrame(c.rx, p) && d.fs.recoveryStartedUs == p.now)
  {}

  /** Trust is first given, and the failsafe phase ends, only when the timer has run its full time. */
  lemma TrustStep(cfg: Config, c: Craft, p: RxPoll)
    requires Unqualified(c)
    ensures var d := RxStep(cfg, c, p).0;
            (!c.fs.rxEverValid && d.fs.rxEverValid) || (c.fs.phase != Idle && d.fs.phase == Idle) ==>
              ValidFrame(c.rx, p) && HealthyPoll(c, p) && c.fs.recoveryActive &&
              p.now - c.fs.recoveryStartedUs >= 500_000 &&
              !d.rx.rxLoss && !d.rx.rxFailSafe
  {}

  /** Mode updates and commands leave the receiver's own state alone. */
  lemma OtherStep(cfg: Config, c: Craft, e: Event)
    requires !e.Rx?
    ensures var d := Step(cfg, c, e);
            d.fs.recoveryActive == c.fs.recoveryActive && d.fs.recoveryStartedUs == c.fs.recoveryStartedUs &&
            d.fs.rxEverValid == c.fs.rxEverValid && d.rx == c.rx &&
            (d.fs.phase == c.fs.phase || d.fs.phase == Landed)
  {}

  // ----- Whole runs -----

  /** A running recovery timer was started by a valid frame and has seen only healthy polls since. */
  lemma {:induction false} TimerHasWindow(cfg: Config, run: seq<Event>, i: nat) returns (j: nat)
    requires IsRun(run) && i <= |run| && At(cfg, run, i).fs.recoveryActive
    ensures HealthySince(cfg, run, j, i) && run[j].p.now == At(cfg, run, i).fs.recoveryStartedUs
  {
    hide Step, RxStep;
    var c, e := At(cfg, run, i - 1), run[i - 1];
    RunInvariants(cfg, run, i - 1);
    if e.Rx? {
      RxIsStep(cfg, c, e);
      TimerStep(cfg, c, e.p);
      if !c.fs.recoveryActive {
        return i - 1;
      }
    } else {
      OtherStep(cfg, c, e);
    }
    j := TimerHasWindow(cfg, run, i - 1);
  }

  /** In every run, the receiver is first trusted, and the failsafe phase returns to IDLE from any
      other phase, only at a valid frame that ends a healthy window of at least 500 ms. */
  lemma TrustNeedsWindow(cfg: Config, run: seq<Event>, i: nat)
    requires IsRun(run) && i < |run|
    requires (!At(cfg, run, i).fs.rxEverValid && At(cfg, run, i + 1).fs.rxEverValid) ||
             (At(cfg, run, i).fs.phase != Idle && At(cfg, run, i + 1).fs.phase == Idle)
    ensures Requalifies(cfg, run, i)
  {
    hide Step, RxStep;
    var c, e := At(cfg, run, i), run[i];
    RunInvariants(cfg, run, i);
    if e.Rx? {
      RxIsStep(cfg, c, e);
      TrustStep(cfg, c, e.p);
      var j := TimerHasWindow(cfg, run, i);
    } else {
      OtherStep(cfg, c, e);
    }
  }

  /** A trusted receiver was qualified by some earlier window. */
  lemma {:induction false} TrustWasEarned(cfg: Config, run: seq<Event>, i: nat) returns (k: nat)
    requires IsRun(run) && i <= |run| && At(cfg, run, i).fs.rxEverValid
    ensures k < i && Requalifies(cfg, run, k)
  {
    hide Step, IsRun, Requalifies;
    if At(cfg, run, i - 1).fs.rxEverValid {
      k := TrustWasEarned(cfg, run, i - 1);
    } else {
      TrustNeedsWindow(cfg, run, i - 1);
      k := i - 1;
    }
  }

  /** The last failsafe before event `i` was followed by a full healthy window, and none began since. */
  lemma {:induction false} IdleWasEarned(cfg: Config, run: seq<Event>, m: nat, i: nat) returns (k: nat)
    requires IsRun(run) && m < i <= |run|
    requires At(cfg, run, m).fs.phase != Idle && At(cfg, run, i).fs.phase == Idle
    ensures m <= k < i && Requalifies(cfg, run, k)
    ensures forall n :: k < n <= i ==> At(cfg, run, n).fs.phase == Idle
  {
    hide At, IsRun, Requalifies;
    if At(cfg, run, i - 1).fs.phase != Idle {
      TrustNeedsWindow(cfg, run, i - 1);
      k := i - 1;
    } else {
      k := IdleWasEarned(cfg, run, m, i - 1);
    }
  }

  /** Arming happens only at a mode update with no arming flag, low throttle, an idle failsafe and
      a receiver that a full healthy window has qualified; after any failsafe, by a window later than it. */
  lemma ArmingNeedsQualification(cfg: Config, run: seq<Event>, i: nat)
    requires IsRun(run) && i < |run| && Arms(cfg, run, i)
    ensures run[i].Modes? && run[i].a.throttleLow && !run[i].a.pinConflict && MODE_ARMED in run[i].a.requested
    ensures At(cfg, run, i + 1).mode.flags == {} && MayArm(cfg, At(cfg, run, i), run[i].a)
    ensures cfg.autoLand ==> run[i].a.altitudeHealthy
    ensures At(cfg, run, i).fs.rxEverValid && At(cfg, run, i).fs.phase == Idle &&
            !At(cfg, run, i).rx.rxLoss && !At(cfg, run, i).rx.rxFailSafe
    ensures exists k :: 0 <= k < i && Requalifies(cfg, run, k)
    ensures forall m :: 0 <= m < i && At(cfg, run, m).fs.phase != Idle ==>
              exists k :: m <= k < i && Requalifies(cfg, run, k)
  {
    hide Step, At;
    AtNext(cfg, run, i);
    ArmingStep(cfg, At(cfg, run, i), run[i]);
    if cfg.autoLand { ArmingUnderLand(cfg, At(cfg, run, i), run[i].a); }
    RunInvariants(cfg, run, i);
    var k := TrustWasEarned(cfg, run, i);
    forall m | 0 <= m < i && At(cfg, run, m).fs.phase != Idle
      ensures exists k :: m <= k < i && Requalifies(cfg, run, k)
    {
      var k := IdleWasEarned(cfg, run, m, i);
    }
  }

  lemma ArmingUnderLand(cfg: Config, c: Craft, a: ModePoll)
    requires MayArm(cfg, c, a) && cfg.autoLand
    ensures a.altitudeHealthy
  {}

  lemma ArmingStep(cfg: Config, c: Craft, e: Event)
    requires !c.Armed() && Step(cfg, c, e).Armed()
    ensures e.Modes? && e.a.throttleLow && !e.a.pinConflict && MODE_ARMED in e.a.requested
    ensures Step(cfg, c, e).mode.flags == {} && MayArm(cfg, c, e.a)
    ensures c.fs.phase == Idle && !c.rx.rxLoss && !c.rx.rxFailSafe
  {
    match e
    case Modes(a) =>
      ModeStepShape(cfg, c, a);
      ModedArming(cfg, c, a);
      NewModesExactly(cfg, c, a, MODE_ARMED);
    case _ =>
  }
}
