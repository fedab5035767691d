/** What a LAND request outlives: it survives every recovery of the receiver, and a craft that was
    disarmed in LANDING by something else keeps it. */
module LandRequests {
  import opened FlightModel
  import opened ReceiverSpec
  import opened ActuatorSpec
  import opened FlightRuns
  import opened LossToDisarm
  import opened LandSupervisor
  import opened Requalification

  // ----- Which snapshot a LAND uses -----

  /** A LAND is entered at exactly the Stage 2 polls of an armed craft under AUTO_LAND; an older request
      that is still alive lends it its snapshot. */
  lemma LandEntered(cfg: Config, c: Craft, p: RxPoll)
    requires !ActiveLand(c)
    ensures var d := RxStep(cfg, c, p).0;
            (ActiveLand(d) <==> TakesStage2(cfg, c, p) && c.Armed() && cfg.autoLand) &&
            (ActiveLand(d) ==> d.fs.land == if c.fs.land.requested then c.fs.land else RequestedLand(p))
  {
    hide RxStep, TakesStage2;
    LandAfterPoll(cfg, c, p);
  }

  /** A LAND that is entered at event `i` uses the snapshot of event `k`, which is its own exactly if no
      request was alive. */
  lemma LandUsesSnapshotOf(cfg: Config, run: seq<Event>, i: nat) returns (k: nat)
    requires i < |run| && !ActiveLand(At(cfg, run, i)) && ActiveLand(At(cfg, run, i + 1))
    ensures k <= i && run[k].Rx? && At(cfg, run, i + 1).fs.land.entry == RequestedLand(run[k].p).entry
    ensures k == i <==> !At(cfg, run, i).fs.land.requested
    ensures forall j :: k < j <= i + 1 ==> At(cfg, run, j).fs.land.requested
  {
    hide Step;
    k := SnapshotOrigin(cfg, run, i + 1);
    if k < i { assert At(cfg, run, i).fs.land.requested; }
  }

  /** Under AUTO_LAND nothing ends a request but a new arm and the three endings of an active LAND; no
      receiver poll does, however long the receiver has been back. */
  lemma RequestEndsExactly(cfg: Config, c: Craft, e: Event)
    requires cfg.autoLand && c.fs.land.requested
    ensures !Step(cfg, c, e).fs.land.requested <==>
      e.Modes? && ((!c.Armed() && Moded(cfg, c, e.a).Armed()) ||
                   EndsLand(LandDecision(cfg, Moded(cfg, c, e.a), e.a)))
  {
    hide ModeStep, RxStep, TakesStage2, Moded;
    match e
    case Rx(p) => LandAfterPoll(cfg, c, p);
    case Modes(a) =>
      ModeStepShape(cfg, c, a);
      EndsAtUpdate(cfg, Moded(cfg, c, a), a);
      if Moded(cfg, c, a).Armed() { ModedArming(cfg, c, a); } else { ModedDisarmed(cfg, c, a); }
    case _ =>
  }

  lemma EndsAtUpdate(cfg: Config, d: Craft, a: ModePoll)
    ensures UpdateFailsafeLand(cfg, d, a).fs.land.requested <==>
      d.fs.land.requested && !EndsLand(LandDecision(cfg, d, a))
  {
    hide Expired, TouchedDown, NextTouchdown;
  }

  /** A request that has outlived its timeout disarms the craft at the first mode update after the next
      Stage 2, whatever that loss was. */
  lemma StaleRequestDisarms(cfg: Config, c: Craft, p: RxPoll, a: ModePoll)
    requires cfg.autoLand && c.Armed() && c.fs.land.requested && TakesStage2(cfg, c, p)
    requires Expired(c.fs.land.entry, a.now, a.nanCast)
    ensures ActiveLand(RxStep(cfg, c, p).0)
    ensures !ModeStep(cfg, RxStep(cfg, c, p).0, a).Armed()
  {
    hide RxStep, TakesStage2, ModeStep, Moded, LandTimeoutUs;
    LandAfterPoll(cfg, c, p);
    var d := RxStep(cfg, c, p).0;
    var m := Moded(cfg, d, a);
    ModeStepShape(cfg, d, a);
    if m.Armed() { ModedArming(cfg, d, a); }
  }

  // ----- When the failsafe is over -----

  predicate Recovered(c: Craft) {
    c.fs.phase == Idle && c.fs.rxEverValid && !c.rx.rxLoss && !c.rx.rxFailSafe
  }

  /** Recovered already, or the timer has been running since `t`. */
  ghost predicate Recovering(c: Craft, t: int) {
    Recovered(c) || (c.fs.recoveryActive && c.fs.recoveryStartedUs <= t)
  }

  lemma HealthyPollRecovers(cfg: Config, c: Craft, p: RxPoll, t: int)
    requires HealthyPoll(c, p) && Unqualified(c)
    requires Recovering(c, t) || (ValidFrame(c.rx, p) && p.now <= t && c.fs.recoveryStartedUs <= t)
    ensures Recovering(RxStep(cfg, c, p).0, t)
  {}

  lemma OtherStepRecovers(cfg: Config, c: Craft, e: Event, t: int)
    requires !e.Rx? && Recovering(c, t)
    ensures Recovering(Step(cfg, c, e), t)
  {
    hide ModeStep;
    if e.Modes? {
      ModeStepShape(cfg, c, e.a);
      IdleStays(cfg, c, e.a);
    }
  }

  lemma IdleStays(cfg: Config, c: Craft, a: ModePoll)
    ensures var d := ModeStep(cfg, c, a);
            d.rx == c.rx && d.fs.rxEverValid == c.fs.rxEverValid && (c.fs.phase == Idle ==> d.fs.phase == Idle) &&
            d.fs.recoveryActive == c.fs.recoveryActive && d.fs.recoveryStartedUs == c.fs.recoveryStartedUs
  {
    hide ModeStep, Moded, NextLand, Expired, TouchedDown;
    ModeStepShape(cfg, c, a);
    if Moded(cfg, c, a).Armed() { ModedArming(cfg, c, a); } else { ModedDisarmed(cfg, c, a); }
  }

  lemma {:induction false} WindowRecovers(cfg: Config, run: seq<Event>, j: nat, i: nat)
    requires IsRun(run) && i <= |run| && HealthySince(cfg, run, j, i)
    ensures Recovering(At(cfg, run, i), run[j].p.now)
    decreases i
  {
    hide Step, RxStep, HealthyPoll;
    var c, e := At(cfg, run, i - 1), run[i - 1];
    RunInvariants(cfg, run, i - 1);
    AtNext(cfg, run, i - 1);
    if j < i - 1 { WindowRecovers(cfg, run, j, i - 1); }
    if e.Rx? {
      RxIsStep(cfg, c, e);
      if j == i - 1 { TimerIsPast(cfg, run, j); }
      HealthyPollRecovers(cfg, c, e.p, run[j].p.now);
    } else {
      OtherStepRecovers(cfg, c, e, run[j].p.now);
    }
  }

  lemma {:induction false} TimerIsPast(cfg: Config, run: seq<Event>, k: nat)
    requires IsRun(run) && k < |run| && run[k].Rx?
    ensures At(cfg, run, k).fs.recoveryStartedUs <= run[k].p.now
  {
    hide At;
    assert run[k].Valid();
    if k > 0 { assert run[k - 1].End() <= run[k].Start(); }
    RunTimes(cfg, run, k, run[k].Start());
  }

  lemma FullWindowPoll(cfg: Config, c: Craft, p: RxPoll)
    requires HealthyPoll(c, p) && ValidFrame(c.rx, p) && Unqualified(c) && Recovering(c, p.now - 500_000)
    ensures Recovered(RxStep(cfg, c, p).0) <==> !(c.fs.phase == Landing && c.fs.land.requested)
  {}

  /** The converse of `TrustNeedsWindow`: a full healthy window ends the failsafe, unless it ends in
      LANDING with a request alive. */
  lemma WindowEndsFailsafe(cfg: Config, run: seq<Event>, i: nat)
    requires IsRun(run) && i < |run| && Requalifies(cfg, run, i)
    ensures Recovered(At(cfg, run, i + 1)) <==>
      !(At(cfg, run, i).fs.phase == Landing && At(cfg, run, i).fs.land.requested)
  {
    hide Step, RxStep, HealthyPoll, At, Recovered;
    var j: nat :| HealthySince(cfg, run, j, i) && run[i].p.now - run[j].p.now >= 500_000;
    var c := At(cfg, run, i);
    WindowRecovers(cfg, run, j, i);
    RunInvariants(cfg, run, i);
    FullWindowPoll(cfg, c, run[i].p);
    AtNext(cfg, run, i);
    RxIsStep(cfg, c, run[i]);
  }

  // ----- The craft that cannot recover -----

  /** Disarmed in LANDING by something other than LAND itself, with the request still alive. */
  predicate Stuck(c: Craft) {
    !c.Armed() && c.fs.rxEverValid && c.fs.phase == Landing && c.fs.land.requested
  }

  /** Only a new loss leads out. */
  lemma StuckPoll(cfg: Config, c: Craft, p: RxPoll)
    requires Stuck(c)
    ensures Stuck(RxStep(cfg, c, p).0) <==> !TakesStage2(cfg, c, p) && !OnlyStage1(cfg, c, p)
  {}

  lemma StuckOtherwise(cfg: Config, c: Craft, e: Event)
    requires Stuck(c) && !e.Rx?
    ensures Stuck(Step(cfg, c, e))
  {
    hide ModeStep, Moded, NextLand;
    if e.Modes? {
      ModeStepShape(cfg, c, e.a);
      if Moded(cfg, c, e.a).Armed() { ModedArming(cfg, c, e.a); } else { ModedDisarmed(cfg, c, e.a); }
      EndsAtUpdate(cfg, Moded(cfg, c, e.a), e.a);
    }
  }

  /** As long as every poll brings a valid frame, such a craft never returns to IDLE, never arms and never
      gets its sticks back. */
  lemma {:induction false} StuckWhileFramesCome(cfg: Config, run: seq<Event>, m: nat, n: nat)
    requires m <= n <= |run| && Stuck(At(cfg, run, m))
    requires forall i :: m <= i < n && run[i].Rx? ==> Valid(cfg, run, i) && HealthyPoll(At(cfg, run, i), run[i].p)
    ensures Stuck(At(cfg, run, n))
    ensures forall i :: m <= i < n && run[i].Rx? ==> RxStep(cfg, At(cfg, run, i), run[i].p).1
  {
    hide Step, RxStep, OnlyStage1, TakesStage2;
    if m < n {
      StuckWhileFramesCome(cfg, run, m, n - 1);
      var c, e := At(cfg, run, n - 1), run[n - 1];
      if e.Rx? {
        assert Valid(cfg, run, n - 1);
        RxIsStep(cfg, c, e);
        FramesAreNoLoss(cfg, c, e.p);
        StuckPoll(cfg, c, e.p);
        LandGatesPilot(cfg, c, e.p);
      } else {
        StuckOtherwise(cfg, c, e);
      }
    }
  }

  lemma FramesAreNoLoss(cfg: Config, c: Craft, p: RxPoll)
    requires ValidFrame(c.rx, p) && HealthyPoll(c, p)
    ensures !TakesStage2(cfg, c, p) && !OnlyStage1(cfg, c, p)
  {}
}
