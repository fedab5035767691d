/** The LAND supervisor over whole runs: who owns the output, what the entry snapshot is, how a
    request ends. */
module LandSupervisor {
  import opened FlightModel
  import opened ReceiverSpec
  import opened ActuatorSpec
  import opened FlightRuns

  // ----- What a poll does to a request -----

  /** The poll takes Stage 2: the failsafe switch, a reported failsafe, or frames older than the delay. */
  predicate TakesStage2(cfg: Config, c: Craft, p: RxPoll) {
    c.fs.rxEverValid &&
    (MODE_FAILSAFE in c.mode.maskSwitch ||
     (!ValidFrame(c.rx, p) &&
      (p.status == ReportedFailsafe || p.now - ReadInputs(c.rx, p).frameTime > Stage2TimeoutUs(cfg))))
  }

  /** Stage 2 of an armed craft is the only thing that touches the request: AUTO_LAND keeps one that is
      alive and makes one otherwise, DROP clears everything and disarms. */
  lemma LandAfterPoll(cfg: Config, c: Craft, p: RxPoll)
    ensures var d := RxStep(cfg, c, p).0;
            if TakesStage2(cfg, c, p) && c.Armed() then
              if cfg.autoLand then
                d.Armed() && d.fs.phase == Landing &&
                d.fs.land == if c.fs.land.requested then c.fs.land else RequestedLand(p)
              else !d.Armed() && d.fs.phase == Landed && d.fs.land == NO_LAND
            else d.fs.land == c.fs.land && d.Armed() == c.Armed() && (d.fs.phase == Landing ==> c.fs.phase == Landing)
    ensures c.fs.rxEverValid ==> RxStep(cfg, c, p).0.fs.rxEverValid
  {}

  // ----- The entry snapshot -----

  /** A mode update leaves a LAND record that is still requested as it was, but for its progress. */
  lemma UpdateKeepsEntry(cfg: Config, c: Craft, a: ModePoll)
    requires ModeStep(cfg, c, a).fs.land.requested
    ensures c.fs.land.requested && ModeStep(cfg, c, a).fs.land.entry == c.fs.land.entry
    ensures Moded(cfg, c, a).fs == c.fs
  {
    hide NextTouchdown, TouchedDown, Expired, Moded, ModeStep;
    ModeStepShape(cfg, c, a);
    if Moded(cfg, c, a).Armed() { ModedArming(cfg, c, a); } else { ModedDisarmed(cfg, c, a); }
  }

  /** While a request lives, its snapshot never changes; a new request means a new LAND at Stage 2. */
  lemma SnapshotStep(cfg: Config, c: Craft, e: Event)
    requires Step(cfg, c, e).fs.land.requested
    ensures if c.fs.land.requested then Step(cfg, c, e).fs.land.entry == c.fs.land.entry
            else e.Rx? && c.Armed() && cfg.autoLand && Step(cfg, c, e).fs.phase == Landing &&
                 Step(cfg, c, e).fs.land == RequestedLand(e.p)
  {
    hide ModeStep, RxStep, TakesStage2;
    match e
    case Rx(p) => LandAfterPoll(cfg, c, p);
    case Modes(a) => UpdateKeepsEntry(cfg, c, a);
    case _ =>
  }

  lemma {:induction false} SnapshotConstant(cfg: Config, run: seq<Event>, m: nat, n: nat)
    requires m <= n <= |run|
    requires forall i :: m <= i <= n ==> At(cfg, run, i).fs.land.requested
    ensures At(cfg, run, n).fs.land.entry == At(cfg, run, m).fs.land.entry
  {
    hide Step;
    if m < n {
      SnapshotConstant(cfg, run, m, n - 1);
      assert At(cfg, run, n - 1).fs.land.requested && At(cfg, run, n).fs.land.requested;
      SnapshotStep(cfg, At(cfg, run, n - 1), run[n - 1]);
    }
  }

  /** The snapshot of a live request was taken by the Stage 2 poll that began it. */
  lemma {:induction false} SnapshotOrigin(cfg: Config, run: seq<Event>, i: nat) returns (k: nat)
    requires i <= |run| && At(cfg, run, i).fs.land.requested
    ensures k < i && run[k].Rx? && !At(cfg, run, k).fs.land.requested
    ensures At(cfg, run, i).fs.land.entry == RequestedLand(run[k].p).entry
    ensures forall j :: k < j <= i ==> At(cfg, run, j).fs.land.requested
  {
    hide Step;
    SnapshotStep(cfg, At(cfg, run, i - 1), run[i - 1]);
    if At(cfg, run, i - 1).fs.land.requested {
      k := SnapshotOrigin(cfg, run, i - 1);
    } else {
      k := i - 1;
    }
  }

  // ----- A height that is not a number -----

  ghost predicate ArmedThroughout(cfg: Config, run: seq<Event>, i: nat, j: nat)
    requires j <= |run|
  {
    forall k :: i <= k <= j ==> At(cfg, run, k).Armed()
  }

  /** What the altitude estimator does with a NaN: prediction and correction keep it, and only a disarmed
      craft gets a new height, so a height that a poll read as NaN is not found healthy by any later
      update of the same armed flight. */
  ghost predicate EstimatorKeepsNaN(cfg: Config, run: seq<Event>) {
    forall i, j :: 0 <= i < j < |run| && run[i].Rx? && run[i].p.height.NotANumber? && run[j].Modes? ==>
      ArmedThroughout(cfg, run, i, j) ==> !run[j].a.altitudeHealthyAtLand
  }

  /** A craft that is armed with the request it had before was armed before. */
  lemma ArmedBefore(cfg: Config, c: Craft, e: Event)
    requires c.fs.land.requested && Step(cfg, c, e).fs.land.requested && Step(cfg, c, e).Armed()
    ensures c.Armed()
  {
    hide ModeStep, RxStep, TakesStage2, Moded;
    match e
    case Rx(p) => LandAfterPoll(cfg, c, p);
    case Modes(a) =>
      ModeStepShape(cfg, c, a);
      if !c.Armed() { ModedArming(cfg, c, a); }
    case _ =>
  }

  /** An armed craft with a live request has been armed since the poll that began it. */
  lemma {:induction false} ArmedSinceRequest(cfg: Config, run: seq<Event>, i: nat) returns (k: nat)
    requires i <= |run| && At(cfg, run, i).fs.land.requested && At(cfg, run, i).Armed()
    ensures k < i && run[k].Rx? && At(cfg, run, i).fs.land.entry == RequestedLand(run[k].p).entry
    ensures ArmedThroughout(cfg, run, k, i)
  {
    hide Step;
    var c, e := At(cfg, run, i - 1), run[i - 1];
    SnapshotStep(cfg, c, e);
    if c.fs.land.requested {
      ArmedBefore(cfg, c, e);
      k := ArmedSinceRequest(cfg, run, i - 1);
    } else {
      k := i - 1;
    }
  }

  /** So a LAND whose entry height is NaN faults at its first update, and the craft is disarmed. */
  lemma NanLandFaults(cfg: Config, run: seq<Event>, i: nat)
    requires EstimatorKeepsNaN(cfg, run) && i < |run| && run[i].Modes?
    requires ActiveLand(Moded(cfg, At(cfg, run, i), run[i].a)) && At(cfg, run, i).fs.land.entry.height.NotANumber?
    ensures LandDecision(cfg, Moded(cfg, At(cfg, run, i), run[i].a), run[i].a) == Faulted
    ensures !At(cfg, run, i + 1).Armed()
  {
    hide Step, ModeStep, Moded;
    var c, a := At(cfg, run, i), run[i].a;
    ModedArming(cfg, c, a);
    var k := ArmedSinceRequest(cfg, run, i);
    ModeStepShape(cfg, c, a);
    ModesIsStep(cfg, c, run[i]);
  }

  /** An unblocked output belongs to a request whose entry height is a number. */
  lemma {:induction false} OwnedHeightIsNumber(cfg: Config, run: seq<Event>, n: nat)
    requires EstimatorKeepsNaN(cfg, run) && n <= |run| && !At(cfg, run, n).fs.land.grant.outputBlocked
    ensures !At(cfg, run, n).fs.land.entry.height.NotANumber?
  {
    hide Step, ModeStep, RxStep, TakesStage2, Moded, EstimatorKeepsNaN;
    if n > 0 {
      var c, e := At(cfg, run, n - 1), run[n - 1];
      match e
      case Rx(p) =>
        RxIsStep(cfg, c, e);
        LandAfterPoll(cfg, c, p);
        OwnedHeightIsNumber(cfg, run, n - 1);
      case Modes(a) =>
        ModesIsStep(cfg, c, e);
        OutputAfterUpdate(cfg, c, a);
        UpdateKeepsEntry(cfg, c, a);
        ActiveAtUpdate(cfg, c, a);
        if c.fs.land.entry.height.NotANumber? { NanLandFaults(cfg, run, n - 1); }
      case _ =>
        CommandsLeaveLand(cfg, c, e);
        OwnedHeightIsNumber(cfg, run, n - 1);
    }
  }

  lemma ActiveAtUpdate(cfg: Config, c: Craft, a: ModePoll)
    requires !ModeStep(cfg, c, a).fs.land.grant.outputBlocked
    ensures ActiveLand(Moded(cfg, c, a))
  {
    hide ModeStep, Moded;
    ModeStepShape(cfg, c, a);
  }

  lemma CommandsLeaveLand(cfg: Config, c: Craft, e: Event)
    requires e.MspArming? || e.OtherFlag?
    ensures Step(cfg, c, e).fs == c.fs
  {}

  // ----- Who owns the output -----

  /** A mode update leaves the output unblocked exactly for an armed, eligible LANDING request
      that is still alive, which it then knows to be unexpired. */
  lemma OutputAfterUpdate(cfg: Config, c: Craft, a: ModePoll)
    ensures var d := ModeStep(cfg, c, a);
            var l := d.fs.land;
            (!l.grant.outputBlocked <==> l.requested && d.fs.phase == Landing && d.Armed()) &&
            (d.LandOwnsControl() <==> l.requested && d.fs.phase == Landing && d.Armed()) &&
            (d.LandOwnsControl() ==> d.fs.rxEverValid && a.altitudeHealthyAtLand && !Expired(l.entry, a.now, a.nanCast) &&
                                     l.lastUpdateUs == a.now)
  {}

  /** At every moment of every run an unblocked output belongs to a live request of a qualified
      receiver that was eligible and unexpired at the last mode update. */
  lemma {:induction false} OutputIsOwned(cfg: Config, run: seq<Event>, n: nat)
    requires n <= |run| && !At(cfg, run, n).fs.land.grant.outputBlocked
    ensures var f := At(cfg, run, n).fs;
            f.land.requested && f.rxEverValid && f.land.grant.eligible && f.land.grant.active &&
            f.land.lastUpdateUs - f.land.entry.requestedUs < TimeLimitUs(f.land.entry.height)
    ensures EstimatorKeepsNaN(cfg, run) ==>
      var l := At(cfg, run, n).fs.land;
      !l.entry.height.NotANumber? && l.lastUpdateUs - l.entry.requestedUs < LandTimeoutUs(l.entry.height, 0)
  {
    hide At, EstimatorKeepsNaN;
    RunInvariants(cfg, run, n);
    if EstimatorKeepsNaN(cfg, run) { OwnedHeightIsNumber(cfg, run, n); }
  }

  /** While LAND owns the flight every receiver poll withholds the pilot's sticks. */
  lemma LandGatesPilot(cfg: Config, c: Craft, p: RxPoll)
    requires Unqualified(c) && c.fs.phase == Landing && c.fs.land.requested
    ensures RxStep(cfg, c, p).1
    ensures RxStep(cfg, c, p).0.fs.phase != Idle
  {}

  /** A poll that sees no valid frame, neither failsafe switch nor reported failsafe, and a frame age
      between 200 ms and the Stage-2 delay. */
  predicate OnlyStage1(cfg: Config, c: Craft, p: RxPoll) {
    var rx := ReadInputs(c.rx, p);
    MODE_FAILSAFE !in c.mode.maskSwitch && !ValidFrame(c.rx, p) && p.status != ReportedFailsafe &&
    200_000 <= p.now - rx.frameTime <= Stage2TimeoutUs(cfg)
  }

  /** An armed craft gets into RX_LOSS_DETECTED at exactly such a poll.  It stays armed, its modes and its
      LAND record stay, the recovery timer stops, and the pilot's sticks are withheld. */
  lemma Stage1Exactly(cfg: Config, c: Craft, p: RxPoll)
    requires c.fs.rxEverValid && c.Armed() && c.fs.phase != RxLossDetected
    ensures var (d, gated) := RxStep(cfg, c, p);
            (d.fs.phase == RxLossDetected <==> OnlyStage1(cfg, c, p)) &&
            (OnlyStage1(cfg, c, p) ==>
              d.mode == c.mode && d.fs.land == c.fs.land && !d.fs.recoveryActive && d.rx.rxLoss && gated)
  {}

  /** An active LAND is not terminal across receiver polls: it loses its phase at exactly such a poll,
      with the craft armed and the request alive. */
  lemma LandLeftExactly(cfg: Config, c: Craft, p: RxPoll)
    requires cfg.autoLand && ActiveLand(c) && c.fs.rxEverValid
    ensures var d := RxStep(cfg, c, p).0;
            (ActiveLand(d) <==> !OnlyStage1(cfg, c, p)) &&
            (OnlyStage1(cfg, c, p) ==> d.fs.phase == RxLossDetected && d.Armed() && d.fs.land.requested)
  {}

  // ----- How a request ends -----

  /** Event `i` is a mode update that sees an active LAND request and takes the given way. */
  ghost predicate LandUpdate(cfg: Config, run: seq<Event>, i: nat, o: LandOutcome)
    requires i < |run|
  {
    run[i].Modes? && LandDecision(cfg, Moded(cfg, At(cfg, run, i), run[i].a), run[i].a) == o
  }

  /** Fault, timeout and touchdown leave the request withdrawn, the output blocked and the craft
      disarmed in LANDED; any other update of an active request keeps it alive and armed. */
  lemma {:induction false} LandEndings(cfg: Config, run: seq<Event>, i: nat, o: LandOutcome)
    requires i < |run| && LandUpdate(cfg, run, i, o) && o != Inactive
    ensures var d := At(cfg, run, i + 1);
            if EndsLand(o) then
              !d.fs.land.requested && d.fs.land.grant.outputBlocked && !d.fs.land.grant.active &&
              d.fs.phase == Landed && !d.Armed() && (o == Touched || d.fs.land.fault)
            else
              d.LandOwnsControl() && d.Armed()
  {}

  // ----- Touchdown -----

  /** Event `j` starts the touchdown candidate of a request made at `requestedUs`. */
  ghost predicate StartsCandidate(cfg: Config, run: seq<Event>, j: nat, requestedUs: nat)
    requires j < |run|
  {
    LandUpdate(cfg, run, j, Descending) && run[j].a.now - requestedUs >= 1_500_000 &&
    TouchdownEvidence(cfg, At(cfg, run, j).fs.land.entry, run[j].a)
  }

  /** Every active-LAND update after event `j` and before event `i` saw hold evidence. */
  ghost predicate HeldSince(cfg: Config, run: seq<Event>, j: nat, i: nat)
    requires i <= |run|
  {
    forall k :: j < k < i && LandUpdate(cfg, run, k, Descending) ==>
      HoldEvidence(cfg, At(cfg, run, k).fs.land.entry, run[k].a)
  }

  /** A candidate of a live request after a step was alive before it and held, or starts with it. */
  lemma CandidateStep(cfg: Config, c: Craft, e: Event)
    requires Step(cfg, c, e).fs.land.requested && Step(cfg, c, e).fs.land.touchdown.candidate
    ensures c.fs.land.requested && Step(cfg, c, e).fs.land.entry == c.fs.land.entry
    ensures var l, d := c.fs.land, Step(cfg, c, e).fs.land;
            if l.touchdown.candidate then
              d.touchdown == l.touchdown &&
              (e.Modes? && LandDecision(cfg, Moded(cfg, c, e.a), e.a) == Descending ==> HoldEvidence(cfg, l.entry, e.a))
            else
              e.Modes? && d.touchdown.startedUs == e.a.now && TouchdownEvidence(cfg, l.entry, e.a) &&
              LandDecision(cfg, Moded(cfg, c, e.a), e.a) == Descending
  {
    hide ModeStep, RxStep, TakesStage2, Moded;
    SnapshotStep(cfg, c, e);
    match e
    case Rx(p) => LandAfterPoll(cfg, c, p);
    case Modes(a) =>
      UpdateKeepsEntry(cfg, c, a);
      ModeStepShape(cfg, c, a);
      CandidateUpdate(cfg, Moded(cfg, c, a), a);
    case _ =>
  }

  lemma CandidateUpdate(cfg: Config, d: Craft, a: ModePoll)
    requires UpdateFailsafeLand(cfg, d, a).fs.land.requested && UpdateFailsafeLand(cfg, d, a).fs.land.touchdown.candidate
    ensures var l, t := d.fs.land, UpdateFailsafeLand(cfg, d, a).fs.land.touchdown;
            if l.touchdown.candidate then
              t == l.touchdown && (LandDecision(cfg, d, a) == Descending ==> HoldEvidence(cfg, l.entry, a))
            else
              t.startedUs == a.now && TouchdownEvidence(cfg, l.entry, a) && LandDecision(cfg, d, a) == Descending
  {
    hide Evidence;
  }


  lemma {:induction false} CandidateHasStart(cfg: Config, run: seq<Event>, i: nat) returns (j: nat)
    requires i <= |run|
    requires At(cfg, run, i).fs.land.requested && At(cfg, run, i).fs.land.touchdown.candidate
    ensures j < i && run[j].Modes? && run[j].a.now == At(cfg, run, i).fs.land.touchdown.startedUs
    ensures StartsCandidate(cfg, run, j, At(cfg, run, i).fs.land.entry.requestedUs)
    ensures HeldSince(cfg, run, j, i)
  {
    hide Step, Moded, LandDecision;
    var c, e := At(cfg, run, i - 1), run[i - 1];
    CandidateStep(cfg, c, e);
    if c.fs.land.touchdown.candidate {
      j := CandidateHasStart(cfg, run, i - 1);
    } else {
      j := i - 1;
    }
  }

  /** A touchdown disarm comes at least 2.5 s after its request and 1 s after a strict-evidence
      update, with hold evidence at every active-LAND update in between and at the disarm itself. */
  lemma {:induction false} TouchdownIsConfirmed(cfg: Config, run: seq<Event>, i: nat)
    requires IsRun(run) && i < |run| && LandUpdate(cfg, run, i, Touched)
    ensures run[i].a.now - At(cfg, run, i).fs.land.entry.requestedUs >= 2_500_000
    ensures HoldEvidence(cfg, At(cfg, run, i).fs.land.entry, run[i].a)
    ensures exists j :: 0 <= j < i && StartsCandidate(cfg, run, j, At(cfg, run, i).fs.land.entry.requestedUs) &&
              HeldSince(cfg, run, j, i) && run[i].a.now - run[j].a.now >= 1_000_000
  {
    TouchedState(cfg, At(cfg, run, i), run[i].a);
    var j := CandidateHasStart(cfg, run, i);
  }

  lemma TouchedState(cfg: Config, c: Craft, a: ModePoll)
    requires LandDecision(cfg, Moded(cfg, c, a), a) == Touched
    ensures c.fs.land.requested && TouchedDown(cfg, c.fs.land, a)
  {}
}
