/** The fault latches over whole runs: a failed assisted mode, and a refused arm switch, stay out
    until the pilot takes the request away. */
module ModeLatches {
  import opened FlightModel
  import opened ActuatorSpec
  import opened FlightRuns

  /** Every mode update in [m, n) sees the given mode requested. */
  ghost predicate HeldOn(run: seq<Event>, mode: nat, m: nat, n: nat)
    requires n <= |run|
  {
    forall i :: m <= i < n && run[i].Modes? ==> mode in run[i].a.requested
  }

  ghost predicate AngleOut(c: Craft) { c.latch.angle && MODE_ANGLE !in c.mode.mask }

  ghost predicate AltHoldOut(c: Craft) { c.latch.altHold && MODE_ALTHOLD !in c.mode.mask }

  ghost predicate ArmRefused(c: Craft) { ArmSwitch in c.mode.flags }

  lemma OtherStepKeepsOut(cfg: Config, c: Craft, e: Event)
    requires !e.Modes? && e.Valid()
    ensures Step(cfg, c, e).latch == c.latch && Step(cfg, c, e).mode.mask <= c.mode.mask
    ensures ArmRefused(Step(cfg, c, e)) == ArmRefused(c)
  {}

  /** An update with the mode requested and its estimator (or stick) failed or latched keeps it out. */
  lemma UpdateKeepsOut(cfg: Config, c: Craft, a: ModePoll)
    ensures MODE_ANGLE in a.requested && (c.latch.angle || !a.attitudeHealthy) ==> AngleOut(ModeStep(cfg, c, a))
    ensures MODE_ALTHOLD in a.requested && (c.latch.altHold || !a.altitudeHealthy || !a.stickValid) ==>
              AltHoldOut(ModeStep(cfg, c, a))
  {
    ModeStepShape(cfg, c, a);
    MaskShape(cfg, c, a);
  }

  /** The mask after an update is within what supervision wanted. */
  lemma MaskShape(cfg: Config, c: Craft, a: ModePoll)
    ensures ModeStep(cfg, c, a).latch == NextLatches(c.latch, a)
    ensures ModeStep(cfg, c, a).mode.mask <= Supervised(c, NextLatches(c.latch, a), a)
    ensures ModeStep(cfg, c, a).mode.flags == ModeFlags(cfg, UpdateArmingDisabled(c, a), a)
  {}

  /** An angle fault with ANGLE requested keeps ANGLE out of the mask until an update sees the request off. */
  lemma {:induction false} AngleStaysOut(cfg: Config, run: seq<Event>, m: nat, n: nat)
    requires IsRun(run) && m < n <= |run|
    requires run[m].Modes? && !run[m].a.attitudeHealthy
    requires HeldOn(run, MODE_ANGLE, m, n)
    ensures AngleOut(At(cfg, run, n))
  {
    hide Step, ModeStep;
    var c, e := At(cfg, run, n - 1), run[n - 1];
    if m < n - 1 { AngleStaysOut(cfg, run, m, n - 1); }
    if e.Modes? {
      ModesIsStep(cfg, c, e);
      UpdateKeepsOut(cfg, c, e.a);
    } else {
      assert e.Valid();
      OtherStepKeepsOut(cfg, c, e);
    }
  }

  /** The same for ALTHOLD, whose stick may fail too. */
  lemma {:induction false} AltHoldStaysOut(cfg: Config, run: seq<Event>, m: nat, n: nat)
    requires IsRun(run) && m < n <= |run|
    requires run[m].Modes? && (!run[m].a.altitudeHealthy || !run[m].a.stickValid)
    requires HeldOn(run, MODE_ALTHOLD, m, n)
    ensures AltHoldOut(At(cfg, run, n))
  {
    hide Step, ModeStep;
    var c, e := At(cfg, run, n - 1), run[n - 1];
    if m < n - 1 { AltHoldStaysOut(cfg, run, m, n - 1); }
    if e.Modes? {
      ModesIsStep(cfg, c, e);
      UpdateKeepsOut(cfg, c, e.a);
    } else {
      assert e.Valid();
      OtherStepKeepsOut(cfg, c, e);
    }
  }

  /** A refused arm switch stays refused while it is on, and a disarmed craft stays disarmed. */
  lemma RefusalStep(cfg: Config, c: Craft, e: Event)
    requires e.Valid() && ArmRefused(c)
    requires e.Modes? ==> MODE_ARMED in e.a.requested
    ensures ArmRefused(Step(cfg, c, e))
    ensures Step(cfg, c, e).Armed() ==> c.Armed()
  {
    if e.Modes? {
      assert ArmSwitch in SupervisionFlags(cfg, UpdateArmingDisabled(c, e.a), e.a);
      MaskShape(cfg, c, e.a);
      ModeStepShape(cfg, c, e.a);
      if Moded(cfg, c, e.a).Armed() { ModedArming(cfg, c, e.a); }
    } else {
      OtherStepKeepsOut(cfg, c, e);
    }
  }

  /** Once ARM_SWITCH is flagged it stays flagged, and nothing arms, until an update sees the switch off. */
  lemma {:induction false} RefusalStands(cfg: Config, run: seq<Event>, m: nat, n: nat)
    requires IsRun(run) && m <= n <= |run|
    requires ArmRefused(At(cfg, run, m)) && HeldOn(run, MODE_ARMED, m, n)
    ensures ArmRefused(At(cfg, run, n))
    ensures forall i :: m <= i < n ==> !Arms(cfg, run, i)
  {
    hide Step;
    if m < n {
      RefusalStands(cfg, run, m, n - 1);
      assert run[n - 1].Valid();
      RefusalStep(cfg, At(cfg, run, n - 1), run[n - 1]);
    }
  }

  /** An arm switch thrown while anything blocks arming is refused at that very update. */
  lemma BlockedArmingIsRefused(cfg: Config, c: Craft, a: ModePoll)
    requires MODE_ARMED in a.requested
    ensures ModeStep(cfg, c, a).mode.flags != {} || a.pinConflict ==> ArmRefused(ModeStep(cfg, c, a))
  {}
}
