/** Whole runs: receiver polls, mode updates and configurator commands interleaved in any order,
    with any statuses, switches, sensor health and clock readings. */
module FlightRuns {
  import opened FlightModel
  import opened ReceiverSpec
  import opened ActuatorSpec

  datatype Event =
    | Rx(p: RxPoll)
    | Modes(a: ModePoll)
    | MspArming(at: nat, disable: bool)
    | OtherFlag(at: nat, flag: ArmingFlag, value: bool)
  {
    /** Readings inside one poll are ordered; only the CLI and the reboot request set flags on their own. */
    predicate Valid() {
      match this
      case Rx(p) => p.Ordered()
      case OtherFlag(_, flag, _) => flag == Cli || flag == RebootRequired
      case _ => true
    }

    function Start(): nat {
      match this
      case Rx(p) => p.frameAt
      case Modes(a) => a.now
      case MspArming(at, _) => at
      case OtherFlag(at, _, _) => at
    }

    function End(): nat {
      match this
      case Rx(p) => p.requestAt
      case _ => Start()
    }
  }

  function WriteFlag(m: ModeState, flag: ArmingFlag, value: bool): ModeState {
    m.(flags := if value then m.flags + {flag} else m.flags - {flag})
  }

  function Step(cfg: Config, c: Craft, e: Event): Craft {
    match e
    case Rx(p) => RxStep(cfg, c, p).0
    case Modes(a) => ModeStep(cfg, c, a)
    case MspArming(_, disable) =>
      var m := WriteFlag(c.mode, Msp, disable);
      c.(mode := if c.Armed() then Disarm(m, ReasonArmingDisabled) else m)
    case OtherFlag(_, flag, value) => c.(mode := WriteFlag(c.mode, flag, value))
  }

  /** Every event is well formed and begins after the ones before it have ended. */
  ghost predicate IsRun(run: seq<Event>) {
    (forall i :: 0 <= i < |run| ==> run[i].Valid()) &&
    (forall i, j :: 0 <= i < j < |run| ==> run[i].End() <= run[j].Start())
  }

  /** The craft after the first `n` events. */
  ghost function At(cfg: Config, run: seq<Event>, n: nat): Craft
    requires n <= |run|
  {
    if n == 0 then BOOT else Step(cfg, At(cfg, run, n - 1), run[n - 1])
  }

  lemma AtNext(cfg: Config, run: seq<Event>, i: nat)
    requires i < |run|
    ensures At(cfg, run, i + 1) == Step(cfg, At(cfg, run, i), run[i])
  {
    hide Step;
  }

  lemma RxIsStep(cfg: Config, c: Craft, e: Event)
    requires e.Rx?
    ensures Step(cfg, c, e) == RxStep(cfg, c, e.p).0
  {}

  lemma ModesIsStep(cfg: Config, c: Craft, e: Event)
    requires e.Modes?
    ensures Step(cfg, c, e) == ModeStep(cfg, c, e.a)
  {}

  /** Event `i` is a receiver poll that accepts a valid frame. */
  ghost predicate Valid(cfg: Config, run: seq<Event>, i: nat)
    requires i < |run|
  {
    run[i].Rx? && ValidFrame(At(cfg, run, i).rx, run[i].p)
  }

  /** A disarmed craft becomes armed at event `i`. */
  ghost predicate Arms(cfg: Config, run: seq<Event>, i: nat)
    requires i < |run|
  {
    !At(cfg, run, i).Armed() && At(cfg, run, i + 1).Armed()
  }

  // ----- One mode update, seen from outside -----

  /** The craft when the mode mask of an update is settled, before LAND supervision. */
  function Moded(cfg: Config, c: Craft, a: ModePoll): Craft {
    UpdateArmed(UpdateModeMask(cfg, UpdateArmingDisabled(c, a), a))
  }

  /** Arming is a step of mode supervision, with no flag up, low throttle and an idle failsafe. */
  lemma ModedArming(cfg: Config, c: Craft, a: ModePoll)
    requires Moded(cfg, c, a).Armed()
    ensures !c.Armed() ==>
      c.fs.phase == Idle && !c.rx.rxLoss && !c.rx.rxFailSafe && a.throttleLow && !a.pinConflict &&
      MODE_ARMED in a.requested && Moded(cfg, c, a).mode.flags == {} &&
      Moded(cfg, c, a).fs == c.fs.(land := NO_LAND)
    ensures c.Armed() ==> Moded(cfg, c, a).fs == c.fs && a.gyroFresh
  {
    var d := UpdateArmingDisabled(c, a);
    var e := UpdateModeMask(cfg, d, a);
    assert d.Armed() == (c.Armed() && a.gyroFresh);
    if !d.Armed() {
      assert CanActivate(d.mode.(maskSwitch := a.requested, flags := ModeFlags(cfg, d, a)), e.latch, a, MODE_ARMED);
      assert e.mode.flags == {};
      assert FailsafePhaseFlag !in SupervisionFlags(cfg, d, a);
      assert RxFailsafe !in SupervisionFlags(cfg, d, a);
      assert NoGyro !in SupervisionFlags(cfg, d, a);
      assert RxFailsafe !in d.mode.flags && NoGyro !in d.mode.flags;
    }
  }

  lemma ModedDisarmed(cfg: Config, c: Craft, a: ModePoll)
    requires !Moded(cfg, c, a).Armed()
    ensures Moded(cfg, c, a).fs == c.fs
  {}

  /** Nothing but the mode bits and the LAND record changes after the mask is settled. */
  lemma ModeStepShape(cfg: Config, c: Craft, a: ModePoll)
    ensures var d := Moded(cfg, c, a);
            var e := UpdateFailsafeLand(cfg, d, a);
            ModeStep(cfg, c, a).fs == e.fs && ModeStep(cfg, c, a).rx == c.rx &&
            ModeStep(cfg, c, a).Armed() == e.Armed() &&
            e.Armed() == (d.Armed() && !EndsLand(LandDecision(cfg, d, a)))
  {}

  // ----- Invariants of every run -----

  /** A receiver that was never qualified keeps the craft disarmed and flags its loss. */
  ghost predicate Unqualified(c: Craft) {
    !c.fs.rxEverValid ==> c.fs.phase == Idle && c.rx.rxLoss && !c.Armed()
  }

  /** A time by which every LAND request has timed out: with a NaN as its entry height, any 32-bit time. */
  function TimeLimitUs(entryHeight: Reading): int {
    if entryHeight.NotANumber? then CAST_RANGE else LandTimeoutUs(entryHeight, 0)
  }

  /** An unblocked controller output means a live, eligible, unexpired request at its last update. */
  ghost predicate OutputOwned(c: Craft) {
    var l := c.fs.land;
    (!l.grant.outputBlocked ==>
      l.requested && c.fs.rxEverValid && l.grant == FULL_GRANT &&
      l.lastUpdateUs - l.entry.requestedUs < TimeLimitUs(l.entry.height))
  }

  lemma StepKeepsUnqualified(cfg: Config, c: Craft, e: Event)
    requires Unqualified(c)
    ensures Unqualified(Step(cfg, c, e))
    ensures c.fs.rxEverValid ==> Step(cfg, c, e).fs.rxEverValid
  {
    match e
    case Modes(a) =>
      ModeStepShape(cfg, c, a);
      var d := Moded(cfg, c, a);
      if d.Armed() { ModedArming(cfg, c, a); } else { ModedDisarmed(cfg, c, a); }
    case _ =>
  }

  lemma StepKeepsOutputOwned(cfg: Config, c: Craft, e: Event)
    requires OutputOwned(c)
    ensures OutputOwned(Step(cfg, c, e))
  {
    match e
    case Rx(p) => PollKeepsOutputOwned(cfg, c, p);
    case Modes(a) =>
      ModeStepShape(cfg, c, a);
      LandKeepsOutputOwned(cfg, Moded(cfg, c, a), a);
    case _ =>
  }

  lemma PollKeepsOutputOwned(cfg: Config, c: Craft, p: RxPoll)
    requires OutputOwned(c)
    ensures OutputOwned(RxStep(cfg, c, p).0)
  {
    hide LandTimeoutUs;
  }

  lemma LandKeepsOutputOwned(cfg: Config, d: Craft, a: ModePoll)
    ensures OutputOwned(UpdateFailsafeLand(cfg, d, a))
  {
    hide LandTimeoutUs, NextTouchdown, TouchedDown;
    UnexpiredIsEarly(d.fs.land.entry, a);
  }

  lemma UnexpiredIsEarly(e: Entry, a: ModePoll)
    ensures !Expired(e, a.now, a.nanCast) ==> a.now - e.requestedUs < TimeLimitUs(e.height)
  {}

  lemma {:induction false} RunInvariants(cfg: Config, run: seq<Event>, n: nat)
    requires n <= |run|
    ensures Unqualified(At(cfg, run, n)) && OutputOwned(At(cfg, run, n))
  {
    if n > 0 {
      RunInvariants(cfg, run, n - 1);
      StepKeepsUnqualified(cfg, At(cfg, run, n - 1), run[n - 1]);
      StepKeepsOutputOwned(cfg, At(cfg, run, n - 1), run[n - 1]);
    }
  }
}
