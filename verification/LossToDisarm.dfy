/** Losing the receiver disarms the craft within a bound, whatever else happens. */
module LossToDisarm {
  import opened FlightModel
  import opened ReceiverSpec
  import opened ActuatorSpec
  import opened FlightRuns
  import opened LandSupervisor

  const LAND_TIMEOUT_MAX_US: nat := 60_000_000

  /** No valid frame is accepted after `t0`. */
  ghost predicate QuietAfter(cfg: Config, run: seq<Event>, t0: nat) {
    forall i :: 0 <= i < |run| && Valid(cfg, run, i) ==> run[i].p.now <= t0
  }

  ghost predicate Inside(e: Event, from: nat, to: nat) {
    from < e.Start() && e.End() <= to
  }

  /** Every span of `d` microseconds between `t0` and `t1` holds a whole receiver poll and a whole mode update. */
  ghost predicate PolledEvery(run: seq<Event>, d: nat, t0: nat, t1: nat) {
    forall t: nat {:trigger Span(t, d)} :: t0 <= t && Span(t, d) <= t1 ==>
      (exists i :: 0 <= i < |run| && run[i].Rx? && Inside(run[i], t, t + d)) &&
      (exists i :: 0 <= i < |run| && run[i].Modes? && Inside(run[i], t, t + d))
  }

  function Span(t: nat, d: nat): nat { t + d }

  // ----- Recorded times lie in the past -----

  ghost predicate TimesBy(c: Craft, t: nat) {
    c.fs.recoveryStartedUs <= t && c.rx.frameTime <= t &&
    c.fs.land.entry.requestedUs <= t && c.fs.land.touchdown.startedUs <= t && c.fs.land.lastUpdateUs <= t
  }

  lemma RxTimes(cfg: Config, c: Craft, p: RxPoll, t: nat)
    requires TimesBy(c, t) && p.Ordered() && p.requestAt <= t
    ensures TimesBy(RxStep(cfg, c, p).0, t)
  {
    hide Failsafe;
    FailsafeTimes(cfg, c.(rx := ReadInputs(c.rx, p)), p, t);
  }

  lemma FailsafeTimes(cfg: Config, c: Craft, p: RxPoll, t: nat)
    requires TimesBy(c, t) && p.Ordered() && p.requestAt <= t
    ensures TimesBy(Failsafe(cfg, c, p).0, t)
  {
    hide Stage2, OnValidFrame, Stage2TimeoutUs;
    var d := c.(fs := c.fs.(recoveryActive := false));
    var late := c.rx.(lossTime := p.now - c.rx.frameTime);
    Stage2Times(cfg, d, p, t);
    Stage2Times(cfg, c.(rx := late), p, t);
    Stage2Times(cfg, d.(rx := late), p, t);
    ValidFrameTimes(c, p, t);
  }

  lemma Stage2Times(cfg: Config, c: Craft, p: RxPoll, t: nat)
    requires TimesBy(c, t) && p.requestAt <= t
    ensures TimesBy(Stage2(cfg, c, p), t)
  {}

  lemma ValidFrameTimes(c: Craft, p: RxPoll, t: nat)
    requires TimesBy(c, t) && p.now <= t
    ensures TimesBy(OnValidFrame(c, p.now).0, t)
  {}

  lemma LandTimes(cfg: Config, d: Craft, a: ModePoll, t: nat)
    requires TimesBy(d, t) && a.now <= t
    ensures TimesBy(UpdateFailsafeLand(cfg, d, a), t)
  {}

  lemma StepTimes(cfg: Config, c: Craft, e: Event, t: nat)
    requires TimesBy(c, t) && e.Valid() && e.End() <= t
    ensures TimesBy(Step(cfg, c, e), t)
  {
    match e
    case Rx(p) => RxTimes(cfg, c, p, t);
    case Modes(a) =>
      var d := Moded(cfg, c, a);
      if d.Armed() { ModedArming(cfg, c, a); } else { ModedDisarmed(cfg, c, a); }
      assert d.rx == c.rx;
      LandTimes(cfg, d, a, t);
    case _ =>
  }

  lemma {:induction false} RunTimes(cfg: Config, run: seq<Event>, n: nat, t: nat)
    requires IsRun(run) && n <= |run|
    requires n > 0 ==> run[n - 1].End() <= t
    ensures TimesBy(At(cfg, run, n), t)
  {
    hide Step;
    if n > 0 {
      if n > 1 {
        assert run[n - 2].End() <= run[n - 1].Start();
        assert run[n - 1].Valid();
      }
      RunTimes(cfg, run, n - 1, t);
      StepTimes(cfg, At(cfg, run, n - 1), run[n - 1], t);
    }
  }

  lemma StepFrameTime(cfg: Config, c: Craft, e: Event)
    ensures Step(cfg, c, e).rx.frameTime == if e.Rx? && ValidFrame(c.rx, e.p) then e.p.frameAt else c.rx.frameTime
  {
    if e.Modes? { ModeStepShape(cfg, c, e.a); }
  }

  /** Without valid frames the frame timer stands still. */
  lemma {:induction false} FrameTimeStands(cfg: Config, run: seq<Event>, t0: nat, n: nat)
    requires IsRun(run) && QuietAfter(cfg, run, t0) && n <= |run|
    ensures At(cfg, run, n).rx.frameTime <= t0
  {
    hide Step;
    if n > 0 {
      FrameTimeStands(cfg, run, t0, n - 1);
      assert run[n - 1].Valid();
      assert Valid(cfg, run, n - 1) ==> run[n - 1].p.now <= t0;
      StepFrameTime(cfg, At(cfg, run, n - 1), run[n - 1]);
    }
  }

  // ----- The doomed flight -----

  /** The loss is established: no arming is possible, and a craft still armed is in a LAND
      requested no later than `r`. */
  ghost predicate Doomed(cfg: Config, c: Craft, r: nat) {
    c.fs.rxEverValid && c.fs.phase != Idle &&
    (c.Armed() ==> cfg.autoLand && c.fs.land.requested && c.fs.phase == Landing && c.fs.land.entry.requestedUs <= r)
  }

  /** The timeout is between 15 s and 60 s, whatever the cast makes of a NaN, exactly if the entry
      height is a number; a NaN can give any 32-bit time. */
  lemma LandTimeoutBounded(h: Reading)
    ensures (forall nanCast: nat :: 15_000_000 <= LandTimeoutUs(h, nanCast) <= LAND_TIMEOUT_MAX_US) <==> !h.NotANumber?
    ensures h.NotANumber? ==> forall t: nat :: t < CAST_RANGE ==> LandTimeoutUs(h, t) == t
  {
    if h.Finite? {
      FiniteTimeout(h.value);
    } else if h.NotANumber? {
      assert LandTimeoutUs(h, 0) == 0;
    }
  }

  lemma FiniteTimeout(v: real)
    ensures 15_000_000 <= LandTimeoutUs(Finite(v), 0) <= 60_000_000
    ensures forall nanCast: nat :: LandTimeoutUs(Finite(v), nanCast) == LandTimeoutUs(Finite(v), 0)
  {}

  /** A poll that finds the frames older than the Stage-2 delay establishes the loss. */
  lemma LateRxPoll(cfg: Config, c: Craft, p: RxPoll, t0: nat, r: nat)
    requires c.fs.rxEverValid && c.rx.frameTime <= t0 && p.Ordered() && !ValidFrame(c.rx, p)
    requires p.now > t0 + Stage2TimeoutUs(cfg)
    requires c.Armed() ==> (if c.fs.land.requested then c.fs.land.entry.requestedUs else p.requestAt) <= r
    ensures Doomed(cfg, RxStep(cfg, c, p).0, r)
    ensures RxStep(cfg, c, p).0.Armed() ==> c.Armed()
  {}

  lemma DoomedModes(cfg: Config, c: Craft, a: ModePoll, r: nat)
    requires Doomed(cfg, c, r)
    ensures Doomed(cfg, ModeStep(cfg, c, a), r)
    ensures ModeStep(cfg, c, a).Armed() ==> c.Armed() && ActiveLand(Moded(cfg, c, a))
    ensures ModeStep(cfg, c, a).Armed() && !c.fs.land.entry.height.NotANumber? ==> a.now < r + LAND_TIMEOUT_MAX_US
  {
    hide LandTimeoutUs, ModeStep, Moded;
    ModeStepShape(cfg, c, a);
    var d := Moded(cfg, c, a);
    if d.Armed() {
      ModedArming(cfg, c, a);
      LandTimeoutBounded(d.fs.land.entry.height);
    } else {
      ModedDisarmed(cfg, c, a);
    }
  }

  lemma DoomedStep(cfg: Config, c: Craft, e: Event, t0: nat, r: nat)
    requires Doomed(cfg, c, r) && e.Valid() && c.rx.frameTime <= t0
    requires e.Rx? ==> !ValidFrame(c.rx, e.p) && e.p.now > t0 + Stage2TimeoutUs(cfg)
    ensures Doomed(cfg, Step(cfg, c, e), r)
    ensures Step(cfg, c, e).Armed() ==> c.Armed()
  {
    hide ModeStep;
    match e
    case Rx(p) => LateRxPoll(cfg, c, p, t0, r);
    case Modes(a) => DoomedModes(cfg, c, a, r);
    case _ =>
  }

  lemma {:induction false} LateEvent(cfg: Config, run: seq<Event>, t0: nat, i: nat)
    requires IsRun(run) && QuietAfter(cfg, run, t0) && i < |run| && run[i].Start() > t0 + Stage2TimeoutUs(cfg)
    ensures run[i].Valid() && At(cfg, run, i).rx.frameTime <= t0
    ensures run[i].Rx? ==> !ValidFrame(At(cfg, run, i).rx, run[i].p) && run[i].p.now > t0 + Stage2TimeoutUs(cfg)
  {
    hide At;
    FrameTimeStands(cfg, run, t0, i);
    assert run[i].Valid();
    NotValidLater(cfg, run, t0, i);
  }

  /** From an established loss on, without valid frames, the doom stands and a disarmed craft stays disarmed. */
  lemma {:induction false} DoomStands(cfg: Config, run: seq<Event>, t0: nat, m: nat, n: nat, r: nat)
    requires IsRun(run) && QuietAfter(cfg, run, t0)
    requires m <= n <= |run|
    requires Doomed(cfg, At(cfg, run, m), r)
    requires forall i :: m <= i < n ==> run[i].Start() > t0 + Stage2TimeoutUs(cfg)
    ensures Doomed(cfg, At(cfg, run, n), r)
    ensures At(cfg, run, n).Armed() ==> At(cfg, run, m).Armed()
  {
    hide Step, IsRun, QuietAfter, Doomed, Stage2TimeoutUs;
    if m < n {
      DoomStands(cfg, run, t0, m, n - 1, r);
      LateEvent(cfg, run, t0, n - 1);
      DoomedStep(cfg, At(cfg, run, n - 1), run[n - 1], t0, r);
    }
  }

  /** A receiver that is not qualified when the frames stop never will be. */
  lemma {:induction false} NeverQualifies(cfg: Config, run: seq<Event>, t0: nat, m: nat, n: nat)
    requires IsRun(run) && QuietAfter(cfg, run, t0) && m <= n <= |run|
    requires !At(cfg, run, m).fs.rxEverValid
    requires forall i :: m <= i < n ==> run[i].Start() > t0
    ensures !At(cfg, run, n).fs.rxEverValid && !At(cfg, run, n).Armed()
  {
    hide At, Step, ValidFrame, IsRun, QuietAfter;
    RunInvariants(cfg, run, n);
    if m < n {
      RunInvariants(cfg, run, n - 1);
      NeverQualifies(cfg, run, t0, m, n - 1);
      NotValidLater(cfg, run, t0, n - 1);
      StepQualifies(cfg, At(cfg, run, n - 1), run[n - 1]);
      AtNext(cfg, run, n - 1);
    }
  }

  lemma NotValidLater(cfg: Config, run: seq<Event>, t0: nat, i: nat)
    requires IsRun(run) && QuietAfter(cfg, run, t0) && i < |run| && run[i].Start() > t0
    ensures !Valid(cfg, run, i)
  {
    hide At;
    assert run[i].Valid();
  }

  lemma StepQualifies(cfg: Config, c: Craft, e: Event)
    requires !c.fs.rxEverValid && Unqualified(c)
    ensures Step(cfg, c, e).fs.rxEverValid ==> e.Rx? && ValidFrame(c.rx, e.p)
  {}

  // ----- The bounds -----

  /** The first whole receiver poll after the Stage-2 delay settles the matter. */
  lemma {:induction false} LossIsEstablished(cfg: Config, run: seq<Event>, t0: nat, k: nat, n: nat)
    requires IsRun(run) && QuietAfter(cfg, run, t0) && k < n <= |run|
    requires run[k].Rx? && run[k].Start() > t0 + Stage2TimeoutUs(cfg)
    ensures if At(cfg, run, k).fs.rxEverValid then Doomed(cfg, At(cfg, run, n), run[k].End())
            else !At(cfg, run, n).Armed()
  {
    hide At, Step, RxStep, Doomed, Stage2TimeoutUs, TimesBy;
    var c, p := At(cfg, run, k), run[k].p;
    LaterEvents(run, k, t0 + Stage2TimeoutUs(cfg));
    LateEvent(cfg, run, t0, k);
    if !c.fs.rxEverValid {
      NeverQualifies(cfg, run, t0, k, n);
    } else {
      EntryIsPast(cfg, run, k);
      LateRxPoll(cfg, c, p, t0, p.requestAt);
      AtNext(cfg, run, k);
      RxIsStep(cfg, c, run[k]);
      DoomStands(cfg, run, t0, k + 1, n, p.requestAt);
    }
  }

  lemma {:induction false} EntryIsPast(cfg: Config, run: seq<Event>, k: nat)
    requires IsRun(run) && k < |run|
    ensures At(cfg, run, k).fs.land.entry.requestedUs <= run[k].Start()
  {
    hide At;
    if k > 0 { assert run[k - 1].End() <= run[k].Start(); }
    RunTimes(cfg, run, k, run[k].Start());
  }

  lemma LaterEvents(run: seq<Event>, k: nat, t: nat)
    requires IsRun(run) && k < |run| && run[k].Start() > t
    ensures forall i :: k <= i < |run| ==> run[i].Start() > t
  {
    assert run[k].Valid();
    forall i | k < i < |run| ensures run[i].Start() > t {
      assert run[k].End() <= run[i].Start();
    }
  }

  /** A mode update later than every LAND timeout leaves the craft disarmed for good. */
  lemma {:induction false} LandEndsBy(cfg: Config, run: seq<Event>, t0: nat, k: nat, q: nat, n: nat)
    requires IsRun(run) && EstimatorKeepsNaN(cfg, run) && QuietAfter(cfg, run, t0) && k < q < n <= |run|
    requires run[k].Rx? && run[k].Start() > t0 + Stage2TimeoutUs(cfg)
    requires run[q].Modes? && run[q].a.now >= run[k].End() + LAND_TIMEOUT_MAX_US
    ensures !At(cfg, run, n).Armed()
  {
    hide At, Step, IsRun, QuietAfter, Doomed, Stage2TimeoutUs, EstimatorKeepsNaN, Moded, ModeStep;
    LaterEvents(run, k, t0 + Stage2TimeoutUs(cfg));
    LossIsEstablished(cfg, run, t0, k, n);
    var c := At(cfg, run, q);
    if At(cfg, run, k).fs.rxEverValid {
      LossIsEstablished(cfg, run, t0, k, q);
      LateEvent(cfg, run, t0, q);
      AtNext(cfg, run, q);
      ModesIsStep(cfg, c, run[q]);
      DoomedModes(cfg, c, run[q].a, run[k].End());
      if ModeStep(cfg, c, run[q].a).Armed() { NanLandFaults(cfg, run, q); }
      DoomStands(cfg, run, t0, q + 1, n, run[k].End());
    }
  }

  /** If no valid frame comes after `t0` and both sides are polled at least every `d`, the craft is
      disarmed, and stays so, once the clamped Stage-2 delay plus 60 s plus `2d` has passed. */
  lemma LossDisarms(cfg: Config, run: seq<Event>, t0: nat, d: nat, n: nat)
    requires IsRun(run) && EstimatorKeepsNaN(cfg, run) && n < |run|
    requires QuietAfter(cfg, run, t0)
    requires PolledEvery(run, d, t0, run[n].Start())
    requires run[n].Start() > t0 + Stage2TimeoutUs(cfg) + LAND_TIMEOUT_MAX_US + 2 * d
    ensures !At(cfg, run, n).Armed() && !At(cfg, run, n + 1).Armed()
  {
    hide At, IsRun, QuietAfter, PolledEvery, Stage2TimeoutUs, EstimatorKeepsNaN;
    var t1 := t0 + Stage2TimeoutUs(cfg);
    var k := RxPollWithin(run, d, t0, n, t1);
    var t2 := t1 + d + LAND_TIMEOUT_MAX_US;
    var q := ModePollWithin(run, d, t0, n, t2);
    BeginsEarlier(run, k, q, t1 + d);
    LandEndsBy(cfg, run, t0, k, q, n);
    LandEndsBy(cfg, run, t0, k, q, n + 1);
  }

  /** Under DROP the Stage-2 delay and one poll period suffice. */
  lemma LossDropsAtOnce(cfg: Config, run: seq<Event>, t0: nat, d: nat, n: nat)
    requires IsRun(run) && n < |run| && !cfg.autoLand
    requires QuietAfter(cfg, run, t0)
    requires PolledEvery(run, d, t0, run[n].Start())
    requires run[n].Start() > t0 + Stage2TimeoutUs(cfg) + d
    ensures !At(cfg, run, n).Armed() && !At(cfg, run, n + 1).Armed()
  {
    hide At, IsRun, QuietAfter, PolledEvery, Stage2TimeoutUs;
    var k := RxPollWithin(run, d, t0, n, t0 + Stage2TimeoutUs(cfg));
    LossIsEstablished(cfg, run, t0, k, n);
    LossIsEstablished(cfg, run, t0, k, n + 1);
  }

  lemma BeginsEarlier(run: seq<Event>, k: nat, n: nat, t: nat)
    requires IsRun(run) && n < |run| && k < |run| && run[k].End() <= t < run[n].Start()
    ensures k < n
  {}

  lemma RxPollWithin(run: seq<Event>, d: nat, t0: nat, n: nat, t: nat) returns (k: nat)
    requires IsRun(run) && n < |run| && t0 <= t && t + d < run[n].Start()
    requires PolledEvery(run, d, t0, run[n].Start())
    ensures k < n && run[k].Rx? && Inside(run[k], t, t + d)
  {
    assert Span(t, d) <= run[n].Start();
    k :| 0 <= k < |run| && run[k].Rx? && Inside(run[k], t, t + d);
    BeginsEarlier(run, k, n, t + d);
  }

  lemma ModePollWithin(run: seq<Event>, d: nat, t0: nat, n: nat, t: nat) returns (k: nat)
    requires IsRun(run) && n < |run| && t0 <= t && t + d < run[n].Start()
    requires PolledEvery(run, d, t0, run[n].Start())
    ensures k < n && run[k].Modes? && Inside(run[k], t, t + d)
  {
    assert Span(t, d) <= run[n].Start();
    k :| 0 <= k < |run| && run[k].Modes? && Inside(run[k], t, t + d);
    BeginsEarlier(run, k, n, t + d);
  }
}
