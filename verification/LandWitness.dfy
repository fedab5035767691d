/** Runs from power-up that reach what the LAND theorems exclude elsewhere: a LAND that a receiver poll
    ends, a LAND that times out on an older loss, and a craft that cannot leave LANDING. */
module LandWitness {
  import opened FlightModel
  import opened ReceiverSpec
  import opened ActuatorSpec
  import opened FlightRuns
  import opened LossToDisarm
  import opened LandSupervisor
  import opened LandRequests

  // ----- Runs, one event at a time -----

  /** The run is well formed, ends by `t` and leads to the craft `c`. */
  ghost predicate Reaches(cfg: Config, run: seq<Event>, c: Craft, t: nat) {
    IsRun(run) && At(cfg, run, |run|) == c && (run != [] ==> run[|run| - 1].End() <= t)
  }

  lemma {:induction false} AtPrefix(cfg: Config, run: seq<Event>, more: seq<Event>, n: nat)
    requires n <= |run| && run <= more
    ensures At(cfg, more, n) == At(cfg, run, n)
  {
    hide Step;
    if n > 0 { AtPrefix(cfg, run, more, n - 1); }
  }

  lemma {:induction false} Extend(cfg: Config, run: seq<Event>, c: Craft, t: nat, e: Event)
    requires Reaches(cfg, run, c, t) && e.Valid() && t <= e.Start()
    ensures Reaches(cfg, run + [e], Step(cfg, c, e), e.End())
    ensures At(cfg, run + [e], |run|) == c
  {
    hide Step;
    var all := run + [e];
    AtPrefix(cfg, run, all, |run|);
    forall i, j | 0 <= i < j < |all| ensures all[i].End() <= all[j].Start() {
      if j == |run| && i < |run| - 1 {
        assert run[|run| - 1].Valid();
        assert run[i].End() <= run[|run| - 1].Start();
      }
    }
  }

  // ----- The events -----

  const CFG := Config(10, true, 50)

  function Frame(t: nat): Event {
    Rx(RxPoll(Received, true, t, t, t, Finite(2.0), Finite(0.0), Finite(0.0)))
  }

  function Silence(t: nat): Event {
    Rx(RxPoll(NoFrame, true, t, t, t, Finite(2.0), Finite(0.0), Finite(0.0)))
  }

  /** A mode update with everything healthy and the arm switch on. */
  function Update(t: nat): ModePoll {
    ModePoll(t, {MODE_ARMED}, true, false, true, false, false, false, false, false, false, false,
             true, true, true, true, true, true, true, 2.0, 0.0, Finite(0.0), 0)
  }

  // ----- The crafts on the way -----

  const NO_MODE := ModeState({}, {}, {}, {}, ReasonArmingDisabled, false)
  const NO_FAULT := Latches(false, false)

  function Waiting(frames: nat): Craft {
    Craft(FailsafeState(Idle, false, false, 0, NO_LAND), RxState(false, true, false, 0, frames, 0), NO_MODE, NO_FAULT)
  }

  const HEARD := Craft(FailsafeState(Idle, false, true, 1_000_000, NO_LAND),
                       RxState(true, true, false, 1_000_000, 5, 0), NO_MODE, NO_FAULT)

  const TRUSTED := Craft(FailsafeState(Idle, true, false, 1_000_000, NO_LAND),
                         RxState(true, false, false, 1_500_000, 6, 0), NO_MODE, NO_FAULT)

  const ARMED := ModeState({MODE_ARMED}, {}, {MODE_ARMED}, {}, ReasonSystem, false)

  const FLYING := TRUSTED.(mode := ARMED)

  const REQUEST := Land(true, false, 0, Entry(3_600_000, Finite(2.0), Finite(0.0), Finite(0.0)), NO_GRANT, NO_TOUCHDOWN)

  const LANDING := Craft(FailsafeState(Landing, true, false, 1_000_000, REQUEST),
                         RxState(true, true, true, 1_500_000, 6, 2_100_000), ARMED, NO_FAULT)

  lemma Waits(frames: nat, t: nat)
    requires frames < 4
    ensures Step(CFG, Waiting(frames), Frame(t)) == Waiting(frames + 1)
  {}

  lemma Hears()
    ensures Step(CFG, Waiting(4), Frame(1_000_000)) == HEARD
  {}

  lemma Trusts()
    ensures Step(CFG, HEARD, Frame(1_500_000)) == TRUSTED
  {}

  lemma ArmsThen()
    ensures Step(CFG, TRUSTED, Modes(Update(1_600_000))) == FLYING
  {
    var a := Update(1_600_000);
    assert ArmingFlags(TRUSTED, a) == {};
    assert UpdateArmingDisabled(TRUSTED, a) == TRUSTED;
    assert SupervisionFlags(CFG, TRUSTED, a) == {};
    var m := NO_MODE.(maskSwitch := {MODE_ARMED});
    assert Granted({MODE_ARMED}, m, NO_FAULT, a) == {MODE_ARMED};
    assert UpdateModeMask(CFG, TRUSTED, a).mode.mask == {MODE_ARMED};
  }

  lemma LosesFrames()
    ensures Step(CFG, FLYING, Silence(3_600_000)) == LANDING
  {}

  /** From power-up into LANDING: five frames, half a second of health, an arm, two seconds of silence. */
  lemma ReachLanding() returns (run: seq<Event>)
    ensures Reaches(CFG, run, LANDING, 3_600_000)
  {
    hide Step;
    run := [];
    assert Waiting(0) == BOOT;
    for k := 0 to 4
      invariant Reaches(CFG, run, Waiting(k), 100_000 * k)
    {
      Extend(CFG, run, Waiting(k), 100_000 * k, Frame(100_000 * k));
      Waits(k, 100_000 * k);
      run := run + [Frame(100_000 * k)];
    }
    Extend(CFG, run, Waiting(4), 400_000, Frame(1_000_000));
    Hears();
    run := run + [Frame(1_000_000)];
    Extend(CFG, run, HEARD, 1_000_000, Frame(1_500_000));
    Trusts();
    run := run + [Frame(1_500_000)];
    Extend(CFG, run, TRUSTED, 1_500_000, Modes(Update(1_600_000)));
    ArmsThen();
    run := run + [Modes(Update(1_600_000))];
    Extend(CFG, run, FLYING, 1_600_000, Silence(3_600_000));
    LosesFrames();
    run := run + [Silence(3_600_000)];
  }

  // ----- LAND is not terminal -----

  const RESUMED := Craft(FailsafeState(Landing, true, true, 4_000_000, REQUEST),
                         RxState(true, true, false, 4_000_000, 7, 2_100_000), ARMED, NO_FAULT)

  const LEFT := Craft(FailsafeState(RxLossDetected, true, false, 4_000_000, REQUEST),
                      RxState(true, true, false, 4_000_000, 7, 300_000), ARMED, NO_FAULT)

  lemma Resumes()
    ensures Step(CFG, LANDING, Frame(4_000_000)) == RESUMED
  {}

  lemma Leaves()
    ensures Step(CFG, RESUMED, Silence(4_300_000)) == LEFT
  {}

  lemma ReachLeft() returns (run: seq<Event>)
    ensures Reaches(CFG, run, LEFT, 4_300_000) && run != [] && At(CFG, run, |run| - 1) == RESUMED
    ensures run[|run| - 1] == Silence(4_300_000)
  {
    hide Step;
    run := ReachLanding();
    Extend(CFG, run, LANDING, 3_600_000, Frame(4_000_000));
    Resumes();
    run := run + [Frame(4_000_000)];
    Extend(CFG, run, RESUMED, 4_000_000, Silence(4_300_000));
    Leaves();
    run := run + [Silence(4_300_000)];
  }

  /** A run from power-up whose last receiver poll ends an active LAND, with the craft still armed: a frame
      came back during LAND and then none for 300 ms. */
  lemma LandIsNotTerminal() returns (cfg: Config, run: seq<Event>)
    ensures IsRun(run) && run != [] && run[|run| - 1].Rx?
    ensures ActiveLand(At(cfg, run, |run| - 1))
    ensures var c := At(cfg, run, |run|);
            !ActiveLand(c) && c.Armed() && c.fs.phase == RxLossDetected && c.fs.land.requested
  {
    hide Step;
    cfg := CFG;
    run := ReachLeft();
  }

  // ----- A LAND on an older loss -----

  const MONITORED := Craft(FailsafeState(RxLossMonitoring, true, true, 4_400_000, REQUEST),
                           RxState(true, true, false, 4_400_000, 8, 300_000), ARMED, NO_FAULT)

  const BACK := Craft(FailsafeState(Idle, true, false, 4_400_000, REQUEST),
                      RxState(true, false, false, 4_900_000, 9, 0), ARMED, NO_FAULT)

  /** Flying with the receiver back and the old request alive: last frame, frame count, last update. */
  function Cruise(startedUs: nat, frameTime: nat, frames: nat, updateUs: nat): Craft {
    Craft(FailsafeState(Idle, true, false, startedUs, REQUEST.(lastUpdateUs := updateUs, grant := Granting(true, true))),
          RxState(true, false, false, frameTime, frames, 0), ARMED.(maskPrev := {MODE_ARMED}), NO_FAULT)
  }

  lemma Monitors()
    ensures Step(CFG, LEFT, Frame(4_400_000)) == MONITORED
  {}

  lemma Returns()
    ensures Step(CFG, MONITORED, Frame(4_900_000)) == BACK
  {}

  lemma FliesAgain()
    ensures Step(CFG, BACK, Modes(Update(5_000_000))) == Cruise(4_400_000, 4_900_000, 9, 5_000_000)
  {
    var a := Update(5_000_000);
    assert ArmingFlags(BACK, a) == {};
    assert UpdateArmingDisabled(BACK, a) == BACK;
    assert SupervisionFlags(CFG, BACK, a) == {};
    assert Granted({MODE_ARMED}, ARMED, NO_FAULT, a) == {MODE_ARMED};
    assert UpdateModeMask(CFG, BACK, a) == BACK.(mode := ARMED.(maskPrev := {MODE_ARMED}));
  }

  lemma FrameCruises(s: nat, f: nat, n: nat, u: nat, t: nat)
    requires n >= 5
    ensures Step(CFG, Cruise(s, f, n, u), Frame(t)) == Cruise(t, t, n + 1, u)
  {}

  lemma UpdateCruises(s: nat, f: nat, n: nat, u: nat, t: nat)
    ensures Step(CFG, Cruise(s, f, n, u), Modes(Update(t))) == Cruise(s, f, n, t)
  {
    var c, a := Cruise(s, f, n, u), Update(t);
    assert ArmingFlags(c, a) == {};
    assert UpdateArmingDisabled(c, a) == c;
    assert SupervisionFlags(CFG, c, a) == {};
    assert Granted({MODE_ARMED}, c.mode, NO_FAULT, a) == {MODE_ARMED};
    assert UpdateModeMask(CFG, c, a) == c;
  }

  /** From event `from` on no two events are more than 50 ms apart. */
  predicate Dense(run: seq<Event>, from: nat) {
    1 <= from <= |run| && forall i :: from <= i < |run| ==> run[i].Start() - run[i - 1].End() <= 50_000
  }

  /** From before event `from` to before event `to` the craft is armed and the failsafe over. */
  ghost predicate FliesOn(run: seq<Event>, from: nat, to: nat) {
    from <= to <= |run| && forall i :: from <= i <= to ==> Recovered(At(CFG, run, i)) && At(CFG, run, i).Armed()
  }

  lemma FliesOnStill(run: seq<Event>, e: Event, from: nat, to: nat)
    requires FliesOn(run, from, to)
    ensures FliesOn(run + [e], from, to)
  {
    forall i | from <= i <= to ensures At(CFG, run + [e], i) == At(CFG, run, i) { AtPrefix(CFG, run, run + [e], i); }
  }

  /** One more event of the flight. */
  lemma Flies(run: seq<Event>, c: Craft, t: nat, e: Event, from: nat)
    requires Reaches(CFG, run, c, t) && run != [] && run[|run| - 1].End() == t && Dense(run, from) && FliesOn(run, from, |run|)
    requires e.Valid() && t <= e.Start() <= t + 50_000
    requires Recovered(Step(CFG, c, e)) && Step(CFG, c, e).Armed()
    ensures Reaches(CFG, run + [e], Step(CFG, c, e), e.End())
    ensures Dense(run + [e], from) && FliesOn(run + [e], from, |run| + 1)
  {
    hide Step, Recovered;
    Extend(CFG, run, c, t, e);
    FliesOnStill(run, e, from, |run|);
    DenseStill(run, e, from);
  }

  /** A minute of flight, with a frame and a mode update every 100 ms. */
  lemma ReachCruise() returns (run: seq<Event>, from: nat)
    ensures Reaches(CFG, run, Cruise(69_950_000, 69_950_000, 659, 70_000_000), 70_000_000)
    ensures run != [] && run[|run| - 1].End() == 70_000_000
    ensures Dense(run, from) && FliesOn(run, from, |run|) && run[from - 1].End() == 5_000_000
  {
    hide Step, Reaches, Dense, FliesOn;
    run := ReachBack();
    from := |run|;
    CruiseBegins(run);
    var s, f := 4_400_000, 4_900_000;
    for k := 0 to 650
      invariant s == (if k == 0 then 4_400_000 else 4_950_000 + 100_000 * k)
      invariant f == (if k == 0 then 4_900_000 else 4_950_000 + 100_000 * k)
      invariant Reaches(CFG, run, Cruise(s, f, 9 + k, 5_000_000 + 100_000 * k), 5_000_000 + 100_000 * k)
      invariant 1 <= from <= |run| && run[|run| - 1].End() == 5_000_000 + 100_000 * k && run[from - 1].End() == 5_000_000
      invariant Dense(run, from) && FliesOn(run, from, |run|)
    {
      var u := 5_000_000 + 100_000 * k;
      FrameCruises(s, f, 9 + k, u, u + 50_000);
      Flies(run, Cruise(s, f, 9 + k, u), u, Frame(u + 50_000), from);
      run := run + [Frame(u + 50_000)];
      s, f := u + 50_000, u + 50_000;
      UpdateCruises(s, f, 10 + k, u, u + 100_000);
      Flies(run, Cruise(s, f, 10 + k, u), u + 50_000, Modes(Update(u + 100_000)), from);
      run := run + [Modes(Update(u + 100_000))];
    }
  }

  lemma CruiseBegins(run: seq<Event>)
    requires Reaches(CFG, run, Cruise(4_400_000, 4_900_000, 9, 5_000_000), 5_000_000) && run != []
    ensures Dense(run, |run|) && FliesOn(run, |run|, |run|)
  {
    hide At, IsRun;
  }

  lemma ReachBack() returns (run: seq<Event>)
    ensures Reaches(CFG, run, Cruise(4_400_000, 4_900_000, 9, 5_000_000), 5_000_000)
    ensures run != [] && run[|run| - 1].End() == 5_000_000
  {
    hide Step;
    run := ReachLeft();
    Extend(CFG, run, LEFT, 4_300_000, Frame(4_400_000));
    Monitors();
    run := run + [Frame(4_400_000)];
    Extend(CFG, run, MONITORED, 4_400_000, Frame(4_900_000));
    Returns();
    run := run + [Frame(4_900_000)];
    Extend(CFG, run, BACK, 4_900_000, Modes(Update(5_000_000)));
    FliesAgain();
    run := run + [Modes(Update(5_000_000))];
  }

  /** The second loss, before Stage 2: armed, the last frame at 69.95 s, the first request alive. */
  ghost predicate Losing(c: Craft) {
    c.Armed() && c.fs.rxEverValid && c.fs.phase in {Idle, RxLossDetected} && c.fs.land.requested &&
    c.fs.land.entry == REQUEST.entry && c.rx.frameTime == 69_950_000 && MODE_FAILSAFE !in c.mode.maskSwitch
  }

  lemma SilenceLoses(c: Craft, t: nat)
    requires Losing(c) && t <= 70_950_000
    ensures Losing(Step(CFG, c, Silence(t)))
  {}

  lemma UpdateLoses(c: Craft, t: nat)
    requires Losing(c)
    ensures Losing(Step(CFG, c, Modes(Update(t))))
  {
    hide ModeStep, Moded, NextTouchdown, TouchedDown, Expired;
    var a := Update(t);
    StaysModed(c, a);
    ModeStepShape(CFG, c, a);
    SwitchIsRequest(c, a);
  }

  lemma SwitchIsRequest(c: Craft, a: ModePoll)
    ensures ModeStep(CFG, c, a).mode.maskSwitch == a.requested
  {}

  lemma StaysModed(c: Craft, a: ModePoll)
    requires c.Armed() && a.gyroFresh && MODE_ARMED in a.requested
    ensures Moded(CFG, c, a).Armed() && Moded(CFG, c, a).fs == c.fs
  {
    assert Moded(CFG, c, a).Armed();
    ModedArming(CFG, c, a);
  }

  lemma CruiseIsLosing()
    ensures Losing(Cruise(69_950_000, 69_950_000, 659, 70_000_000))
  {}

  /** A second of silence, polled as before. */
  lemma ReachLoss() returns (run: seq<Event>, from: nat, to: nat, c: Craft)
    ensures Reaches(CFG, run, c, 71_000_000) && Losing(c)
    ensures run != [] && run[|run| - 1].End() == 71_000_000
    ensures 1 <= from < to <= |run| && Dense(run, from) && FliesOn(run, from, to)
    ensures run[from - 1].End() == 5_000_000 && run[to - 1].End() == 70_000_000
  {
    hide Step, Reaches, FliesOn, Losing;
    run, from := ReachCruise();
    to := |run|;
    assert 1 <= from < to;
    c := Cruise(69_950_000, 69_950_000, 659, 70_000_000);
    CruiseIsLosing();
    for k := 0 to 10
      invariant Reaches(CFG, run, c, 70_000_000 + 100_000 * k) && Losing(c)
      invariant to <= |run| && run[|run| - 1].End() == 70_000_000 + 100_000 * k
      invariant Dense(run, from) && FliesOn(run, from, to)
      invariant run[from - 1].End() == 5_000_000 && run[to - 1].End() == 70_000_000
    {
      var u := 70_000_000 + 100_000 * k;
      Extend(CFG, run, c, u, Silence(u + 50_000));
      FliesOnStill(run, Silence(u + 50_000), from, to);
      SilenceLoses(c, u + 50_000);
      run := run + [Silence(u + 50_000)];
      c := Step(CFG, c, Silence(u + 50_000));
      Extend(CFG, run, c, u + 50_000, Modes(Update(u + 100_000)));
      FliesOnStill(run, Modes(Update(u + 100_000)), from, to);
      UpdateLoses(c, u + 100_000);
      run := run + [Modes(Update(u + 100_000))];
      c := Step(CFG, c, Modes(Update(u + 100_000)));
    }
  }

  lemma TimesOut(c: Craft, p: RxPoll, a: ModePoll)
    requires Losing(c) && p == Silence(71_050_000).p && a == Update(71_100_000)
    ensures var d := RxStep(CFG, c, p).0;
            !ActiveLand(c) && ActiveLand(d) && !ModeStep(CFG, d, a).Armed() &&
            LandDecision(CFG, Moded(CFG, d, a), a) == TimedOut
  {
    hide ModeStep, Moded, RxStep, TakesStage2;
    LossIsOld(c, p, a);
    LandAfterPoll(CFG, c, p);
    StaleRequestDisarms(CFG, c, p, a);
    StaysModed(RxStep(CFG, c, p).0, a);
  }

  lemma LossIsOld(c: Craft, p: RxPoll, a: ModePoll)
    requires Losing(c) && p == Silence(71_050_000).p && a == Update(71_100_000)
    ensures TakesStage2(CFG, c, p) && Expired(c.fs.land.entry, a.now, a.nanCast)
  {}

  /** A run from power-up in which a craft recovers from one loss, flies on armed and with the failsafe over
      from 5 s to 70 s, polled every 50 ms on one side or the other until the end, and loses its frames
      again: the mode update 50 ms into the new LAND disarms it, for the request of the first loss was
      still alive and its 30 s were long over. */
  lemma StaleLandDisarms() returns (cfg: Config, run: seq<Event>, from: nat, to: nat)
    ensures IsRun(run) && 1 <= from < to <= |run| - 2 && run[|run| - 2].Rx? && run[|run| - 1].Modes?
    ensures run[from - 1].End() == 5_000_000 && run[to - 1].End() == 70_000_000 && Dense(run, from)
    ensures forall i :: from <= i <= to ==> Recovered(At(cfg, run, i)) && At(cfg, run, i).Armed()
    ensures !ActiveLand(At(cfg, run, |run| - 2)) && ActiveLand(At(cfg, run, |run| - 1))
    ensures run[|run| - 1].a.now - run[|run| - 2].p.requestAt == 50_000
    ensures LandUpdate(cfg, run, |run| - 1, TimedOut) && !At(cfg, run, |run|).Armed()
  {
    hide Step, RxStep, ModeStep, Moded, LandDecision, Losing, Recovered, Dense, FliesOn, Reaches, ActiveLand;
    cfg := CFG;
    var lost, update := Silence(71_050_000), Modes(Update(71_100_000));
    var start, c;
    start, from, to, c := ReachLoss();
    var before := start + [lost];
    var d := Step(CFG, c, lost);
    Extend(CFG, start, c, 71_000_000, lost);
    FliesOnStill(start, lost, from, to);
    DenseStill(start, lost, from);
    Extend(CFG, before, d, 71_050_000, update);
    FliesOnStill(before, update, from, to);
    DenseStill(before, update, from);
    run := before + [update];
    AtPrefix(CFG, before, run, |start|);
    TimesOut(c, lost.p, update.a);
    RxIsStep(CFG, c, lost);
    ModesIsStep(CFG, d, update);
    ReachesIs(run, Step(CFG, d, update), 71_100_000);
    FliesOnIs(run, from, to);
  }

  lemma DenseStill(run: seq<Event>, e: Event, from: nat)
    requires Dense(run, from) && e.Start() - run[|run| - 1].End() <= 50_000
    ensures Dense(run + [e], from)
  {}

  lemma {:induction false} ReachesIs(run: seq<Event>, c: Craft, t: nat)
    requires Reaches(CFG, run, c, t)
    ensures IsRun(run) && At(CFG, run, |run|) == c
  {}

  lemma {:induction false} FliesOnIs(run: seq<Event>, from: nat, to: nat)
    requires FliesOn(run, from, to)
    ensures from <= to <= |run| && forall i :: from <= i <= to ==> Recovered(At(CFG, run, i)) && At(CFG, run, i).Armed()
  {}

  // ----- A craft that cannot leave LANDING -----

  lemma IsStuck()
    ensures Stuck(Step(CFG, LANDING, MspArming(3_700_000, true)))
  {}

  /** A run from power-up into such a craft: the configurator disarms it during LAND. */
  lemma StuckIsReachable() returns (cfg: Config, run: seq<Event>)
    ensures IsRun(run) && Stuck(At(cfg, run, |run|))
  {
    hide Step;
    cfg := CFG;
    run := ReachLanding();
    Extend(CFG, run, LANDING, 3_600_000, MspArming(3_700_000, true));
    IsStuck();
    run := run + [MspArming(3_700_000, true)];
  }
}
