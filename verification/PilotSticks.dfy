/** When a receiver poll lets the pilot's sticks through to the controller, over whole runs. */
module PilotSticks {
  import opened FlightModel
  import opened ReceiverSpec
  import opened ActuatorSpec
  import opened FlightRuns
  import opened LandSupervisor

  /** What every moment of a run keeps: a LANDING has a request, an armed craft is not in LANDED, the last
      frame of an armed craft in RX_LOSS_DETECTED is 200 ms past, and recovery never pauses in between. */
  ghost predicate PhasesFit(c: Craft, t: nat) {
    c.fs.phase != RxLossRecovered &&
    (c.fs.phase == Landing ==> c.fs.land.requested) &&
    (c.Armed() ==> c.fs.phase != Landed) &&
    (c.Armed() && c.fs.phase == RxLossDetected ==> c.rx.frameTime + 200_000 <= t)
  }

  lemma PollKeepsPhases(cfg: Config, c: Craft, p: RxPoll, t: nat)
    requires Unqualified(c) && PhasesFit(c, t) && p.Ordered() && t <= p.frameAt
    ensures PhasesFit(RxStep(cfg, c, p).0, p.requestAt)
  {
    hide Failsafe;
    FailsafeKeepsPhases(cfg, c.(rx := ReadInputs(c.rx, p)), p, t);
  }

  /** The same, from the status read on; a valid frame may just have moved the frame time. */
  lemma FailsafeKeepsPhases(cfg: Config, c: Craft, p: RxPoll, t: nat)
    requires p.Ordered() && t <= p.frameAt && (!c.fs.rxEverValid ==> c.fs.phase == Idle)
    requires PhasesFit(c, t) || (p.status == Received && c.rx.channelsValid && PhasesFit(c.(rx := c.rx.(frameTime := 0)), t))
    ensures PhasesFit(Failsafe(cfg, c, p).0, p.requestAt)
  {
    hide OnValidFrame, OnNoValidFrame;
    if p.status == Received && c.rx.channelsValid { ValidKeepsPhases(c, p.now, p.requestAt); }
    else { NoValidKeepsPhases(cfg, c, p, t); }
  }

  lemma ValidKeepsPhases(c: Craft, now: nat, t: nat)
    requires PhasesFit(c.(rx := c.rx.(frameTime := 0)), t) || PhasesFit(c, t)
    requires !c.fs.rxEverValid ==> c.fs.phase == Idle
    ensures PhasesFit(OnValidFrame(c, now).0, t)
  {}

  lemma NoValidKeepsPhases(cfg: Config, c: Craft, p: RxPoll, t: nat)
    requires PhasesFit(c, t) && p.Ordered() && t <= p.frameAt
    ensures PhasesFit(OnNoValidFrame(cfg, c, p).0, p.requestAt)
  {}

  lemma UpdateKeepsPhases(cfg: Config, c: Craft, a: ModePoll, t: nat)
    requires PhasesFit(c, t)
    ensures PhasesFit(ModeStep(cfg, c, a), t)
  {
    hide ModeStep, Moded, NextTouchdown, Expired, TouchedDown;
    ModeStepShape(cfg, c, a);
    if Moded(cfg, c, a).Armed() { ModedArming(cfg, c, a); } else { ModedDisarmed(cfg, c, a); }
  }

  lemma {:induction false} RunKeepsPhases(cfg: Config, run: seq<Event>, n: nat, t: nat)
    requires IsRun(run) && n <= |run| && (n > 0 ==> run[n - 1].End() <= t)
    ensures PhasesFit(At(cfg, run, n), t)
  {
    hide Step, RxStep, ModeStep, PhasesFit;
    if n == 0 {
      BootFits(t);
    } else {
      var c, e := At(cfg, run, n - 1), run[n - 1];
      EventInOrder(run, n - 1);
      RunKeepsPhases(cfg, run, n - 1, e.Start());
      RunInvariants(cfg, run, n - 1);
      match e {
        case Rx(p) =>
          RxIsStep(cfg, c, e);
          PollKeepsPhases(cfg, c, p, e.Start());
        case Modes(a) =>
          ModesIsStep(cfg, c, e);
          UpdateKeepsPhases(cfg, c, a, e.Start());
        case _ => CommandKeepsPhases(cfg, c, e, e.Start());
      }
      LaterFits(At(cfg, run, n), e.End(), t);
    }
  }

  lemma BootFits(t: nat)
    ensures PhasesFit(BOOT, t)
  {}

  lemma LaterFits(c: Craft, t: nat, u: nat)
    requires PhasesFit(c, t) && t <= u
    ensures PhasesFit(c, u)
  {}

  lemma CommandKeepsPhases(cfg: Config, c: Craft, e: Event, t: nat)
    requires PhasesFit(c, t) && (e.MspArming? || e.OtherFlag?)
    ensures PhasesFit(Step(cfg, c, e), t)
  {}

  lemma EventInOrder(run: seq<Event>, i: nat)
    requires IsRun(run) && i < |run|
    ensures run[i].Valid() && run[i].Start() <= run[i].End() && (i > 0 ==> run[i - 1].End() <= run[i].Start())
  {
    assert run[i].Valid();
  }

  /** A poll that shows nothing new: no valid frame, no failsafe of either kind, the last frame less than
      200 ms old. */
  predicate NothingNew(c: Craft, p: RxPoll) {
    MODE_FAILSAFE !in c.mode.maskSwitch && !ValidFrame(c.rx, p) && p.status != ReportedFailsafe &&
    p.now - c.rx.frameTime < 200_000
  }

  /** In which states the sticks pass. */
  ghost predicate SticksPass(c: Craft, p: RxPoll, d: Craft) {
    d.fs.rxEverValid &&
    (d.fs.phase == Idle || (!d.Armed() && d.fs.phase in {Landed, RxLossDetected} && NothingNew(c, p)))
  }

  lemma PollSticks(cfg: Config, c: Craft, p: RxPoll, t: nat)
    requires PhasesFit(c, t) && p.Ordered() && t <= p.frameAt && Unqualified(c)
    ensures var (d, gated) := RxStep(cfg, c, p); !gated <==> SticksPass(c, p, d)
  {
    hide OnValidFrame, OnNoValidFrame;
    var b := c.(rx := ReadInputs(c.rx, p));
    if ValidFrame(c.rx, p) { ValidFrameSticks(b, p.now); } else { NoFrameSticks(cfg, b, p, t); }
  }

  lemma ValidFrameSticks(c: Craft, now: nat)
    ensures var (d, gated) := OnValidFrame(c, now); !gated <==> d.fs.rxEverValid && d.fs.phase == Idle
  {}

  lemma NoFrameSticks(cfg: Config, c: Craft, p: RxPoll, t: nat)
    requires PhasesFit(c, t) && p.Ordered() && t <= p.frameAt && (!c.fs.rxEverValid ==> c.fs.phase == Idle)
    ensures var (d, gated) := OnNoValidFrame(cfg, c, p);
            var recent := p.status != ReportedFailsafe && p.now - c.rx.frameTime < 200_000;
            d.fs.rxEverValid == c.fs.rxEverValid &&
            (!gated <==>
              d.fs.rxEverValid &&
              (d.fs.phase == Idle || (!d.Armed() && d.fs.phase in {Landed, RxLossDetected} && recent)))
  {}

  /** In every run a receiver poll gives an armed pilot the sticks if and only if it leaves the craft in
      IDLE, with a qualified receiver.  A disarmed craft gets them in IDLE too, and in LANDED or
      RX_LOSS_DETECTED at exactly the polls that show nothing new. */
  lemma SticksPassExactly(cfg: Config, run: seq<Event>, i: nat)
    requires IsRun(run) && i < |run| && run[i].Rx?
    ensures var c, d := At(cfg, run, i), At(cfg, run, i + 1);
            (!RxStep(cfg, c, run[i].p).1 <==> SticksPass(c, run[i].p, d)) && (d.Armed() ==> d.fs.rxEverValid)
  {
    hide Step, RxStep, SticksPass, PhasesFit;
    var c, e := At(cfg, run, i), run[i];
    EventInOrder(run, i);
    RunKeepsPhases(cfg, run, i, e.Start());
    RunInvariants(cfg, run, i);
    PollSticks(cfg, c, e.p, e.Start());
    RxIsStep(cfg, c, e);
    RunInvariants(cfg, run, i + 1);
  }
}
