/** One receiver poll, field by field: what it leaves in every field of the craft, in numbers and without
    the steps that lead there. */
module PollEffects {
  import opened FlightModel
  import opened ReceiverSpec
  import opened FlightRuns
  import opened LandSupervisor

  /** At power-up nothing is on or latched, no receiver was ever trusted, its loss is flagged, no frame was
      counted, and no LAND was ever requested. */
  lemma PowerUp()
    ensures BOOT.mode.mask == {} && BOOT.mode.maskPrev == {} && BOOT.mode.maskSwitch == {} && BOOT.mode.flags == {}
    ensures BOOT.mode.disarmReason == ReasonArmingDisabled && !BOOT.mode.airmodeAllowed
    ensures !BOOT.latch.angle && !BOOT.latch.altHold
    ensures BOOT.rx.rxLoss && !BOOT.rx.rxFailSafe && !BOOT.rx.channelsValid
    ensures BOOT.rx.frameCount == 0 && BOOT.rx.frameTime == 0 && BOOT.rx.lossTime == 0
    ensures BOOT.fs.phase == Idle && !BOOT.fs.rxEverValid && !BOOT.fs.recoveryActive && BOOT.fs.recoveryStartedUs == 0
    ensures BOOT.fs.land ==
            Land(false, false, 0, Entry(0, Finite(0.0), Finite(0.0), Finite(0.0)),
                 Grant(false, false, false, false, false, true), Touchdown(false, 0))
  {}

  // ----- What a poll shows -----

  /** A frame with good channels; before the fifth frame the channel check is the one of power-up. */
  predicate Accepted(c: Craft, p: RxPoll) {
    p.status == Received && (if c.rx.frameCount >= 4 then p.channelsOk else c.rx.channelsValid)
  }

  /** The age of the last accepted frame at a poll that accepts none. */
  function AgeUs(c: Craft, p: RxPoll): int { p.now - c.rx.frameTime }

  /** The configured tenths of a second, at least 0.2 s and at most 20 s. */
  function DelayUs(cfg: Config): nat {
    if cfg.delay <= 2 then 200_000 else if cfg.delay >= 200 then 20_000_000 else cfg.delay * 100_000
  }

  /** Full failsafe: the switch (mode 5), a reported failsafe, or frames older than the delay. */
  predicate Second(cfg: Config, c: Craft, p: RxPoll) {
    c.fs.rxEverValid &&
    (5 in c.mode.maskSwitch || (!Accepted(c, p) && (p.status == ReportedFailsafe || AgeUs(c, p) > DelayUs(cfg))))
  }

  /** First warning: frames older than 200 ms. */
  predicate First(cfg: Config, c: Craft, p: RxPoll) {
    c.fs.rxEverValid && !Second(cfg, c, p) && !Accepted(c, p) && AgeUs(c, p) >= 200_000
  }

  /** A valid frame that the failsafe switch does not override. */
  predicate Valid(c: Craft, p: RxPoll) {
    Accepted(c, p) && !(5 in c.mode.maskSwitch && c.fs.rxEverValid)
  }

  /** The frame ends a window of half a second. */
  predicate Qualified(c: Craft, p: RxPoll) {
    c.fs.recoveryActive && p.now - c.fs.recoveryStartedUs >= 500_000
  }

  predicate HeldByLand(c: Craft) { c.fs.phase == Landing && c.fs.land.requested }

  lemma SameFrames(cfg: Config, c: Craft, p: RxPoll)
    ensures Accepted(c, p) <==> ValidFrame(c.rx, p)
    ensures DelayUs(cfg) == Stage2TimeoutUs(cfg)
    ensures Second(cfg, c, p) <==> TakesStage2(cfg, c, p)
    ensures c.fs.rxEverValid ==> (First(cfg, c, p) <==> OnlyStage1(cfg, c, p))
  {}

  // ----- The receiver's own fields -----

  lemma FramesAfterPoll(cfg: Config, c: Craft, p: RxPoll)
    ensures var rx := RxStep(cfg, c, p).0.rx;
            rx.frameCount == c.rx.frameCount + (if p.status == NoFrame then 0 else 1) &&
            rx.channelsValid == (if p.status != NoFrame && c.rx.frameCount >= 4 then p.channelsOk else c.rx.channelsValid) &&
            rx.frameTime == (if Accepted(c, p) then p.frameAt else c.rx.frameTime)
  {}

  lemma LossAfterPoll(cfg: Config, c: Craft, p: RxPoll)
    ensures RxStep(cfg, c, p).0.rx.rxLoss ==
            if Second(cfg, c, p) || First(cfg, c, p) then true
            else if Accepted(c, p) then (!c.fs.rxEverValid || c.fs.phase != Idle) && !Qualified(c, p)
            else if !c.fs.rxEverValid then true
            else if p.status == NoFrame then c.rx.rxLoss else p.status == Lost
  {}

  lemma FailSafeFlagAfterPoll(cfg: Config, c: Craft, p: RxPoll)
    ensures RxStep(cfg, c, p).0.rx.rxFailSafe ==
            if Second(cfg, c, p) then true
            else if Valid(c, p) then false
            else if p.status == NoFrame && c.fs.rxEverValid then c.rx.rxFailSafe
            else p.status == ReportedFailsafe
  {}

  lemma LossTimeAfterPoll(cfg: Config, c: Craft, p: RxPoll)
    ensures RxStep(cfg, c, p).0.rx.lossTime ==
            if Valid(c, p) then
              if !c.fs.rxEverValid || c.fs.phase == Idle || (Qualified(c, p) && !HeldByLand(c)) then 0 else c.rx.lossTime
            else if !c.fs.rxEverValid then 0
            else if 5 in c.mode.maskSwitch || p.status == ReportedFailsafe then c.rx.lossTime
            else AgeUs(c, p)
  {}

  // ----- Qualification -----

  /** The receiver is trusted from the frame on that ends its first window of half a second. */
  lemma TrustAfterPoll(cfg: Config, c: Craft, p: RxPoll)
    ensures RxStep(cfg, c, p).0.fs.rxEverValid <==> c.fs.rxEverValid || (Accepted(c, p) && Qualified(c, p))
  {}

  /** The window opens with a valid frame and closes with its end, with anything but an idle poll less than
      200 ms after the last frame, and with either stage of failsafe. */
  lemma TimerAfterPoll(cfg: Config, c: Craft, p: RxPoll)
    ensures var fs := RxStep(cfg, c, p).0.fs;
            (fs.recoveryActive <==>
              if Valid(c, p) then
                if c.fs.rxEverValid then c.fs.phase != Idle && (HeldByLand(c) || !Qualified(c, p)) else !Qualified(c, p)
              else !Second(cfg, c, p) && c.fs.recoveryActive && p.status == NoFrame && AgeUs(c, p) < 200_000) &&
            fs.recoveryStartedUs == (if Valid(c, p) && !c.fs.recoveryActive then p.now else c.fs.recoveryStartedUs)
  {}

  lemma PhaseAfterPoll(cfg: Config, c: Craft, p: RxPoll)
    ensures RxStep(cfg, c, p).0.fs.phase ==
            if Second(cfg, c, p) then
              if !c.Armed() then (if c.fs.phase == Landed then Landed else RxLossDetected)
              else if cfg.autoLand then Landing else Landed
            else if First(cfg, c, p) then RxLossDetected
            else if Valid(c, p) then
              if c.fs.rxEverValid && HeldByLand(c) then Landing
              else if Qualified(c, p) then Idle
              else if c.fs.rxEverValid && c.fs.phase != Idle then RxLossMonitoring
              else c.fs.phase
            else if !c.fs.rxEverValid then Idle else c.fs.phase
  {}

  // ----- Flight -----

  /** Full failsafe of an armed craft: AUTO_LAND takes down the time and the flight state, unless a request is
      alive, and blocks the output; DROP forgets every request. */
  lemma LandRecordAfterPoll(cfg: Config, c: Craft, p: RxPoll)
    ensures RxStep(cfg, c, p).0.fs.land ==
            if !Second(cfg, c, p) || !c.Armed() then c.fs.land
            else if !cfg.autoLand then
              Land(false, false, 0, Entry(0, Finite(0.0), Finite(0.0), Finite(0.0)),
                   Grant(false, false, false, false, false, true), Touchdown(false, 0))
            else if c.fs.land.requested then c.fs.land
            else
              Land(true, false, 0, Entry(p.requestAt, p.height, p.vario, p.thrust),
                   Grant(false, false, false, false, false, true), Touchdown(false, 0))
  {}

  /** A poll touches the modes only by DROP, which takes out ARMED (0) and AIRMODE (1). */
  lemma ModesAfterPoll(cfg: Config, c: Craft, p: RxPoll)
    ensures var d := RxStep(cfg, c, p).0;
            d.latch == c.latch &&
            (if Second(cfg, c, p) && 0 in c.mode.mask && !cfg.autoLand then
               d.mode.mask == c.mode.mask - {0, 1} && d.mode.maskPrev == c.mode.maskPrev + c.mode.mask * {0, 1} &&
               d.mode.disarmReason == ReasonFailsafe && d.mode.maskSwitch == c.mode.maskSwitch &&
               d.mode.flags == c.mode.flags && d.mode.airmodeAllowed == c.mode.airmodeAllowed
             else d.mode == c.mode)
  {}

  /** When a poll lets the sticks through. */
  lemma SticksAfterPoll(cfg: Config, c: Craft, p: RxPoll)
    ensures var (d, gated) := RxStep(cfg, c, p);
            !gated <==>
              !Second(cfg, c, p) && !First(cfg, c, p) && d.fs.rxEverValid && !HeldByLand(d) &&
              (if Accepted(c, p) then d.fs.phase == Idle else c.fs.phase != RxLossMonitoring)
  {}
}
