/** One receiver poll (`Input::update`) as a function of the craft and of what the outside
    world shows it: the driver's status, the channel check, the clock and the sensors. */
module ReceiverSpec {
  import opened FlightModel

  /** `frameAt`, `now` and `requestAt` are the clock readings made, in this order, by the frame
      timer, by `failsafe` and by `failsafeStage2`. */
  datatype RxPoll = RxPoll(
    status: Status, channelsOk: bool,
    frameAt: nat, now: nat, requestAt: nat,
    height: Reading, vario: Reading, thrust: Reading)
  {
    predicate Ordered() { frameAt <= now <= requestAt }
  }

  /** The receiver half of `readInputs`; the first few frames do not refresh the channel check. */
  function ReadInputs(rx: RxState, p: RxPoll): RxState {
    if p.status == NoFrame then rx
    else
      var valid := if rx.frameCount + 1 < FIRST_FRAMES then rx.channelsValid else p.channelsOk;
      rx.(rxLoss := p.status == Lost || p.status == ReportedFailsafe,
          rxFailSafe := p.status == ReportedFailsafe,
          frameCount := rx.frameCount + 1,
          channelsValid := valid,
          frameTime := if p.status == Received && valid then p.frameAt else rx.frameTime)
  }

  predicate ValidFrame(rx: RxState, p: RxPoll) {
    p.status == Received && ReadInputs(rx, p).channelsValid
  }

  predicate Interrupts(rx: RxState, p: RxPoll) {
    (p.status == Received && !rx.channelsValid) ||
    p.status == Dropped || p.status == Lost || p.status == ReportedFailsafe
  }

  /** A fresh LAND request: the entry snapshot is taken, the supervisor is cleared. */
  function RequestedLand(p: RxPoll): Land {
    Land(true, false, 0, Entry(p.requestAt, p.height, p.vario, p.thrust), NO_GRANT, NO_TOUCHDOWN)
  }

  /** `failsafeStage1` without the substitution of failsafe stick values. */
  function Stage1(c: Craft): Craft {
    c.(fs := c.fs.(recoveryActive := false, phase := RxLossDetected),
       rx := c.rx.(rxLoss := true))
  }

  function Stage2(cfg: Config, c: Craft, p: RxPoll): Craft {
    var rx := c.rx.(rxLoss := true, rxFailSafe := true);
    var f := c.fs.(recoveryActive := false);
    if !c.Armed() then
      c.(rx := rx, fs := if f.phase == Landed then f else f.(phase := RxLossDetected))
    else if cfg.autoLand then
      c.(rx := rx, fs := f.(phase := Landing, land := if f.land.requested then f.land else RequestedLand(p)))
    else
      c.(rx := rx, fs := f.(phase := Landed, land := NO_LAND), mode := Disarm(c.mode, ReasonFailsafe))
  }

  /** `failsafe` on a received frame with valid channels; the flag tells whether sticks stay gated. */
  function OnValidFrame(c: Craft, now: nat): (Craft, bool) {
    var f := if c.fs.recoveryActive then c.fs
             else c.fs.(recoveryActive := true, recoveryStartedUs := now);
    var qualified := now - f.recoveryStartedUs >= RX_RECOVERY_US;
    var blockedRx := c.rx.(rxLoss := true, rxFailSafe := false);
    var freeRx := c.rx.(rxLoss := false, rxFailSafe := false);
    if !f.rxEverValid then
      if !qualified then (c.(fs := f, rx := blockedRx.(lossTime := 0)), true)
      else (c.(fs := f.(rxEverValid := true, recoveryActive := false, phase := Idle),
               rx := freeRx.(lossTime := 0)), false)
    else if f.phase != Idle || c.rx.rxLoss || c.rx.rxFailSafe then
      if f.phase == Landing && f.land.requested then
        (c.(fs := f, rx := if qualified then freeRx else blockedRx), true)
      else if !qualified then
        (c.(fs := f.(phase := RxLossMonitoring), rx := blockedRx), true)
      else
        (c.(fs := f.(recoveryActive := false, phase := Idle), rx := freeRx.(lossTime := 0)), false)
    else
      (c.(fs := f.(recoveryActive := false), rx := freeRx.(lossTime := 0)), false)
  }

  /** `failsafe` on a poll without a valid frame. */
  function OnNoValidFrame(cfg: Config, c: Craft, p: RxPoll): (Craft, bool) {
    var f := if Interrupts(c.rx, p) then c.fs.(recoveryActive := false) else c.fs;
    var age := p.now - c.rx.frameTime;
    if !f.rxEverValid then
      (c.(fs := f.(phase := Idle, recoveryActive := f.recoveryActive && age < RX_RECOVERY_GAP_US),
          rx := c.rx.(rxLoss := true, rxFailSafe := p.status == ReportedFailsafe, lossTime := 0)), true)
    else if p.status == ReportedFailsafe then
      (Stage2(cfg, c.(fs := f), p), true)
    else
      var d := c.(fs := f, rx := c.rx.(lossTime := age));
      if age > Stage2TimeoutUs(cfg) then (Stage2(cfg, d, p), true)
      else if age >= RX_RECOVERY_GAP_US then (Stage1(d), true)
      else (d, f.phase == RxLossMonitoring || (f.phase == Landing && f.land.requested))
  }

  /** `failsafe`: a requested BOXFAILSAFE comes first, then valid frames, then losses. */
  function Failsafe(cfg: Config, c: Craft, p: RxPoll): (Craft, bool) {
    if MODE_FAILSAFE in c.mode.maskSwitch && c.fs.rxEverValid then
      (Stage2(cfg, c.(fs := c.fs.(recoveryActive := false)), p), true)
    else if p.status == Received && c.rx.channelsValid then OnValidFrame(c, p.now)
    else OnNoValidFrame(cfg, c, p)
  }

  /** `Input::update`: the next craft, and whether pilot input is withheld from the controller. */
  function RxStep(cfg: Config, c: Craft, p: RxPoll): (Craft, bool) {
    Failsafe(cfg, c.(rx := ReadInputs(c.rx, p)), p)
  }
}
