/** The state that the receiver side (`Input`) and the mode side (`Actuator`) of the
    flight controller share, as plain values.  A 32-bit mode or flag mask is the set of
    its one-bits.  Clock readings are unbounded microsecond counts. */
module FlightModel {

  // ----- Modes (enum FlightMode) -----

  const MODE_ARMED: nat := 0
  const MODE_AIRMODE: nat := 1
  const MODE_ANGLE: nat := 2
  const MODE_ALTHOLD: nat := 3
  const MODE_FAILSAFE: nat := 5
  const MODE_COUNT: nat := 15

  type Mask = set<nat>

  // ----- Arming-disable flags (enum ArmingDisabledFlags) -----

  datatype ArmingFlag =
    | NoGyro | FailsafePhaseFlag | RxFailsafe | BoxFailsafe | ThrottleHigh | TiltAngle
    | Calibrating | Cli | Msp | Gps | RebootRequired | MotorProtocol | AltHoldFlag | ArmSwitch

  datatype DisarmReason =
    ReasonArmingDisabled | ReasonFailsafe | ReasonSwitch | ReasonSystem

  datatype Phase =
    Idle | RxLossDetected | Landing | Landed | RxLossMonitoring | RxLossRecovered

  /** What the receiver driver reports for one poll (enum InputStatus). */
  datatype Status = NoFrame | Received | Dropped | Lost | ReportedFailsafe

  /** A float. */
  datatype Reading = NotANumber | Infinite(positive: bool) | Finite(value: real)

  datatype Config = Config(delay: nat, autoLand: bool, itermCenter: int)

  // ----- Time constants, in microseconds -----

  const TENTH_TO_US: nat := 100_000
  const RX_RECOVERY_US: nat := 500_000
  const RX_RECOVERY_GAP_US: nat := 200_000
  const FIRST_FRAMES: nat := 5

  /** The flight state at the moment LAND was requested. */
  datatype Entry = Entry(requestedUs: nat, height: Reading, vario: Reading, thrust: Reading)

  /** What the LAND supervisor currently grants. */
  datatype Grant = Grant(
    estimatorHealthy: bool, eligible: bool, active: bool,
    levelRequested: bool, descentRequested: bool, outputBlocked: bool)

  datatype Touchdown = Touchdown(candidate: bool, startedUs: nat)

  /** The `landing...` fields of the source's failsafe state. */
  datatype Land = Land(
    requested: bool, fault: bool, lastUpdateUs: nat,
    entry: Entry, grant: Grant, touchdown: Touchdown)

  datatype FailsafeState = FailsafeState(
    phase: Phase,
    rxEverValid: bool,
    recoveryActive: bool,
    recoveryStartedUs: nat,
    land: Land)

  datatype RxState = RxState(
    channelsValid: bool,
    rxLoss: bool,
    rxFailSafe: bool,
    frameTime: nat,
    frameCount: nat,
    lossTime: int)

  datatype ModeState = ModeState(
    mask: Mask,
    maskPrev: Mask,
    maskSwitch: Mask,
    flags: set<ArmingFlag>,
    disarmReason: DisarmReason,
    airmodeAllowed: bool)

  /** The two fault latches private to the Actuator. */
  datatype Latches = Latches(angle: bool, altHold: bool)

  datatype Craft = Craft(fs: FailsafeState, rx: RxState, mode: ModeState, latch: Latches)
  {
    predicate Armed() { MODE_ARMED in mode.mask }

    /** Controller.cpp's test for LAND owning attitude and thrust. */
    predicate LandOwnsControl() {
      fs.land.requested && fs.phase == Landing && fs.land.grant.active && !fs.land.grant.outputBlocked
    }
  }

  const NO_GRANT := Grant(false, false, false, false, false, true)
  const FULL_GRANT := Grant(true, true, true, true, true, false)
  const NO_TOUCHDOWN := Touchdown(false, 0)

  const NO_LAND := Land(false, false, 0, Entry(0, Finite(0.0), Finite(0.0), Finite(0.0)), NO_GRANT, NO_TOUCHDOWN)

  /** The craft after `Input::begin` and `Actuator::begin`. */
  const BOOT := Craft(
    FailsafeState(Idle, false, false, 0, NO_LAND),
    RxState(false, true, false, 0, 0, 0),
    ModeState({}, {}, {}, {}, ReasonArmingDisabled, false),
    Latches(false, false))

  // ----- Model.h -----

  function ClearMode(m: ModeState, bit: nat): ModeState {
    m.(maskPrev := m.maskPrev + (m.mask * {bit}), mask := m.mask - {bit})
  }

  function Disarm(m: ModeState, reason: DisarmReason): ModeState {
    ClearMode(ClearMode(m.(disarmReason := reason), MODE_ARMED), MODE_AIRMODE)
  }

  function ClampInt(v: int, lo: int, hi: int): int {
    if v < lo then lo else if hi < v then hi else v
  }

  function ClampReal(v: real, lo: real, hi: real): real {
    if v < lo then lo else if hi < v then hi else v
  }

  /** Loss time after which Stage 2 begins: the configured tenths of a second, clamped to 0.2 s .. 20 s. */
  function Stage2TimeoutUs(cfg: Config): nat {
    ClampInt(cfg.delay, 2, 200) * TENTH_TO_US
  }
}
