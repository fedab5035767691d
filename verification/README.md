# ESP-FC: verified model of its discrete core

A Dafny model of the parts of the ESP-FC flight controller that decide things: who may arm and when a
craft is disarmed, what the flash log holds after a power loss, what the ESC timer program does to the
pins, and what the wire formats and number conversions mean. Each part has a value-level specification
(functions and predicates), theorems about it over all inputs or whole runs, and, where the source works
in place, a class or method with the source's own steps that is proved to do what the specification says.

| files | part of the firmware |
|---|---|
| `FlightModel`, `ReceiverSpec`, `ActuatorSpec`, `ModeRows` | one receiver poll, one mode update, the mode-range rows |
| `Firmware` | the same code as one object whose fields the polls update |
| `FlightRuns`, `LossToDisarm`, `Requalification`, `LandSupervisor`, `LandRequests`, `PilotSticks`, `ModeLatches`, `ArmingRules` | theorems about all runs |
| `PollEffects`, `UpdateEffects` | what one poll and one update leave in every field, in numbers |
| `LandWitness` | concrete runs from power-up |
| `RingBuffer`, `FlashDisk`, `FlashCuts`, `FlashRecovery`, `FlashLog`, `FlashBook`, `FlashLives` | the blackbox log on append-only flash |
| `PulseCompiler`, `EscDriver` | the ESC pulse compiler and its interpreter |
| `Telemetry` | bidirectional DShot: run lengths, GCR, checksum |
| `Bytes`, `MspProtocol`, `MspTheorems`, `MspWire`, `MspFirmware`, `MspScript` | MSP v1/v2: firmware and debug script |
| `Ubx`, `UbxFirmware` | UBX framing and the Fletcher sum |
| `CivilDates`, `Kalman`, `RateCurves`, `RateGrowth`, `RatePoints`, `PrintDigits`, `PrintFormat`, `PrintLaws` | dates, covariance, stick curves, printf |
| `Arithmetic`, `Options` | facts about numbers and an option type that several of them share |

## How a flight is modelled

A run is any sequence of events: receiver polls, mode updates, arming commands from the configurator and
flags set by the CLI or a reboot request, interleaved in any order. Statuses, channel checks, switches,
clock readings, sensor readings and every health verdict are free in every event. One poll has several
ordered clock readings, because the source reads `micros()` more than once. The build is the one
with `ESPFC_LAND_V2_ACTIVE` (and `ESPFC_ALTHOLD_V2_ACTIVE`); DROP is the other procedure.
`Firmware.FlightController.HandleAll` ties the object to these runs, so the theorems hold of it. `PollEffects`
and `UpdateEffects` say field by field what a poll and an update leave behind, with every time, distance and
bit as a number and without the steps that lead there.

Assumptions: time does not wrap (the source's 32-bit differences agree for spans below 2^32 us);
the configuration stays the same during a run; one raw flash write is atomic against power loss; the
partition is smaller than 2^32 bytes and starts erased; `char` is an unsigned byte; a timer wait elapses
exactly its ticks; pulses are not negative; `std::sort` is some sorted permutation; a signed 32-bit
overflow wraps, where the C language leaves it open; `float` arithmetic of the filter, the stick curves and
the LAND timeout is exact. Heights, vertical speeds and thrusts that a LAND request records may be NaN or
infinite; what the cast of a NaN timeout yields is a free 32-bit number at every update. Where a result
says so (`LandSupervisor.EstimatorKeepsNaN`) the altitude estimator is taken to do with a NaN what
lib/Espfc/src/Control/Altitude.hpp:391-451 and :529-560 do: it stays while the craft is armed, so no later
update of that flight finds the height healthy. Shifting 1 by a pin outside 0 to 31, which the C language
leaves open, yields no bit.
`REQUIRE_PRINTF_LONG_SUPPORT` is defined nowhere in the repository; without it `l` is an unknown conversion,
which prints nothing.

## What the proofs found

- The comment at lib/Espfc/src/Input.cpp:533-538 calls LAND terminal for the flight. The code is modelled
  instead: Stage 1 (lib/Espfc/src/Input.cpp:774-788) moves LANDING to RX_LOSS_DETECTED when frames return
  and stop again. `LandSupervisor.LandLeftExactly` says exactly when, `LandWitness.LandIsNotTerminal`
  is a run from power-up that does it; `LossToDisarm.LossDisarms` holds all the same.
- A request that Stage 1 has left alive survives the recovery of the receiver: only a new arm or an ending
  of an active LAND clears it (`LandRequests.RequestEndsExactly`). The LAND of a later loss then runs on the
  snapshot and the time of the earlier one (`LandRequests.LandUsesSnapshotOf`: on its own exactly if no
  request was alive), and a request older than its timeout disarms the craft at the first update
  (`LandRequests.StaleRequestDisarms`). `LandWitness.StaleLandDisarms` is a run from power-up in which a craft
  flies on from 5 s to 70 s with the failsafe over, a frame and a mode update every 100 ms, and is disarmed
  50 ms into the LAND of its second loss.
- A craft that something else disarms during LANDING, such as the configurator or a stale gyro, keeps the
  request and the phase. A full window of valid frames ends every failsafe but this one
  (`LandRequests.WindowEndsFailsafe`, an if and only if); it lasts until frames are lost again
  (`LandRequests.StuckWhileFramesCome`, `LandRequests.StuckPoll`), and `LandWitness.StuckIsReachable` is a run into it.
- Stage 2 records the height without a health test. A NaN passes `std::max` and `std::clamp`
  (lib/Espfc/src/Control/Actuator.cpp:1200-1217), so the timeout alone is between 15 s and 60 s exactly if the
  height was a number (`LossToDisarm.LandTimeoutBounded`). The estimator's health saves the bound: a LAND with
  such a height faults at its first update (`LandSupervisor.NanLandFaults`), and `LossToDisarm.LossDisarms`
  bounds every run by 60 s.
- The ESC compiler raises an active pin if and only if it is one of the first 16, because `commit` cuts its
  masks with `& 0xffff` (lib/EscDriver/src/EscDriverEsp8266.cpp:255 and :267, lib/EscDriver/src/EscDriverEsp32c3.cpp:165 and :179),
  while the ESP32-C3 has pins up to 21 and the CLI accepts any. A motor on such a pin gets no pulse
  (`PulseCompiler.ProgramMeansTable`, `PulseCompiler.PulseOnPin`); `PulseCompiler.MotorWithoutPulse` is pin 18.
- A pulse is at most 5k ticks short if and only if no step of the table up to it reaches the timer's largest
  step, 50 ms: the source merges such a step away too (`PulseCompiler.PulseBounds`).
- Flash recovery is append-safe exactly if no log is open, or an erased sample exists and none lies below
  the data end, or no sample is erased and the open log is empty (`FlashRecovery.RecoveryExact`). In every
  other case the next byte is programmed over an old one (`FlashRecovery.UnrecoverableOverwrites`). `FlashRecovery.FullLogIsForgotten`
  is a concrete disk: a log cut off when it had just filled its partition is left open with the write
  address at its begin.
- Responses may carry up to 240 payload bytes, but neither MSP parser takes more than 192:
  `MspTheorems.RoundTripExactly` is the exact condition.
- `a2i` reads a printed number back exactly if it is at most INT_MAX and what follows does not start with a
  digit or with `a` or `A`, which the comparison `digit > base` (lib/printf/src/printf.c:130-132) takes as the
  digit ten (`PrintDigits.ReadsBackExactly`); `PrintDigits.TooBigToRead` is 2147483648, which overflows.
- A stick curve turns back somewhere exactly with an expo above 100 and, for BETAFLIGHT, RACEFLIGHT and KISS,
  a positive rate; for ACTUAL, a centre sensitivity too small to hide it; for QUICK never
  (`RateGrowth.GrowsExactly`, with the exact inequality for ACTUAL in `RateGrowth.Dips`); the limited setpoint does under
  the same condition (`RateGrowth.SetpointGrowsExactly`).

## Model

| member | source | states |
|---|---|---|
| Firmware.FlightController.UpdateInput | lib/Espfc/src/Input.cpp:224-289 | a receiver poll moves the object exactly as `RxStep` says, including whether sticks stay withheld |
| PollEffects.PowerUp | lib/Espfc/src/Input.cpp:648-681 | at power-up nothing is on, latched or requested, the receiver was never trusted and its loss is flagged |
| PollEffects.FramesAfterPoll | lib/Espfc/src/Input.cpp:224-289 | frames are counted; the channel check counts from the fifth on; an accepted frame moves the frame time |
| PollEffects.TrustAfterPoll | lib/Espfc/src/Input.cpp:482-517 | the receiver is trusted from the accepted frame on that ends a window of at least 500 000 us, and never before |
| PollEffects.TimerAfterPoll | lib/Espfc/src/Input.cpp:460-475 | when the window runs after a poll, and since when: a gap of 200 000 us, a bad frame or any failsafe closes it |
| PollEffects.PhaseAfterPoll | lib/Espfc/src/Input.cpp:413-766 | the failsafe phase after any poll, with the delay as tenths of a second between 200 000 us and 20 000 000 us |
| PollEffects.LossAfterPoll | lib/Espfc/src/Input.cpp:413-788 | the loss flag after any poll |
| PollEffects.FailSafeFlagAfterPoll | lib/Espfc/src/Input.cpp:413-812 | the failsafe flag after any poll |
| PollEffects.LossTimeAfterPoll | lib/Espfc/src/Input.cpp:702-772 | the loss time after any poll |
| PollEffects.LandRecordAfterPoll | lib/Espfc/src/Input.cpp:827-968 | the whole LAND record after any poll |
| PollEffects.ModesAfterPoll | lib/Espfc/src/Input.cpp:956-968 | a poll touches modes only by DROP: ARMED and AIRMODE off, remembered as previous |
| PollEffects.SticksAfterPoll | lib/Espfc/src/Input.cpp:413-766 | when a poll lets the sticks through |
| PollEffects.SameFrames | lib/Espfc/src/Input.cpp:702-724 | the frame, delay and stage conditions of the run theorems are these, in numbers |
| Firmware.FlightController.RunFailsafe | lib/Espfc/src/Input.cpp:413-766 | BOXFAILSAFE first, then valid frames, then losses: state and gate as specified |
| Firmware.FlightController.ReceiveValidFrame | lib/Espfc/src/Input.cpp:460-614 | the valid-frame path: first qualification, recovery, frames during LAND |
| LandSupervisor.Stage1Exactly | lib/Espfc/src/Input.cpp:702-788 | an armed craft gets into RX_LOSS_DETECTED at exactly the polls with neither valid frame nor failsafe and a frame age between 200 ms and the Stage-2 delay; modes and LAND record stay, the recovery timer stops, the sticks are withheld |
| Firmware.FlightController.FailsafeStage2 | lib/Espfc/src/Input.cpp:790-968 | disarmed craft keep LANDED, AUTO_LAND requests once with a snapshot, DROP disarms |
| Firmware.FlightController.DisarmCraft | lib/Espfc/src/Model.h:54-82 | disarming takes ARMED and AIRMODE out of the mask, adds those that were active to the previous mask, sets the reason and nothing else |
| ArmingRules.DisarmIsNoChange | lib/Espfc/src/Model.h:60-82 | a disarm outside mode supervision is no change of ARMED to the next update, which overwrites the previous mask first; only a new arm is, and without one the reason stays |
| ArmingRules.ReasonStays | lib/Espfc/src/Control/Actuator.cpp:1501-1546 | in every run the reason of the last disarm is shown until the craft is armed again |
| Firmware.FlightController.SetArmingDisabled | lib/Espfc/src/Model.h:182-186 | sets or clears one flag and nothing else |
| Firmware.FlightController.RefreshArmingDisabled | lib/Espfc/src/Control/Actuator.cpp:510-619 | every flag is up exactly when its condition holds; a stale gyro disarms |
| Firmware.FlightController.BlockActivations | lib/Espfc/src/Control/Actuator.cpp:875-884 | a newly wanted mode survives exactly if it may be activated |
| ArmingRules.NewModesExactly | lib/Espfc/src/Control/Actuator.cpp:738-887 | a mode that was off is on after a whole update if and only if it was requested (or is FAILSAFE in a failsafe phase) and its gates were open: for ARMED fresh gyro, IDLE, no loss, low throttle, and every other condition on the craft before the update |
| Firmware.FlightController.FilterAssisted | lib/Espfc/src/Control/Actuator.cpp:814-865 | the two fault latches and the request without vetoed modes |
| Firmware.FlightController.SuperviseModes | lib/Espfc/src/Control/Actuator.cpp:738-887 | the mode mask, flags and latches after supervision |
| ArmingRules.DisarmIsAttributed | lib/Espfc/src/Control/Actuator.cpp:1501-1573 | in every run arming leaves a cleared LAND record and the reason SYSTEM, and each disarm shows its own reason: failsafe, stale gyro, switch or configurator |
| Firmware.FlightController.SuperviseLand | lib/Espfc/src/Control/Actuator.cpp:999-1419 | fault, timeout, touchdown or descent, as specified |
| Firmware.FlightController.UpdateActuator | lib/Espfc/src/Control/Actuator.cpp:340-346 | a mode update is the specified step on the request that the rows make |
| UpdateEffects.LandGoes | lib/Espfc/src/Control/Actuator.cpp:1086-1415 | an active LAND faults, times out, has touched down or goes on: timeout at 15 s up to 0.5 m, 60 s from 5 m, 10 s more than a descent at 0.1 m/s in between; ground hold at 25 cm/s, 40 cm, 20 cm descended, and thrust 2 % short of hover and entry for 1 s |
| UpdateEffects.LandRecordAfterUpdate | lib/Espfc/src/Control/Actuator.cpp:999-1419 | the whole LAND record after any update |
| UpdateEffects.TouchdownAfterUpdate | lib/Espfc/src/Control/Actuator.cpp:1364-1415 | the touchdown candidate: started by contact at 15 cm/s, 30 cm and 5 % thrust, kept by the wider hold |
| UpdateEffects.FailsafeAfterUpdate | lib/Espfc/src/Control/Actuator.cpp:999-1419 | an update leaves the receiver alone and changes the phase only to LANDED, at the end of a LAND |
| UpdateEffects.FlagsAfterUpdate | lib/Espfc/src/Control/Actuator.cpp:510-619 | each arming flag after a whole update, from the craft before it; the arm-switch flag if the switch is on and anything stands against arming |
| UpdateEffects.ModesAfterUpdate | lib/Espfc/src/Control/Actuator.cpp:738-887 | which modes are on after a whole update, old and new, mode by mode with their bits as numbers |
| UpdateEffects.LatchesAfterUpdate | lib/Espfc/src/Control/Actuator.cpp:814-865 | the two fault latches after a whole update |
| UpdateEffects.OtherModeFields | lib/Espfc/src/Control/Actuator.cpp:1546-1573 | switch mask, previous mask and airmode permission after a whole update |
| ArmingRules.MspArmingHolds | lib/Espfc/src/Connect/MspProcessor.cpp:2744-2746 | once the configurator disables arming the craft is disarmed, and nothing in any run arms it until the configurator allows it again |
| Firmware.FlightController.HandleAll | lib/Espfc/src/Input.cpp:224-243 | a booted object that handles a run ends in the state that the runs' theorems speak of |
| ModeRows.UpdateMasksForCondition | lib/Espfc/src/Control/Actuator.cpp:101-149 | the two masks keep holding the votes of the rows folded so far |
| ModeRows.ModeConditionLinkValid | lib/Espfc/src/Control/Actuator.cpp:52-99 | a link is valid exactly if target and source differ, are in range, are not ARMED, and the source has no link rows |
| ModeRows.Evaluate | lib/Espfc/src/Control/Actuator.cpp:623-739 | the two-pass fold resolved by XOR requests exactly the modes with an active OR row, or with AND rows that are all active |
| ModeRows.RequestedExactly | lib/Espfc/src/Control/Actuator.cpp:15-149 | a mode is requested if and only if one of its OR rows is on or it has AND rows and all are; which rows count and when they are on, in numbers |
| ModeRows.XorResolves | lib/Espfc/src/Control/Actuator.cpp:733-736 | XOR of the masks is that rule |
| ModeRows.OrderIndependent | lib/Espfc/src/Control/Actuator.cpp:629-739 | neither order nor repetition of rows matters |
| ModeRows.LinkReadsFinalValue | lib/Espfc/src/Control/Actuator.cpp:711-731 | a valid link reads its source's final value |
| ModeRows.ArmingIgnoresLinks | lib/Espfc/src/Control/Actuator.cpp:78-99 | the arm request depends on AUX rows alone |
| ModeRows.AbsentReceiverRequestsNothing | lib/Espfc/src/Control/Actuator.cpp:15-37 | a receiver that never appeared requests nothing, whatever the stale channels hold |
| FlightRuns.RunInvariants | lib/Espfc/src/Input.cpp:648-681 | in every run an unqualified receiver means disarmed, IDLE and loss flagged; an unblocked output means a live, eligible, unexpired request |
| LossToDisarm.LossDisarms | lib/Espfc/src/Input.cpp:702-724 | without valid frames after t0, polled every d: disarmed for good after the clamped Stage-2 delay + 60 s + 2d, given that the estimator keeps a NaN height of an armed flight unhealthy |
| LossToDisarm.LossDropsAtOnce | lib/Espfc/src/Input.cpp:956-968 | under DROP the Stage-2 delay and one poll period suffice |
| LossToDisarm.LandTimeoutBounded | lib/Espfc/src/Control/Actuator.cpp:1184-1217 | the timeout of a LAND is between 15 s and 60 s, whatever a cast makes of a NaN, if and only if its entry height is a number |
| LandSupervisor.NanLandFaults | lib/Espfc/src/Control/Actuator.cpp:1086-1125 | given the same, an active LAND whose entry height is NaN faults at its first update and the craft is disarmed |
| LandSupervisor.ArmedSinceRequest | lib/Espfc/src/Input.cpp:836-851 | in every run an armed craft with a live request has been armed since the poll that began it |
| LossToDisarm.LateRxPoll | lib/Espfc/src/Input.cpp:714-724 | a poll past the Stage-2 delay puts an armed craft into LAND or disarms it |
| LossToDisarm.DoomStands | lib/Espfc/src/Input.cpp:790-968 | once the loss is established it stays so, and a disarmed craft stays disarmed, until valid frames return |
| LossToDisarm.NeverQualifies | lib/Espfc/src/Input.cpp:648-681 | a receiver not qualified when the frames stop never will be |
| LossToDisarm.LandEndsBy | lib/Espfc/src/Control/Actuator.cpp:1332-1363 | a mode update later than every LAND timeout leaves the craft disarmed for good |
| Requalification.TimerHasWindow | lib/Espfc/src/Input.cpp:460-475 | a running recovery timer was started by a valid frame, and every poll since was idle with frame age under 200 ms or a valid frame |
| Requalification.TrustNeedsWindow | lib/Espfc/src/Input.cpp:482-598 | first trust, and every return to IDLE, happen only at a valid frame that ends such a window of at least 500 ms |
| Requalification.TrustWasEarned | lib/Espfc/src/Input.cpp:501-517 | a trusted receiver was qualified by some earlier window |
| Requalification.IdleWasEarned | lib/Espfc/src/Input.cpp:567-598 | the last failsafe before an idle moment was followed by a full window, and none began since |
| Requalification.ArmingNeedsQualification | lib/Espfc/src/Control/Actuator.cpp:1464-1472 | arming happens only with no flag up, low throttle, IDLE and every gate open, under AUTO_LAND with a healthy altitude, after a full window, and after any failsafe by a window later than it |
| LandSupervisor.SnapshotConstant | lib/Espfc/src/Input.cpp:839-891 | the entry snapshot is constant while a request lives |
| LandSupervisor.OutputAfterUpdate | lib/Espfc/src/Control/Actuator.cpp:1011-1132 | an update unblocks the output exactly for an armed, eligible LANDING request that stays alive |
| LandSupervisor.OutputIsOwned | lib/Espfc/src/Control/Controller.cpp:23-35 | at every moment an unblocked output belongs to a live request of a qualified receiver, eligible and unexpired at the last update; with that estimator, one with a number as its height |
| LandSupervisor.LandGatesPilot | lib/Espfc/src/Input.cpp:756-762 | while LAND owns the flight every receiver poll withholds the sticks |
| PilotSticks.SticksPassExactly | lib/Espfc/src/Input.cpp:413-766 | in every run a receiver poll gives an armed pilot the sticks if and only if it leaves the craft in IDLE; a disarmed craft gets them in IDLE with a qualified receiver, and in LANDED or RX_LOSS_DETECTED at exactly the polls that show nothing new |
| LandSupervisor.LandLeftExactly | lib/Espfc/src/Input.cpp:726-736 | a receiver poll takes the phase from an active LAND if and only if it sees neither valid frame nor failsafe and a frame age between 200 ms and the Stage-2 delay; the craft stays armed and the request alive |
| LandWitness.LandIsNotTerminal | lib/Espfc/src/Input.cpp:533-538 | a run from power-up whose last receiver poll ends an active LAND of a craft that stays armed |
| LandSupervisor.LandAfterPoll | lib/Espfc/src/Input.cpp:790-968 | Stage 2 of an armed craft is the only thing in a poll that touches the LAND record; AUTO_LAND keeps a request that is alive |
| LandRequests.LandEntered | lib/Espfc/src/Input.cpp:827-891 | a LAND is entered at exactly the Stage 2 polls of an armed craft under AUTO_LAND, with a new request only if none was alive |
| LandRequests.LandUsesSnapshotOf | lib/Espfc/src/Input.cpp:839-891 | in every run a LAND uses the snapshot of the poll that began the live request, which is its own poll if and only if no request was alive |
| LandRequests.RequestEndsExactly | lib/Espfc/src/Control/Actuator.cpp:999-1419 | under AUTO_LAND a request ends if and only if the craft arms anew or an active LAND faults, times out or touches down |
| LandRequests.StaleRequestDisarms | lib/Espfc/src/Control/Actuator.cpp:1332-1363 | a request that has outlived its timeout disarms the craft at the first update after the next Stage 2 |
| LandWitness.StaleLandDisarms | lib/Espfc/src/Input.cpp:836-845 | a run from power-up, densely polled for more than a minute, in which a recovered, armed craft is disarmed 50 ms into the LAND of its second loss |
| LandRequests.WindowEndsFailsafe | lib/Espfc/src/Input.cpp:519-614 | in every run a full healthy window ends the failsafe if and only if it does not end in LANDING with a request alive |
| LandRequests.StuckPoll | lib/Espfc/src/Input.cpp:519-565 | a craft disarmed in LANDING with its request alive leaves that state at exactly the polls that take Stage 1 or Stage 2 |
| LandRequests.StuckWhileFramesCome | lib/Espfc/src/Input.cpp:519-565 | while every poll brings a valid frame such a craft stays disarmed in LANDING with its sticks withheld |
| LandWitness.StuckIsReachable | lib/Espfc/src/Connect/MspProcessor.cpp:2744-2746 | a run from power-up into that state |
| LandSupervisor.LandEndings | lib/Espfc/src/Control/Actuator.cpp:1095-1415 | fault, timeout and touchdown leave the request withdrawn, output blocked, LANDED and disarmed; anything else keeps it alive and armed |
| LandSupervisor.CandidateHasStart | lib/Espfc/src/Control/Actuator.cpp:1364-1415 | a touchdown candidate began with strict evidence and has had hold evidence ever since |
| LandSupervisor.TouchdownIsConfirmed | lib/Espfc/src/Control/Actuator.cpp:1375-1406 | a touchdown disarm comes at least 2.5 s after the request, 1 s after strict evidence, with hold evidence throughout |
| ModeLatches.AngleStaysOut | lib/Espfc/src/Control/Actuator.cpp:814-837 | after an attitude fault ANGLE stays out of the mask until its request goes off |
| ModeLatches.AltHoldStaysOut | lib/Espfc/src/Control/Actuator.cpp:840-865 | the same for ALTHOLD, whose stick may fail too |
| ModeLatches.RefusalStands | lib/Espfc/src/Control/Actuator.cpp:866-868 | once ARM_SWITCH is flagged nothing arms until the switch goes off |
| ModeLatches.BlockedArmingIsRefused | lib/Espfc/src/Control/Actuator.cpp:868-868 | an arm switch thrown while anything blocks arming is refused at that update |
| RingBuffer.RingBuf.Push | lib/Espfc/src/Utils/RingBuf.h:22-30 | appends, or refuses when full |
| RingBuffer.RingBuf.Pop | lib/Espfc/src/Utils/RingBuf.h:53-62 | takes up to a number of bytes off the front, in order |
| FlashDisk.ProgramErased | lib/Espfc/src/Blackbox/BlackboxFlashfs.cpp:190-195 | writing erased cells stores exactly the data |
| FlashDisk.BeginKeeps | lib/Espfc/src/Blackbox/BlackboxFlashfs.cpp:35-51 | recording a log's begin keeps the disk in order and touches no data |
| FlashDisk.EndAnywhere | lib/Espfc/src/Blackbox/BlackboxFlashfs.cpp:64-81 | closing a log at or behind its data keeps the disk in order and touches no data |
| FlashDisk.DataKeeps | lib/Espfc/src/Blackbox/BlackboxFlashfs.cpp:142-147 | appending keeps the disk in order: nothing programmed twice, journal untouched, logs tile the data area |
| FlashDisk.JournalOnFlash | lib/Espfc/src/Blackbox/BlackboxFlashfs.cpp:35-81 | the last 256 bytes hold 32 entries of two little-endian numbers, the begin and end of each log, all ones where nothing was recorded |
| FlashLog.Flashfs.WriteByte | lib/Espfc/src/Blackbox/BlackboxFlashfs.cpp:153-177 | a byte joins the session; the byte that fills the medium closes the log; at the end nothing happens; the queue is flushed at 64 bytes and at every multiple of 4096 |
| FlashLog.Flashfs.FlushAsync | lib/Espfc/src/Blackbox/BlackboxFlashfs.cpp:130-151 | everything queued goes to flash behind a begun log, in order |
| FlashLog.Flashfs.Flush | lib/Espfc/src/Blackbox/BlackboxFlashfs.cpp:130-151 | flushing between writes is invisible: same logs, same session |
| FlashLog.Flashfs.Close | lib/Espfc/src/Blackbox/BlackboxFlashfs.cpp:269-273 | the session becomes the last closed log |
| FlashLog.Flashfs.Init | lib/Espfc/src/Blackbox/BlackboxFlashfs.cpp:108-128 | after any power loss the store is as `Recover` says, and usable exactly if the disk is recoverable |
| FlashLog.Flashfs.JournalFix | lib/Espfc/src/Blackbox/BlackboxFlashfs.cpp:83-106 | the open log is closed where the sampling scan says |
| FlashLog.Flashfs.ScanForEnd | lib/Espfc/src/Blackbox/BlackboxFlashfs.cpp:90-102 | the loop finds the first erased sample, if any |
| FlashLog.FlushMeans | lib/Espfc/src/Blackbox/BlackboxFlashfs.cpp:135-149 | moving queued bytes to flash changes neither logs nor session |
| FlashLog.CloseMeans | lib/Espfc/src/Blackbox/BlackboxFlashfs.cpp:269-273 | closing appends exactly the session to the list of logs |
| FlashBook.Perform | lib/Espfc/src/Blackbox/BlackboxFlashfs.cpp:130-177 | one write, flush or close on the store is that call on a plain book of logs and an open session; wherever power is lost during the call, the flash holds what it held before and nothing but what the call leaves in the book |
| FlashBook.PerformAll | lib/Espfc/src/Blackbox/BlackboxFlashfs.cpp:108-273 | any sequence of calls on a new store gives the book of that sequence; cut after any number of raw writes, the flash holds a begin of that book, log for log |
| FlashCuts.HistoryGrows | lib/Espfc/src/Blackbox/BlackboxFlashfs.cpp:190-195 | one more raw write keeps the record: wherever it is cut the disk is in order and holds what every earlier cut held |
| FlashBook.PowerLoss | lib/Espfc/src/Blackbox/BlackboxFlashfs.cpp:108-195 | power lost after any raw write between two moments, inside a call or not: nothing was programmed twice, every closed log and stored byte of the first moment is there, and all that is there belongs to the book of the second |
| FlashBook.RecoveryFinds | lib/Espfc/src/Blackbox/BlackboxFlashfs.cpp:83-128 | on any recoverable disk recovery finds those closed logs and, as one more log, the open one followed by fewer than 128 erased bytes |
| FlashLives.Relive | lib/Espfc/src/Blackbox/BlackboxFlashfs.cpp:83-273 | power-up on the flash that a life left, recovery, and any calls: the book is the recovered one with those calls done, it holds all that was left, and wherever this life ends it follows the last |
| FlashLives.LivesGrow | lib/Espfc/src/Blackbox/BlackboxFlashfs.cpp:83-273 | through any number of such lives, what one left is in the book of every later one, log for log |
| FlashBook.NothingIsLost | lib/Espfc/src/Blackbox/BlackboxFlashfs.cpp:153-188 | for every sequence of calls, logs and session together are the bytes written, in order, until the medium is full |
| FlashBook.FlashHoldsBook | lib/Espfc/src/Blackbox/BlackboxFlashfs.cpp:35-81 | the flash up to the write address, then the buffer, are all bytes of the book: logs tile the data area |
| FlashBook.LossBetweenCalls | lib/Espfc/src/Blackbox/BlackboxFlashfs.cpp:83-151 | power loss between calls on a recoverable disk costs the queued bytes only, fewer than 64; the open log gains fewer than 128 erased ones |
| FlashRecovery.ScanFindsLeast | lib/Espfc/src/Blackbox/BlackboxFlashfs.cpp:90-102 | the scan returns the least sampled address that reads as erased, or none |
| FlashRecovery.ScanFindsEnd | lib/Espfc/src/Blackbox/BlackboxFlashfs.cpp:90-102 | the end found is at or behind the true one exactly if every data sample shows data, and then less than 128 bytes behind |
| FlashRecovery.RecoveredEnd | lib/Espfc/src/Blackbox/BlackboxFlashfs.cpp:83-128 | a log that was open ends after recovery at its begin plus the least multiple of 128 at which four bytes read 255, behind its data and less than 128 bytes behind it |
| FlashRecovery.RecoveryExact | lib/Espfc/src/Blackbox/BlackboxFlashfs.cpp:83-128 | recovery leads to an append-safe disk if and only if the disk is recoverable |
| FlashRecovery.RecoveryKeeps | lib/Espfc/src/Blackbox/BlackboxFlashfs.cpp:83-128 | every closed log and data byte is kept; an open log is closed less than 128 bytes behind its data |
| FlashRecovery.UnrecoverableOverwrites | lib/Espfc/src/Blackbox/BlackboxFlashfs.cpp:83-106 | on every other disk the next data byte is programmed over an old one |
| FlashRecovery.FullLogIsForgotten | lib/Espfc/src/Blackbox/BlackboxFlashfs.cpp:90-102 | a concrete unrecoverable disk |
| EscDriver.Driver.Commit | lib/EscDriver/src/EscDriverEsp8266.cpp:238-298 | the item array becomes a compiled program of the active slots, sorted |
| EscDriver.Driver.FillClrMasks | lib/EscDriver/src/EscDriverEsp8266.cpp:261-277 | each slot's pin joins the item of its clear time; short and too long steps are merged |
| EscDriver.Driver.Handle | lib/EscDriver/src/EscDriverEsp8266.cpp:196-236 | one interrupt sequence commits and plays the program item by item |
| EscDriver.Driver.Interpret | lib/EscDriver/src/EscDriverEsp32c3.cpp:109-147 | clear, set, wait, until the item marked last |
| PulseCompiler.ProgramMeansTable | lib/EscDriver/src/EscDriverEsp8266.cpp:196-298 | every active pin is raised once, at time 0, if and only if it is one of the first 16, and cleared once, at its clear time, if and only if it is one of those or the longest pulse's below 32; but for a brushed motor's ends |
| PulseCompiler.ProgramMeansPins | lib/EscDriver/src/EscDriverEsp8266.cpp:196-298 | the same for any pin, also one that several slots share |
| PulseCompiler.MotorWithoutPulse | lib/EscDriver/src/EscDriverEsp32c3.cpp:160-210 | a compiled program for a motor on pin 18, which never goes high |
| PulseCompiler.PulseOnPin | lib/EscDriver/src/EscDriverEsp8266.cpp:196-298 | for non-brushed protocols the shortest pulse of one of the first 16 pins is on it from time 0 to its clear time, whatever the level before, and no other pin is ever switched on; the k-th shortest is never long, and at most 5k ticks short if and only if no step up to it reaches the timer's largest |
| PulseCompiler.PulseBounds | lib/EscDriver/src/EscDriverEsp8266.cpp:261-277 | the k-th shortest pulse is never long, the shortest is exact, and it is at most 5k ticks short if and only if no step up to it reaches the timer's largest step |
| PulseCompiler.ClearSteps | lib/EscDriver/src/EscDriverEsp8266.cpp:261-277 | a pulse is cleared later than the next shorter one by their step if that is six ticks or more and below the largest, and in the same item otherwise |
| PulseCompiler.ItemsInOrder | lib/EscDriver/src/EscDriverEsp8266.cpp:261-277 | a longer pulse is never cleared before a shorter one, and pulses cleared together share one item |
| PulseCompiler.NothingElseIsRaised | lib/EscDriver/src/EscDriverEsp8266.cpp:247-258 | no other pin is ever switched on |
| PulseCompiler.AsyncPeriod | lib/EscDriver/src/EscDriverEsp8266.cpp:279-297 | the free-running period is the interval less the merged ticks when it leaves room |
| PulseCompiler.ItemCount | lib/EscDriver/src/EscDriverEsp32c3.cpp:149-210 | at most n + 1 items are used |
| Telemetry.PushBits | lib/EscDriver/src/EscDriverBase.cpp:61-69 | shifting in bits appends them, modulo 32 bits |
| Telemetry.NearestBits | lib/EscDriver/src/EscDriverBase.cpp:51-59 | a duration is rounded to a count if and only if it is less than half a bit off; halves go up |
| Telemetry.ExtractTelemetryGcr | lib/EscDriver/src/EscDriverBase.cpp:77-118 | the word is the concatenated runs up to the first zero duration, padded with ones to 21 bits |
| Telemetry.ItemFields | lib/EscDriver/src/EscDriverBase.cpp:77-118 | an item is 15 bits of duration and one of level, twice |
| Telemetry.PaddedIs | lib/EscDriver/src/EscDriverBase.cpp:105-118 | a capture is filled up with ones to 21 bits |
| Telemetry.JitterIsRounded | lib/EscDriver/src/EscDriverBase.cpp:51-118 | jitter below half a bit per run does not change the bits |
| Telemetry.XorTakesDifferences | lib/EscDriver/src/EscDriverBase.cpp:158-160 | value XOR its half takes the difference of each bit to the one before |
| Telemetry.GcrRoundTrip | lib/EscDriver/src/EscDriverBase.cpp:158-186 | decoding inverts the coding of every 16-bit word with a right checksum and rejects the others |
| Telemetry.GcrAcceptsExactly | lib/EscDriver/src/EscDriverBase.cpp:164-184 | twenty bits are accepted if and only if they code a word with a right checksum |
| Telemetry.CodeTable | lib/EscDriver/src/EscDriverBase.cpp:158-186 | the quintet of each nibble, as a number |
| Telemetry.DecodeTable | lib/EscDriver/src/EscDriverBase.cpp:158-186 | a quintet is decoded if and only if it is in that table |
| Telemetry.NeverThreeZeros | lib/EscDriver/src/EscDriverBase.cpp:158-186 | a coded word has a one in every three bits |
| Telemetry.TelemetryRoundTrip | lib/EscDriver/src/EscDriverBase.cpp:77-186 | a jittered capture of a coded word, trailing ones possibly missing, decodes to that word |
| Bytes.Crc8DvbS2 | lib/Espfc/src/Utils/Crc.cpp:6-21 | the eight-round loop is the CRC step, which the two rows below determine |
| Bytes.CrcIsLinear | lib/Espfc/src/Utils/Crc.cpp:6-21 | the CRC step is linear over exclusive or in both arguments |
| Bytes.CrcOfBits | lib/Espfc/src/Utils/Crc.cpp:6-21 | its values at the eight single bits: D5, 7F, FE, 29, 52, A4, 9D, EF |
| Bytes.XorByBits | lib/Espfc/src/Utils/Crc.cpp:32-35 | the exclusive or is the one byte whose bits are the sums without carry |
| Bytes.AndByBits | lib/Espfc/src/Blackbox/BlackboxFlashfs.cpp:190-195 | programming over a byte leaves the bits that both have |
| Bytes.CrcInjective | bin/msp.py:232-239 | the CRC step is a bijection in each argument |
| Bytes.XorInjective | lib/Espfc/src/Utils/Crc.cpp:32-35 | so is the XOR step |
| MspFirmware.MspMessage.Parse | lib/Espfc/src/Connect/MspParser.cpp:8-140 | one byte moves the message as one step of the recogniser, inside its buffer; the flags field changes with a complete version 2 header only |
| MspFirmware.Receive | lib/Espfc/src/SerialManager.cpp:281-322 | the loop hands over exactly the frames the recogniser finds, and gives the command line exactly the bytes that leave it idle |
| MspFirmware.MspResponse.WriteU8 | lib/Espfc/src/Connect/Msp.cpp:210-218 | a byte is appended, or dropped when the response is full |
| MspFirmware.MspResponse.SerializeV1 | lib/Espfc/src/Connect/Msp.cpp:246-267 | writes the frame's encoding, or nothing when there is no room |
| MspFirmware.MspResponse.SerializeV2 | lib/Espfc/src/Connect/Msp.cpp:269-293 | the same for version 2 |
| MspWire.V1Bytes | lib/Espfc/src/Connect/Msp.cpp:246-267 | a version 1 frame byte by byte; the last byte makes every bit position even |
| MspWire.V2Bytes | lib/Espfc/src/Connect/Msp.cpp:269-293 | a version 2 frame byte by byte; the last byte is the CRC that starts at zero |
| MspWire.VariantRequest | bin/msp.py:272-282 | the request for the firmware variant is 24 4D 3C 00 02 02 |
| MspScript.MspParser.Feed | bin/msp.py:74-229 | the script's parser is the recogniser that also takes error frames; `raw` is the frame's encoding |
| MspScript.RequestIsUnderstood | bin/msp.py:272-282 | both sides read a built request as that command without payload |
| MspTheorems.RoundTripExactly | lib/Espfc/src/Connect/MspParser.cpp:69-134 | a frame is received as itself if and only if it fits 192 bytes and its command field, and its kind is accepted |
| MspTheorems.StreamRoundTrip | lib/Espfc/src/Connect/Msp.cpp:234-293 | any sequence of fitting frames, sent back to back, is received as exactly that sequence |
| MspTheorems.OnlySentFramesAreReceived | lib/Espfc/src/Connect/MspParser.cpp:8-140 | whatever the stream, only complete well-formed frames that it carries are handed over, in order |
| MspTheorems.BytesAreSpentOnce | lib/Espfc/src/SerialManager.cpp:271-322 | whatever the stream, the received frames, the bytes held and the bytes for the command line are together no longer than what came in |
| MspTheorems.FramesPassNothing | lib/Espfc/src/SerialManager.cpp:271-322 | a stream of fitting frames gives the command line nothing |
| MspTheorems.TextPasses | lib/Espfc/src/SerialManager.cpp:271-322 | text without a dollar sign reaches the command line whole |
| MspTheorems.TwinsAgree | bin/msp.py:74-229 | firmware and script receive the same frames from every stream that offers no error frame |
| MspTheorems.PayloadCorruptionDetected | lib/Espfc/src/Connect/MspParser.cpp:89-134 | a frame with one changed payload byte yields nothing |
| MspTheorems.ChecksumCorruptionDetected | lib/Espfc/src/Connect/MspParser.cpp:98-134 | nor does one with a changed checksum |
| UbxFirmware.UbxMessage.Parse | lib/Gps/src/GpsParser.hpp:11-74 | one byte moves the message as one step of the recogniser; the payload index stays in bounds |
| UbxFirmware.UbxMessage.Checksum | lib/Gps/src/GpsProtocol.hpp:121-132 | the message's sum is the Fletcher sum of header fields and payload |
| UbxFirmware.SumBytes | lib/Gps/src/GpsProtocol.hpp:81-88 | the buffer loop folds the one-byte step |
| UbxFirmware.UbxRequest.Write | lib/Gps/src/GpsProtocol.hpp:163-169 | appends all bytes or none |
| UbxFirmware.FrameRequest | lib/Gps/src/GpsProtocol.hpp:735-757 | a framed request is the encoding of its message, which fits |
| Ubx.FletcherClosedForm | lib/Gps/src/GpsProtocol.hpp:74-79 | both sums in closed form: total, and total weighted by position |
| Ubx.MessageBytes | lib/Gps/src/GpsProtocol.hpp:735-757 | a UBX frame byte by byte, with both sums in closed form |
| Ubx.VersionPoll | lib/Gps/src/GpsProtocol.hpp:735-757 | the poll for the receiver version is B5 62 0A 04 00 00 0E 34 |
| Ubx.RoundTripExactly | lib/Gps/src/GpsParser.hpp:11-74 | a message is received as itself if and only if it fits |
| Ubx.StreamRoundTrip | lib/Gps/src/GpsParser.hpp:11-74 | messages back to back become ready one after the other without any reset |
| Ubx.OnlySentMessagesBecomeReady | lib/Gps/src/GpsParser.hpp:11-74 | whatever the stream, only messages that fit and that it carries become ready, in their order |
| Ubx.PayloadCorruptionDetected | lib/Gps/src/GpsProtocol.hpp:74-88 | a changed payload byte is detected at any length |
| Ubx.ChecksumCorruptionDetected | lib/Gps/src/GpsParser.hpp:63-73 | so is a changed checksum |
| Ubx.ExchangeDetected | lib/Gps/src/GpsProtocol.hpp:74-88 | exchanging two adjacent, unequal payload bytes is detected |
| CivilDates.DateTimeToUnixSeconds | lib/betaflight/src/platform.c:73-89 | the year loop counts the calendar's days and seconds |
| CivilDates.NextDay | lib/betaflight/src/platform.c:73-89 | the day count starts on 1 January 1970 and goes up by one from each day of the calendar to the next |
| CivilDates.SecondsOf | lib/betaflight/src/platform.c:73-89 | seconds on top of minutes, hours and days |
| CivilDates.YearOfEraIs | lib/Espfc/src/Connect/MspProcessor.cpp:260-289 | the source's divisions find the year of the era and its first day |
| CivilDates.DaysRoundTrip | lib/Espfc/src/Connect/MspProcessor.cpp:250-313 | every day number becomes a valid date that the year loop counts back |
| CivilDates.SecondsRoundTrip | lib/Espfc/src/Connect/MspProcessor.cpp:248-327 | every 32-bit second count becomes a valid date and time that counts back to it |
| CivilDates.DatesRoundTrip | lib/Espfc/src/Connect/MspProcessor.cpp:248-327 | every valid date whose count fits 32 bits is found again |
| CivilDates.GpsDateTimeToEpoch | lib/betaflight/src/platform.c:92-104 | the stamp is the low 32 bits of the count, or zero if implausible |
| CivilDates.StampRoundTrip | lib/betaflight/src/platform.c:92-104 | zero means implausible, and plausible calendar times are found again |
| KalmanFilter.Kalman.GetAngle | lib/AHRS/src/Kalman.cpp:39-86 | keeps the covariance symmetric and positive semidefinite, the innovation variance positive, ends below the measurement noise, and returns an angle between prediction and measurement |
| KalmanFilter.PredictKeepsPsd | lib/AHRS/src/Kalman.cpp:51-57 | the prediction keeps the covariance positive semidefinite |
| KalmanFilter.CorrectKeepsPsd | lib/AHRS/src/Kalman.cpp:59-84 | so does the correction, which leaves the angle variance below the noise |
| KalmanFilter.CorrectedIsJoseph | lib/AHRS/src/Kalman.cpp:77-84 | the source's covariance is the error covariance of its own gain |
| KalmanFilter.ErrorStep | lib/AHRS/src/Kalman.cpp:39-86 | for an angle that moves at the rate shown with a constant bias, the error is taken ahead by the bias error and weighed by the gain |
| KalmanFilter.PredictedMeans | lib/AHRS/src/Kalman.cpp:51-57 | the predicted covariance is that of the error taken ahead plus the process noise over the step |
| KalmanFilter.GainIsOptimal | lib/AHRS/src/Kalman.cpp:59-64 | no other gain leaves a smaller variance of angle or bias |
| KalmanFilter.RunBelowNoise | lib/AHRS/src/Kalman.cpp:19-86 | the same after any run of updates from the constructor, with the tuning changed at will |
| RateCurves.CurveIsGain | lib/Espfc/src/Control/Rates.cpp:47-123 | every curve is the stick times a gain of the deflection alone, limited for KISS and QUICK |
| RatePoints.BetaflightPoints | lib/Espfc/src/Control/Rates.cpp:47-69 | the curve at half and full stick, in numbers |
| RatePoints.RaceflightPoints | lib/Espfc/src/Control/Rates.cpp:71-80 | the same |
| RatePoints.KissPoints | lib/Espfc/src/Control/Rates.cpp:82-93 | the same, limited to 1998 deg/s |
| RatePoints.ActualPoints | lib/Espfc/src/Control/Rates.cpp:95-105 | full stick is the larger of the two settings; half stick in numbers |
| RatePoints.QuickFullStick | lib/Espfc/src/Control/Rates.cpp:107-123 | full stick is the larger of the two settings, at most 1998 deg/s |
| RatePoints.QuickHalfStick | lib/Espfc/src/Control/Rates.cpp:107-123 | the same at half stick |
| RatePoints.SetpointInRadians | lib/Espfc/src/Control/Rates.cpp:21-45 | the setpoint is the curve cut at the limit, in radians, for a stick cut at 99.5 % |
| RateGrowth.GainGrows | lib/Espfc/src/Control/Rates.cpp:47-123 | with expo at most 100, and for QUICK with any expo, the gain is nonnegative and grows |
| RateCurves.SetpointIsOdd | lib/Espfc/src/Control/Rates.cpp:21-45 | opposite sticks turn opposite ways, equally fast |
| RateCurves.SetpointIsBounded | lib/Espfc/src/Control/Rates.cpp:21-45 | the axis limit bounds every setpoint |
| RateGrowth.SetpointGrows | lib/Espfc/src/Control/Rates.cpp:21-123 | more stick never turns slower, for every rate type and every setting that does not turn back |
| RateGrowth.SetpointGrowsExactly | lib/Espfc/src/Control/Rates.cpp:21-123 | the limited setpoint grows over every stick input if and only if the settings do not turn it back or the limit is zero; for ACTUAL with a limit of at least the centre sensitivity |
| RateGrowth.GrowsExactly | lib/Espfc/src/Control/Rates.cpp:47-123 | a curve grows over the stick range if and only if its settings do not turn it back: an exact condition for all five rate types and all settings |
| PrintDigits.Ui2a | lib/printf/src/printf.c:70-86 | a 32-bit number in base 10 or 16 becomes its canonical digits and a terminator, inside 12 bytes |
| PrintDigits.I2a | lib/printf/src/printf.c:88-95 | sign and digits fit the buffer for every int but the smallest |
| PrintDigits.DigitsAreCanonical | lib/printf/src/printf.c:70-86 | the digits have no leading zero and spell the number |
| PrintDigits.CanonicalIsDigits | lib/printf/src/printf.c:70-86 | only one canonical text spells a number |
| PrintLaws.DigitLetters | lib/printf/src/printf.c:97-123 | the sixteen digits in both cases, and no other letter is one |
| PrintLaws.PlaceValue | lib/printf/src/printf.c:125-139 | a digit more is the base times as much and the digit |
| PrintLaws.SignedText | lib/printf/src/printf.c:88-95 | a negative number is a minus sign and its digits |
| PrintDigits.A2i | lib/printf/src/printf.c:125-139 | reads digits up to the first byte that is none, and reports it; the number is what they spell, wrapped to 32 bits |
| PrintDigits.ReadsBackExactly | lib/printf/src/printf.c:125-139 | a printed decimal is read back if and only if it is at most INT_MAX and what follows starts with none of 0-9, a, A |
| PrintDigits.TooBigToRead | lib/printf/src/printf.c:125-139 | 2147483648 is read back as -2147483648 |
| PrintLaws.IntWraps | lib/printf/src/printf.c:125-139 | a number is held less a multiple of 2^32, between INT_MIN and INT_MAX |
| PrintFormat.Printer.Putchw | lib/printf/src/printf.c:155-170 | prints the text in its field: max(width, length) characters |
| PrintFormat.Printer.TfpFormat | lib/printf/src/printf.c:252-333 | prints what the format means, returns the number of characters printed, stays inside format and buffer; widths are the wrapped ints that `a2i` reads |
| PrintFormat.WalkExtends | lib/printf/src/printf.c:252-333 | printing only ever adds; counts stored by `%n` stay |
| PrintLaws.FieldIs | lib/printf/src/printf.c:155-170 | a field is the text behind enough zeros or blanks for the width |
| PrintLaws.OneDirective | lib/printf/src/printf.c:252-333 | what any directive with any width up to INT_MAX prints of its argument |
| PrintLaws.FitsIs | lib/printf/src/printf.c:275-325 | which arguments each conversion takes |
| PrintLaws.PlainText | lib/printf/src/printf.c:258-262 | text without a percent sign prints itself |
| PrintLaws.PercentPrints | lib/printf/src/printf.c:318-320 | two percent signs print one |
| PrintLaws.UnknownPrintsNothing | lib/printf/src/printf.c:324-326 | an unknown letter prints nothing |
| PrintLaws.CountIsStored | lib/printf/src/printf.c:321-323 | `%n` stores the count so far |
| PrintFormat.PrintThenRead | lib/printf/src/printf.c:125-139 | what `%u` prints of a 32-bit number, `a2i` reads back if and only if it is at most INT_MAX |

## Left out

- Stage1Exactly: the stick values that Stage 1 substitutes; `Input::processInputs` is one free boolean, the channel check.
- DisarmCraft: the `EVENT_DISARM` that it queues.
- UpdateActuator: `updateScaler`, buzzer, dynamic filters, rescue configuration and LED, which nothing modelled here reads.
- RefreshArmingDisabled: tilt, GPS and estimator tests are free booleans, one for each place where the source evaluates them.
- SuperviseLand: the descent controller itself; only what it is allowed to do is modelled.
- LossDisarms: bounds time by polls that begin and end inside a span of d; how the scheduler achieves that is not modelled.
- Init: `flashfsEraseCompletely`, and a partition that is missing.
- Handle: GPIO, timer and RMT registers; a wait is its ticks, whether the interrupt yields or spins.
- Receive: what the command line and the command handlers do with the bytes and frames they are given.
- WriteU8: the wider writers and string writers of MspResponse, and the MspMessage readers.
- GetAngle: float rounding; `setAngle` and the tuning setters, which `RunBelowNoise` covers as free inputs.
- SetpointGrows: float rounding; the model computes over the reals.
- SetpointGrowsExactly: ACTUAL with a limit below its centre sensitivity, where the limit may cut the dip off; `SetpointGrows` covers it one way.
- TfpFormat: the code under `REQUIRE_PRINTF_LONG_SUPPORT`.
- GcrRoundTrip: `convertToValue` and `convertToErpm`, plain arithmetic on the decoded value, and `dshotEncode`.
- Madgwick, Mahony, Fusion, Altitude and Pid, the MSP command switch, CLI tables, `Model::sanitize` and WiFi are not part of this model.
