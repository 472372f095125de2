# DragonBreath heat authority: model and proofs

This project models, in Dafny 4.11, the part of the chamber heater's firmware that decides whether the heating
element may be powered, together with four self-contained algorithms around it, and proves what they promise.
Check everything with `dafny verify dfyconfig.toml`.

## What is modelled

**The heater** (`SafetyRules`, `SsrWindow`, `HeaterSpec`, `LatchHistory`, `HeaterDevice`). The clamped target, the
settings with their clamps, the latch in RAM and its copy on flash with the deferred write, the permanent inhibit,
the two soft cuts, both control methods and the only write to the solid-state relay (SSR). `HeaterSpec` gives every
critical section as a transition; `HeaterDevice.HeaterUnit` is the firmware's own form, static fields updated step
by step, and every method is proved to make exactly its transition.

**The policy** (`PolicySpec`, `PolicyDevice`, `FrontPanel`). Modes, the revision, leases, deadlines, the AUTO-resume
memory, fault synchronisation, the On-button selection, the residual-heat purge, the fan and the front panel, again
once as transitions and once as a class (`PolicyDevice.PolicyUnit`) that runs on a `HeaterUnit`. The 32-bit revision
wraps as in the firmware. A button press is also cut into its locked sections, with anything the rest of the device
does in between; every such interleaving is proved to be a run of the device, so all results over runs hold for it.

**The device** (`System`). Policy, heater and clock under every task at once: a run is any sequence of locked
sections, with any arguments, sensor readings, PID results, clock advances, flash failures and reboots. A clear is two
steps with the policy lock held between them, so settings and an inhibit can land inside it; the unlocked tail of a
policy tick is two steps of its own, one that reads the remembered target and one that makes the delayed start. One
monotone clock in microseconds; temperatures are reals.

**What is asked for is done** (`Commands`, `Obedience`). Every command's answer and what it leaves, told from the state
before and after it; and over all runs, how long it then holds.

**Results over all runs**

- `Obedience`: an accepted command stays in force, and every tick heats to its target, until it is stopped or replaced,
  its lease or time is over, or the heater faults; and the first tick past its end ends it.
- `Authority`: no heat without authority. If a tick leaves the SSR on, the heater is inside its safety envelope and
  the mode in force has live authority, dated from the run itself. The proof found one exception, stated below.
- `FaultLatch`: a latching trip stays latched and on flash (or owed to it) until a successful clear; a committed
  latch outlives any number of reboots and unreadable stores; an inhibit lasts until the next boot.
- `LatchHistory`: the element cut, the local cut and the bang-bang intent are exactly their histories over the passes
  since boot, and the PID method drives the SSR by the ideal waveform of the duty asked for.
- `Revision`: the revision cycle, and what gating a command on an observed revision buys.
- `Sessions`, `OnButton`, `Blower`: the resume memory, dead leases, the delayed On-button start and the blower session
  told from the run.

**Controllers on top** (`Arming`, `KlipperMqtt`, `KlipperClient`, `Replay`). The retained-aware arming machine over
all message streams; the MQTT callbacks interleaved with the two-phase control tick; the HTTP command endpoint with
its two-entry replay cache interleaved with the rest of the device.

**Around it** (`ParamStore`, `Ntc`, `Buttons`, `Schedule`, `StartGcode`, `GcodeWords`, `GcodeEdit`, `GcodeText`).
Write-back of the remembered parameters, the thermistor conversion, the button debounce and panel loop, the control
loop's deadline on a wrapping 32-bit tick counter, and the start G-code rewriter from the characters of its input text
to those of its output.

## What the proofs found

- **Leftover heat.** The policy re-applies a target only when it differs by at least 0.05 C. If a source asks for a
  zone strictly between 0 and 0.05 C, that target can stay behind after the authority is gone, and the SSR can come on
  (`Authority.FaintZoneHeatsUnauthorised`, for every such zone). If no source ever asks for such a zone, heat always
  has authority (`Authority.VisibleZonesNeedAuthority`); and even then it takes a printer that reports its own chamber
  below the leftover target (`Authority.LeftoverNeedsColdPrinter`).
- **Panic hides a hazard.** A hazard trip is written to flash only if it is the transition from clear to latched. One
  that comes after a panic-off is not written, and a reboot forgets it (`FaultLatch.PanicHidesHazard`, with a run in
  `FaultLatch.PanicRunForgetsHazard`). A latched tick ends with the latch on flash or owed to it exactly when the tick
  found it clear, or found it on flash or owed already (`FaultLatch.TickDurable`).
- **Recovery without a new seq.** The arming machine does not use up a pending seq when it loses the heartbeat. A fresh
  heartbeat alone re-arms exactly when an unacted seq was pending at the loss and the fields still ask for heat
  (`Arming.RecoveryAloneRearms`).
- **The last revision.** 2^32 - 1 is both a reachable revision and the value that means "any". While it is current an
  internal command that names it is not gated (`Revision.SentinelIsARevision`), and HTTP clients, which cannot name it,
  are refused every heat command (`Replay.LastRevisionRefusesHeat`). A reboot starts the cycle again, so gating does
  not protect across one (`Revision.RebootRepeatsCommand`).
- **A parameter lost after a cut at boot.** A boot cuts the remembered targets to the ceiling and caches what it cut, as
  if flash held that. Raise the ceiling and accept exactly the cached value: the drain finds nothing to write, reports
  a clean store, and the next boot loads the older, higher value (`ParamStore.RaisedCeilingLosesParams`). A key the
  boot could not read is lost the same way when its default is accepted (`ParamStore.UnreadableKeyLosesParams`). The
  exact condition, over ceilings that change and reads that fail at every boot, is `ParamStore.Trusted` for every key:
  written since the last boot; or read at that boot, and either not cut by it or the ceiling not raised since; or not
  readable at that boot, and flash loading like the cached default (`ParamStore.ReloadGivesLastCommitted`). With
  every key readable and a ceiling never raised over the one at boot nothing is lost
  (`ParamStore.UnraisedCeilingIsTrusted`).
- **A start below 30 C.** The MQTT client cuts a target to 20 to 70 C, but the policy refuses anything below 30 C. A
  macro that asks for less leaves the arming machine driving with no lease and no heat until a new seq comes
  (`KlipperMqtt.DecisionIsCarried`).
- **A new method starts the window twice.** A change of control method makes the window driver forget its sensor, so the
  pass after it counts as a change of sensor and starts the window afresh once more (`LatchHistory.WindowIsHistory`).
- **Mixed line ends.** The G-code helper rewrites a file that mixes CRLF and LF to CRLF throughout, so undoing its edit
  gives back the input text exactly when that uses one kind of line end (`GcodeText.RewrittenTextIsUndone`).
- **drying_stop.** `docs/api-v2.md` calls it unconditional. The code answers "invalid command" unless the request
  carries a well-formed `expected_revision` (`Replay.StopOrders`); the model follows the code.

## Model

| member | source | states |
|---|---|---|
| SafetyRules.TripIsTopHazard | components/pb_heater/include/pb_heater.h:221-231 | the trip is a hazard that is present and ranks above every other one present; there is a trip exactly when there is a hazard |
| SafetyRules.PersistedCauseSurvives | components/pb_heater/include/pb_heater.h:76-94 | a persisted latch comes back with its cause, and a corrupt cause still latches |
| SsrWindow.SsrDriver.constructor | components/pb_heater/include/pb_heater_pid.h:78-88 | no window is open and no sensor is known |
| SsrWindow.SsrDriver.Reset | components/pb_heater/include/pb_heater_pid.h:78-88 | closes the window and forgets the sensor |
| SsrWindow.SsrDriver.SetSource | components/pb_heater/include/pb_heater_pid.h:92-103 | the window survives exactly when the sensor stays the same |
| SsrWindow.SsrDriver.Drive | components/pb_heater/include/pb_heater_pid.h:192-219 | the early-return form equals "phase below the squelched on-time" of the rolled window |
| SsrWindow.WindowStaysPhaseLocked | components/pb_heater/include/pb_heater_pid.h:197-207 | over any ordered calls, with duties of none in between or not: the window start is congruent modulo 30 s to the call that first asked for drive and within 30 s of the one that last did, and the drive is "asked for, and phase below on-time" |
| SsrWindow.SegmentsOutlastDwell | components/pb_heater/include/pb_heater_pid.h:209-218 | after any switch of the ideal waveform the level holds for at least 2 s |
| SsrWindow.DrivenIsOnTime | components/pb_heater/include/pb_heater_pid.h:209-218 | counting driven microseconds of a window gives the squelched on-time |
| SsrWindow.RealisedFraction | components/pb_heater/include/pb_heater_pid.h:23-28 | the driven fraction of a window is within 1/15 and one microsecond of the duty |
| SsrWindow.SquelchIsExact | components/pb_heater/include/pb_heater_pid.h:205-219 | drives of 2 to 28 s per window are realised to the microsecond, shorter ones left out, shorter pauses driven through |
| SsrWindow.OneSwitchInside | components/pb_heater/include/pb_heater_pid.h:192-219 | inside one window the ideal waveform switches at most once, from on to off |
| SsrWindow.TwoSwitchesPerWindow | components/pb_heater/include/pb_heater_pid.h:19-23 | entering a window of the ideal waveform and looking at it any number of times inside shows at most two switches |
| SsrWindow.AnswerIsLevel | components/pb_heater/include/pb_heater_pid.h:192-219 | every answer of the driver over ordered calls is the ideal waveform of the duty asked for at that call, counted from the call that first asked for drive, and no drive when none is asked for |
| SsrWindow.DriverSwitchesTwice | components/pb_heater/include/pb_heater_pid.h:19-23 | so under one duty the driver's own answers switch the relay at most twice per window |
| HeaterSpec.OnlyInsideEnvelope | components/pb_heater/pb_heater.c:591-770 | a tick with any sensors, PID result and flash outcome keeps the safety bounds, and leaves the SSR on only inside the envelope: both sensors valid, element below a cut of at most 104 C, chamber below 85 C, regulated temperature below target, local chamber below 72 C when regulating externally, link fresh |
| HeaterSpec.HazardLatches | components/pb_heater/pb_heater.c:636-657 | a tick latches exactly when a hazard is present (105 C element, 85 C chamber; a silent sensor or an expired link while heat is asked for), with the highest-ranking cause; else the target stays |
| HeaterSpec.LatchIsWritten | components/pb_heater/pb_heater.c:435-466 | a new latch is written with its cause if flash takes it and owed otherwise; one that is not new leaves flash alone |
| HeaterSpec.DebtIsRetried | components/pb_heater/pb_heater.c:598-622 | an owed write is tried at most every 2 s with nobody else writing, and paid by a write or by a latch that has gone |
| HeaterSpec.TargetAnswers | components/pb_heater/pb_heater.c:183-214 | a target is refused exactly for no number, or for heat under a fault; else it is cut to zero and the ceiling |
| HeaterSpec.ClearHalves | components/pb_heater/pb_heater.c:492-526 | an inhibit or failing flash refuses the first half of a clear; the second leaves nothing of the latch |
| HeaterSpec.SettingsKeepSafe | components/pb_heater/pb_heater.c:270-395 | no setting, whatever is sent, breaks 0 <= target <= ceiling <= 70 or any clamp |
| HeaterSpec.WrittenSettingReloads | components/pb_heater/pb_heater.c:90-96 | each settings key written on its own reads back as that setting to the nearest hundredth, automatic staying automatic, and changes no other loaded setting |
| HeaterSpec.LatchingKeepsSafe | components/pb_heater/pb_heater.c:435-526 | latching, inhibiting and the flash half of a clear keep the bounds, zero target under a fault included |
| HeaterSpec.BootIsSafe | components/pb_heater/pb_heater.c:140-268 | a boot on any stored settings and any flash answer comes up safe, SSR off, target zero, flash untouched |
| LatchHistory.LatchesAreHistories | components/pb_heater/pb_heater.c:659-729 | over any list of passes with changing targets, thresholds, methods and sensors: each of the element cut, local cut and intent holds exactly when some pass set it and every later pass only held it |
| LatchHistory.DriveFollowsLatches | components/pb_heater/pb_heater.c:713-769 | the SSR is on only in a running pass with no cut and below target, and in bang-bang mode exactly when intent and no cut |
| LatchHistory.OffFromCutToResume | components/pb_heater/include/pb_heater.h:177-184 | from a pass at or above the cut the SSR stays off until a pass below resume or a disarmed one |
| LatchHistory.TickIsAPass | components/pb_heater/pb_heater.c:591-770 | every heater tick is one pass of that history, and latching from outside only drops the SSR |
| LatchHistory.WhenAPassRuns | components/pb_heater/pb_heater.c:636-668 | when a pass of the loop trips and when it runs, in temperatures |
| LatchHistory.WindowIsHistory | components/pb_heater/pb_heater.c:659-717 | the window driver's state and answer equal a reading of the PID calls since it last started afresh (disarmed, another method or sensor) |
| LatchHistory.PidDrivesWaveform | components/pb_heater/pb_heater.c:736-771 | a running PID pass drives the SSR exactly by the ideal waveform of the duty it asks for; none above target, under a cut or without a PID result |
| LatchHistory.TickShows | components/pb_heater/pb_heater.c:625-680 | what a tick of the policy shows the loop: the target it leaves, the settings, this tick's sensors, and the printer's chamber exactly in AUTO with the printer connected |
| LatchHistory.RunPidDrivesWaveform | components/pb_heater/pb_heater.c:736-771 | the same in every run, with the calls read off the run |
| LatchHistory.RunIsFold | components/pb_heater/pb_heater.c:591-770 | in every run of the device the loop state is the fold of the heater passes since boot; after a tick the SSR is that of its pass, and until the next it can only have been switched off |
| LatchHistory.RunLatchesAreHistories | components/pb_heater/pb_heater.c:659-729 | in every state of every run the three latches are exactly their histories over the passes since boot |
| LatchHistory.RunOffFromCutToResume | components/pb_heater/pb_heater.c:689-729 | in every run, from a tick at or above the cut the SSR stays off until a tick below resume, a disarmed one or a boot |
| HeaterDevice.HeaterUnit.constructor | components/pb_heater/pb_heater.c:140-181 | a fresh unit is the boot state on the given flash |
| HeaterDevice.HeaterUnit.SetTargetC | components/pb_heater/pb_heater.c:183-206 | new state and answer of the target transition: clamped, refused when not finite, no heat behind a fault |
| HeaterDevice.HeaterUnit.SetControlChamberC | components/pb_heater/pb_heater.c:216-221 | only the external regulation temperature changes |
| HeaterDevice.HeaterUnit.SetMaxTargetC | components/pb_heater/pb_heater.c:270-287 | ceiling clamped to 30..70 and a live target pulled down with it; its key written through if flash takes it |
| HeaterDevice.HeaterUnit.SetCommsTimeoutMs | components/pb_heater/pb_heater.c:297-312 | timeout clamped to 10 s..5 min; its key written through if flash takes it |
| HeaterDevice.HeaterUnit.SetCoolReleaseC | components/pb_heater/pb_heater.c:322-338 | release temperature clamped to 30..65; its key written through if flash takes it |
| HeaterDevice.HeaterUnit.SetFbCutC | components/pb_heater/pb_heater.c:348-369 | zero means automatic, anything positive is clamped to 90..104; its key written through if flash takes it |
| HeaterDevice.HeaterUnit.ChooseMethod | components/pb_heater/pb_heater.c:379-395 | the two method codes are accepted and written through, every other code is refused and changes nothing |
| HeaterDevice.HeaterUnit.NotifyLinkAlive | components/pb_heater/pb_heater.c:405-411 | only the link time changes |
| HeaterDevice.HeaterUnit.LoadStoredConfig | components/pb_heater/pb_heater.c:223-268 | whatever settings flash holds, readable or not, the loaded ones are the clamped ones and the target respects the new ceiling |
| HeaterDevice.HeaterUnit.PersistFault | components/pb_heater/pb_heater.c:417-429 | flash takes both fault keys or stays as it was |
| HeaterDevice.HeaterUnit.LatchRam | components/pb_heater/pb_heater.c:439-450 | latch, cause and inhibit set, target zero, and whether this was the transition |
| HeaterDevice.HeaterUnit.PersistLatch | components/pb_heater/pb_heater.c:451-464 | the latch is on flash afterwards or owed to it |
| HeaterDevice.HeaterUnit.LatchOff | components/pb_heater/pb_heater.c:435-465 | the whole latching transition: RAM, SSR, flash only on the transition, and the debt when the write failed |
| HeaterDevice.HeaterUnit.EmergencyShutdown | components/pb_heater/pb_heater.c:474-478 | latches with the emergency cause, SSR down, persisted |
| HeaterDevice.HeaterUnit.PanicStop | components/pb_heater/pb_heater.c:480-490 | latches in RAM only and leaves the SSR to the next tick |
| HeaterDevice.HeaterUnit.InhibitForever | components/pb_heater/pb_heater.c:528-535 | latches and inhibits, SSR down, nothing persisted |
| HeaterDevice.HeaterUnit.ClearFlash | components/pb_heater/pb_heater.c:492-515 | refused under an inhibit; otherwise flash is cleared or the clear fails with RAM still latched |
| HeaterDevice.HeaterUnit.ClearLatch | components/pb_heater/pb_heater.c:516-525 | RAM latch, cause, target and debt cleared, the inhibit kept |
| HeaterDevice.HeaterUnit.RestoreFault | components/pb_heater/pb_heater.c:557-581 | for every answer flash can give, latched exactly as the restore decision says |
| HeaterDevice.HeaterUnit.RetryPersist | components/pb_heater/pb_heater.c:599-622 | one deferred write attempt per 2 s, only with the lock free, and the debt dropped only when written or cleared |
| HeaterDevice.HeaterUnit.Disarm | components/pb_heater/pb_heater.c:659-667 | SSR off and every history of the loop dropped, shared state untouched |
| HeaterDevice.HeaterUnit.UpdateCuts | components/pb_heater/pb_heater.c:669-698 | process variable selected and both soft cuts advanced by one sample |
| HeaterDevice.HeaterUnit.SyncMethod | components/pb_heater/pb_heater.c:702-711 | a change of method resets both paths, no change resets nothing |
| HeaterDevice.HeaterUnit.DriveBangBang | components/pb_heater/pb_heater.c:713-729 | intent by hysteresis, SSR equal to intent and no cut |
| HeaterDevice.HeaterUnit.DrivePid | components/pb_heater/pb_heater.c:731-769 | the SSR is the window's answer for a duty that is zero at target, on failure and under a cut |
| HeaterDevice.HeaterUnit.RunLoop | components/pb_heater/pb_heater.c:669-769 | one running pass, statement by statement, is the pass of the history lemmas |
| HeaterDevice.HeaterUnit.TickOnce | components/pb_heater/pb_heater.c:591-770 | the whole tick, early returns included, is the transition whose envelope is proved |
| System.BootKeepsInv | components/pb_policy/pb_policy.c:445-467 | every boot establishes the device invariant |
| System.OffKeepsInv | components/pb_policy/pb_policy.c:203-239 | both ways of ending a run keep it |
| System.PowerOnKeepsInv | components/pb_policy/pb_policy.c:477-540 | POWER_ON keeps it: exactly one of lease and local deadline, dated at most 5 min or 24 h ahead |
| System.AutoKeepsInv | components/pb_policy/pb_policy.c:563-600 | AUTO keeps it |
| System.DryKeepsInv | components/pb_policy/pb_policy.c:602-641 | drying keeps it: a deadline exists exactly in DRYING, at most 12 h after the command |
| System.BeatKeepsInv | components/pb_policy/pb_policy.c:771-790 | heartbeats keep it: the link time is the last refresh of the lease |
| System.ClearKeepsInv | components/pb_policy/pb_policy.c:792-812 | the flash half of a clear keeps it: from then on flash is not latched |
| System.ClearRestKeepsInv | components/pb_policy/pb_policy.c:812-817 | the rest of a clear keeps it, also when an inhibit landed in between |
| System.LocklessKeepInv | components/pb_heater/pb_heater.c:270-395 | settings and inhibits keep it at any moment, inside a clear too |
| System.TickKeepsInv | components/pb_policy/pb_policy.c:1016-1213 | a tick keeps it, and after every tick a fault implies OFF |
| System.StepKeepsInv | components/pb_policy/pb_policy.c:445-1232 | the mode bookkeeping and the safety bounds are inductive over every step of the device |
| System.RunKeepsInv | components/pb_policy/pb_policy.c:445-1232 | they hold in every state of every run |
| Commands.HeatCommandAnswers | components/pb_policy/pb_policy.c:184-202 | a heat command is accepted exactly when none of six reasons speaks against it (malformed, bound, another revision, too cold, inhibited, faulted); else the answer is that of the first reason and nothing changes |
| Commands.AcceptedCommandLeaves | components/pb_policy/pb_policy.c:489-641 | what an accepted command leaves: POWER_ON at the capped target on a fresh lease of one comms timeout, or for 12 h or the hours asked for; AUTO waiting with its target and threshold; DRYING for so many hours; and everything else as it was |
| Commands.OffAndStopLeave | components/pb_policy/pb_policy.c:203-240 | "off" always leads to OFF with no target, lease or deadline; stopping a run that replaced AUTO leads back to AUTO as remembered |
| Commands.PanicLeaves | components/pb_policy/pb_policy.c:819-855 | a panic-off latches in RAM alone, drops everything the policy holds and moves the revision once |
| Commands.ClearAnswers | components/pb_policy/pb_policy.c:792-817 | the flash half of a clear: each refusal exactly, and on success only the flash copy changes |
| Commands.ClearRestLeaves | components/pb_policy/pb_policy.c:792-817 | the rest of a clear: the latch, its cause and its debt are gone, an inhibit stays, the policy is OFF |
| Commands.HeartbeatAnswers | components/pb_policy/pb_policy.c:771-790 | a heartbeat counts exactly for the live lease of a POWER_ON run before its deadline, and moves that to one comms timeout from now |
| Commands.FanAnswers | components/pb_policy/pb_policy.c:670-694 | air is refused exactly while heat is on or a purge runs; a new level moves the revision once, an old one changes nothing |
| Commands.FilterAnswers | components/pb_policy/pb_policy.c:696-719 | the filtration settings are taken exactly for a bed temperature of 20 to 60 C |
| Commands.ReportsLeave | components/pb_policy/pb_policy.c:735-769 | a report replaces the one before, with what is no number counted as zero and the zone cut to 0 to 70 C; no report touches revision or heater |
| Commands.SettingsLeave | components/pb_heater/pb_heater.c:270-395 | every setting lands inside its own bounds, exactly as sent where those allow; a lower ceiling pulls the live target down |
| Commands.LocklessLeavePolicy | components/pb_heater/pb_heater.c:528-535 | settings and the inhibit leave the policy alone, and an inhibit latches for good with the SSR off |
| Commands.BootLeaves | components/pb_heater/pb_heater.c:140-268 | a boot leads to OFF at revision 1 with nothing pending, with the parameters it loaded and the stored settings within their bounds |
| Obedience.TickObeys | components/pb_policy/pb_policy.c:1016-1142 | every tick from any state: unless the heater faults, the mode goes on until its lease or time is over, the target is within 0.05 C of what the mode asks for or at the ceiling, and a run without a remote controller refreshes the link; a lease that is over latches |
| Obedience.TickMovesRevision | components/pb_policy/pb_policy.c:1016-1213 | a tick moves the revision once for each change observers see, with its author; filtration follows its band and the blower its request or 30 percent |
| Obedience.CommandHolds | components/pb_policy/pb_policy.c:542-641 | over any run an accepted command stays in force, with its own target and the end it set, until something ends it; heartbeats move the end of a remote run and nothing else |
| Obedience.CommandIsObeyed | components/pb_policy/pb_policy.c:1016-1142 | over any run each tick until that end leaves the mode in force and the heater at its target (AUTO: at the zone asked for), and the first tick past the end ends it, latching a remote run |
| Authority.ModeStepIsAuthorised | components/pb_policy/pb_policy.c:1037-1100 | a mode that asks for a positive target has authority at that tick, if the link is fresh or the tick refreshes it |
| Authority.DemandReachesHeater | components/pb_policy/pb_policy.c:1102-1126 | what the mode asked is what the heater regulates to, up to the re-apply step and the ceiling |
| Authority.TickHeatsUnderAuthority | components/pb_policy/pb_policy.c:1016-1138 | after the locked part of any tick from any valid state: SSR on implies envelope and authority, or the leftover exception |
| Authority.StepDatesAuthority | components/pb_policy/pb_policy.c:155-182 | only an accepted command brings a mode up and only a command or heartbeat refreshes a lease, at the time recorded |
| Authority.ModeGoesBackToCommand | components/pb_policy/pb_policy.c:477-641 | in every run a mode other than OFF goes back to an accepted command since boot |
| Authority.LeaseGoesBackToRefresh | components/pb_policy/pb_policy.c:771-790 | in every run a live lease goes back to the command or heartbeat that last refreshed it |
| Authority.NoHeatWithoutAuthority | components/pb_policy/pb_policy.c:1016-1138 | in every run, SSR on after a tick implies the envelope and one of: an unexpired lease refreshed within the comms timeout; an unexpired local deadline within 24 h of its command; AUTO with a connected source, a positive zone and no helper; drying within 12 h of its command; or a leftover target below 0.05 C |
| Authority.VisibleZonesNeedAuthority | components/pb_policy/pb_policy.c:1122-1123 | with no zone request strictly between 0 and 0.05 C the exception cannot happen in any run |
| Authority.FaintZoneHeatsUnauthorised | components/pb_policy/pb_policy.c:1122-1123 | for every zone strictly between 0 and 0.05 C some run heats without authority |
| Authority.LeftoverNeedsColdPrinter | components/pb_policy/pb_policy.c:1128-1138 | the exception needs AUTO regulated by a printer that reports its chamber below 0.05 C |
| FaultLatch.TickDurable | components/pb_heater/pb_heater.c:435-465 | a tick that latches a clear heater leaves flash latched or owed, and no tick changes whether an older latch is |
| FaultLatch.TickCommits | components/pb_heater/pb_heater.c:599-622 | a tick keeps a committed latch committed and pays a due debt |
| FaultLatch.FaultedTicksOff | components/pb_heater/pb_heater.c:651-667 | a tick on a faulted heater ends with the SSR off and the fault kept |
| FaultLatch.DurableUntilCleared | components/pb_heater/pb_heater.c:435-526 | from a latching trip until a successful clear or a reboot, RAM is latched and flash holds it or the write is owed |
| FaultLatch.CommittedUntilCleared | components/pb_heater/pb_heater.c:557-581 | once on flash, through any reboots and unreadable stores, the device stays latched and every tick and boot leaves the SSR off until a successful clear |
| FaultLatch.DueDebtIsPaid | components/pb_heater/pb_heater.c:599-622 | the first due tick with the lock free and a working store commits the latch |
| FaultLatch.PanicHidesHazard | components/pb_heater/pb_heater.c:441-451 | whatever unlatched content flash has, a hazard that finds a panic-off latched is not on flash: the next boot comes up unfaulted |
| FaultLatch.PanicRunForgetsHazard | components/pb_heater/pb_heater.c:441-451 | a run from a never-written flash that does so: panic-off, an element at 120 C, a reboot without a fault |
| FaultLatch.InhibitLastsUntilReboot | components/pb_heater/pb_heater.c:492-535 | an inhibit, even inside a clear, keeps the target at zero and every tick's SSR off until the next boot |
| FaultLatch.BootReadsLatch | components/pb_heater/pb_heater.c:557-581 | for every flash content and answer, whether a boot comes up latched and with which cause |
| Revision.RevisionCycles | components/pb_policy/pb_policy.c:140-147 | the revision is never zero and has period 2^32 - 1 |
| Revision.SameRevisionSpansCycle | components/pb_policy/pb_policy.c:140-147 | two equal revisions are at least a whole cycle of advances apart |
| Revision.StepAdvances | components/pb_policy/pb_policy.c:184-201 | the revision only moves forward, past every accepted command and completed clear, and a gated command is accepted only at the revision it names |
| Revision.OneAcceptedPerCycle | components/pb_policy/pb_policy.c:184-201 | of all commands gated on one observed revision, from HTTP, buttons or the delayed On-button start, at most one is accepted per cycle |
| Revision.SentinelIsARevision | components/pb_policy/include/pb_policy.h:18-18 | the last revision of the cycle is the value that matches everything |
| Revision.RebootRepeatsCommand | components/pb_policy/pb_policy.c:445-455 | a command accepted at the boot revision is accepted again after a reboot |
| Sessions.ResumeIsHistory | components/pb_policy/pb_policy.c:512-520 | in every run AUTO is remembered exactly in a POWER_ON stretch that replaced AUTO, through any chain of commands |
| Sessions.DeadLeaseStaysDead | components/pb_policy/pb_policy.c:771-790 | an invalidated lease id is refused by every later heartbeat of the run, reboots included |
| OnButton.ClicksCountChain | components/pb_policy/pb_policy.c:900-920 | the click counter is always the length, up to four, of the last chain of taps with gaps under 700 ms that still counts |
| OnButton.TickStartsLastChain | components/pb_policy/pb_policy.c:1030-1035 | a tick leaves a start exactly when it finds the taps complete: six hours per tap of that chain, tied to its revision |
| OnButton.DelayedStartGate | components/pb_policy/pb_policy.c:1215-1232 | within a cycle the start passes its gate exactly when nothing advanced the revision since, or the revision is the sentinel |
| OnButton.CommandBeatsDelayedStart | components/pb_policy/pb_policy.c:1215-1232 | a command that lands in between wins: the start is refused and changes nothing |
| OnButton.StartRunsSixHoursPerTap | components/pb_policy/pb_policy.c:553-561 | over runs: the start is accepted exactly on an unbound, unfaulted device at its revision for a target from 30 C, and then runs six hours per tap of the last chain at the target as some step read it |
| OnButton.ReadTakesManual | components/pb_policy/pb_policy.c:1217-1220 | reading the parameters before the start touches nothing else |
| Blower.SessionIsHeatingOrPurging | components/pb_policy/pb_policy.c:1140-1151 | after every tick the session flag is "heating or purging", and then the blower is at 30 percent or more |
| Blower.BlowerRunsUntilCool | components/pb_policy/pb_policy.c:988-1014 | from a heating tick on, however cool the sensors are while it heats, the blower runs in every tick until one that does not heat and finds both sensors valid and cool |
| Blower.PurgeGoesBackToHeat | components/pb_policy/pb_policy.c:988-1014 | no purge without a heating tick of the same boot and no release since |
| FrontPanel.PressKeepsInv | components/pb_policy/pb_policy.c:893-986 | a press of any button with nothing in between keeps the device invariant |
| FrontPanel.PressLeaves | components/pb_policy/pb_policy.c:862-986 | what any press leaves: a tap counted, a mode stopped or started from its remembered parameters or left alone, a panic-off, or a clear |
| FrontPanel.InterruptedPressesAreRuns | components/pb_policy/pb_policy.c:862-986 | presses cut into their reads and locked sections, with any steps of other tasks and reboots in between, make a run of the device |
| FrontPanel.InterruptedPressesKeepInv | components/pb_policy/pb_policy.c:862-986 | the device invariant holds in every state of every such interleaving |
| FrontPanel.FinishingHoldsLock | components/pb_policy/pb_policy.c:922-932 | in every interleaving a press that is past the flash half of its clear still holds the policy lock |
| FrontPanel.LastSectionStops | components/pb_policy/pb_policy.c:922-982 | whatever came in between, the last section of a panic latches and stops heat, that of Power leads to OFF, and none heats a faulted heater |
| FrontPanel.AloneIsPress | components/pb_policy/pb_policy.c:862-986 | with nothing in between the sections together are exactly the press of the lemmas here |
| FrontPanel.PowerPressIsOff | components/pb_policy/pb_policy.c:973-982 | Power leads to OFF with zero target; while OFF it only drops a pending selection, the revision stays |
| FrontPanel.OnPressTakenBack | components/pb_policy/pb_policy.c:862-891 | a second On press takes the first one back: to AUTO on its remembered settings if that was replaced, else to OFF |
| FrontPanel.LongPressStopsHeat | components/pb_policy/pb_policy.c:922-938 | a long press latches a panic-off, except Power on a fault, which clears it exactly when not inhibited and flash works; never heat |
| FrontPanel.FaultedPressNeverHeats | components/pb_policy/pb_policy.c:893-986 | no press asks a faulted heater for heat |
| PolicyDevice.PolicyUnit.constructor | components/pb_policy/pb_policy.c:445-475 | boots OFF at revision 1 with the remembered parameters |
| PolicyDevice.PolicyUnit.AdvanceRevision | components/pb_policy/pb_policy.c:140-147 | the wrapping increment is the successor in the revision cycle |
| PolicyDevice.PolicyUnit.SetOffLocked | components/pb_policy/pb_policy.c:203-215 | exactly the OFF transition on policy and heater |
| PolicyDevice.PolicyUnit.RestoreOrOffLocked | components/pb_policy/pb_policy.c:222-239 | back to AUTO waiting if that is remembered, else OFF |
| PolicyDevice.PolicyUnit.PrecheckLocked | components/pb_policy/pb_policy.c:189-201 | refusals in the source's order: revision, target, inhibit, fault |
| PolicyDevice.PolicyUnit.IssueLease | components/pb_policy/pb_policy.c:168-182 | the new lease expires one comms timeout from now, and its id was never issued before |
| PolicyDevice.PolicyUnit.StartPowerOn | components/pb_policy/pb_policy.c:511-532 | the session of a POWER_ON: lease or local deadline, resume memory carried or set |
| PolicyDevice.PolicyUnit.SetPowerOnMode | components/pb_policy/pb_policy.c:477-540 | new state and answer for every refusal and for the acceptance; the granted id is the drawn one |
| PolicyDevice.PolicyUnit.SetButtonPowerOnMode | components/pb_policy/pb_policy.c:553-561 | only whole multiples of six hours up to 24 on an unbound device |
| PolicyDevice.PolicyUnit.SetAutoMode | components/pb_policy/pb_policy.c:563-600 | new state and answer of AUTO, heat withdrawn until it engages |
| PolicyDevice.PolicyUnit.StartDryingMode | components/pb_policy/pb_policy.c:602-641 | new state and answer of drying |
| PolicyDevice.PolicyUnit.SetFanLevel | components/pb_policy/pb_policy.c:670-694 | enabling is refused while heating or purging; the revision moves exactly when the level does |
| PolicyDevice.PolicyUnit.SetFilter | components/pb_policy/pb_policy.c:696-710 | filter settings accepted only in range |
| PolicyDevice.PolicyUnit.SetEnvironment | components/pb_policy/pb_policy.c:735-761 | printer reports sanitised and clamped, nothing else changes |
| PolicyDevice.PolicyUnit.SetHelperPresent | components/pb_policy/pb_policy.c:763-769 | only the helper flag changes |
| PolicyDevice.PolicyUnit.Heartbeat | components/pb_policy/pb_policy.c:771-790 | accepted exactly for the live, unexpired lease of POWER_ON, and then extends it |
| PolicyDevice.PolicyUnit.ClearFaultBegin | components/pb_policy/pb_policy.c:792-811 | refusals and the flash half of a clear |
| PolicyDevice.PolicyUnit.ClearFaultFinish | components/pb_policy/pb_policy.c:812-817 | RAM cleared, then OFF |
| PolicyDevice.PolicyUnit.RequestPanicOff | components/pb_policy/pb_policy.c:819-838 | latched, OFF, and the fault edge claimed so the tick does not re-attribute it |
| PolicyDevice.PolicyUnit.TapOn | components/pb_policy/pb_policy.c:900-914 | one more tap of the current chain, or the first of a new one, on an unbound device only |
| PolicyDevice.PolicyUnit.ToggleMode | components/pb_policy/pb_policy.c:862-891 | off if the mode is already on, else armed from the remembered parameters |
| PolicyDevice.PolicyUnit.OnLongPress | components/pb_policy/pb_policy.c:922-938 | the long-press transition |
| PolicyDevice.PolicyUnit.OnButton | components/pb_policy/pb_policy.c:893-986 | the whole handler, uninterrupted, is the press transition of the front-panel lemmas |
| PolicyDevice.PolicyUnit.ButtonCall | components/pb_policy/pb_policy.c:862-938 | the call a press ends in is the device's section for it, with the parameters read some sections earlier |
| PolicyDevice.PolicyUnit.ButtonSection | components/pb_policy/pb_policy.c:862-986 | each section of a press, started from any state the other tasks left, makes the interleaving's move: new state and where the press goes on |
| PolicyDevice.PolicyUnit.TakeClicks | components/pb_policy/pb_policy.c:1029-1036 | taps taken exactly when the window closed |
| PolicyDevice.PolicyUnit.DecideMode | components/pb_policy/pb_policy.c:1037-1100 | new state, asked target, autonomy and watchdog trip of every mode |
| PolicyDevice.PolicyUnit.ApplyGoal | components/pb_policy/pb_policy.c:1102-1126 | the decision reaches the heater, or the watchdog latches it off |
| PolicyDevice.PolicyUnit.TickHeater | components/pb_policy/pb_policy.c:1128-1138 | the heater tick with the right regulation sensor |
| PolicyDevice.PolicyUnit.PurgeDecision | components/pb_policy/pb_policy.c:988-1014 | the purge decision, both hysteresis points |
| PolicyDevice.PolicyUnit.DecidePurge | components/pb_policy/pb_policy.c:1140-1151 | the purge state advanced from this tick's sensors |
| PolicyDevice.PolicyUnit.SyncFaultLocked | components/pb_policy/pb_policy.c:1153-1165 | the edge of a fault turns the mode off once, keeping a watchdog's attribution |
| PolicyDevice.PolicyUnit.UpdateFiltering | components/pb_policy/pb_policy.c:1173-1184 | the filtration band with its hysteresis |
| PolicyDevice.PolicyUnit.DecideFan | components/pb_policy/pb_policy.c:1173-1195 | filtration, its revision advance and the commanded blower level |
| PolicyDevice.PolicyUnit.TickOnce | components/pb_policy/pb_policy.c:1016-1213 | the whole locked part of a tick, stage by stage, is the transition the run lemmas use |
| PolicyDevice.PolicyUnit.DelayedStart | components/pb_policy/pb_policy.c:1215-1232 | the start made in its own locked section, with a target read earlier that may be out of date |
| Arming.ArmingMachine.Reset | components/db_klipper_mqtt/include/db_klipper_mqtt_arm.h:113-116 | everything unknown and disengaged |
| Arming.ArmingMachine.Seq | components/db_klipper_mqtt/include/db_klipper_mqtt_arm.h:118-122 | the first seq since connect is the baseline, later ones only become the latest |
| Arming.ArmingMachine.SetTarget | components/db_klipper_mqtt/include/db_klipper_mqtt_arm.h:123-123 | only the target changes |
| Arming.ArmingMachine.SetMode | components/db_klipper_mqtt/include/db_klipper_mqtt_arm.h:124-127 | only the mode field changes |
| Arming.ArmingMachine.SetArmed | components/db_klipper_mqtt/include/db_klipper_mqtt_arm.h:128-128 | only the armed field changes |
| Arming.ArmingMachine.SetFan | components/db_klipper_mqtt/include/db_klipper_mqtt_arm.h:129-132 | only the clamped fan field changes |
| Arming.ArmingMachine.Purge | components/db_klipper_mqtt/include/db_klipper_mqtt_arm.h:135-140 | fires exactly on a change of a known nonce |
| Arming.ArmingMachine.Beat | components/db_klipper_mqtt/include/db_klipper_mqtt_arm.h:141-145 | only a change of a known heartbeat is live, dated now |
| Arming.ArmingMachine.Evaluate | components/db_klipper_mqtt/include/db_klipper_mqtt_arm.h:156-180 | action and new state of the machine; its last branch is dead |
| Arming.MachineReadsStream | components/db_klipper_mqtt/include/db_klipper_mqtt_arm.h:113-145 | the machine's memory is what the message stream says |
| Arming.MachineIsReading | components/db_klipper_mqtt/include/db_klipper_mqtt_arm.h:108-184 | the whole machine told from the stream alone: its fields are the last ones given, it is engaged exactly when the stream says it drives, and live by the latest heartbeat change |
| Arming.EvaluationAnswers | components/db_klipper_mqtt/include/db_klipper_mqtt_arm.h:148-184 | each answer to any stream, both ways: link lost, disengaged as soon as armed or mode no longer ask for heat, engaged on an unacted seq; and it drives on only while heat is asked for over a live link |
| Arming.PurgeFiresOnChange | components/db_klipper_mqtt/include/db_klipper_mqtt_arm.h:133-140 | a purge fires exactly when a nonce differs from the one before it |
| Arming.EngagesUseSeqChanges | components/db_klipper_mqtt/include/db_klipper_mqtt_arm.h:169-178 | every engage uses up a seq change of its own |
| Arming.EngagesAtMostSeqChanges | components/db_klipper_mqtt/include/db_klipper_mqtt_arm.h:169-178 | over every stream there are at most as many engages as seq changes, so none from retained state |
| Arming.LiveNeedsChange | components/db_klipper_mqtt/include/db_klipper_mqtt_arm.h:141-152 | liveness rests on the latest heartbeat change of the stream |
| Arming.EngageNeedsFreshSeqAndBeat | components/db_klipper_mqtt/include/db_klipper_mqtt_arm.h:156-180 | every engage acts on a seq other than the last acted on, within the timeout of an earlier heartbeat change |
| Arming.RearmNeedsNewBeat | components/db_klipper_mqtt/include/db_klipper_mqtt_arm.h:164-176 | an engage after a comms loss needs a heartbeat change received after the loss |
| Arming.RecoveryAloneRearms | components/db_klipper_mqtt/include/db_klipper_mqtt_arm.h:164-176 | a fresh heartbeat alone re-arms exactly when a seq was pending at the loss and heat is still asked for |
| Arming.RearmNeedsSeqMessage | components/db_klipper_mqtt/include/db_klipper_mqtt_arm.h:164-176 | with none pending, only a seq message after the loss can engage again |
| KlipperMqtt.BootKeepsInv | components/db_klipper_mqtt/db_klipper_mqtt.c:55-68 | every boot starts the interleaving inside its invariant |
| KlipperMqtt.ActKeepsInv | components/db_klipper_mqtt/db_klipper_mqtt.c:127-426 | the invariant of every interleaving of callbacks, tick phases and the rest of the device |
| KlipperMqtt.AtMostOneStartInFlight | components/db_klipper_mqtt/db_klipper_mqtt.c:160-226 | in every interleaving a disarm leaves at most one already decided start |
| KlipperMqtt.NoHeartbeatAfterDisarm | components/db_klipper_mqtt/db_klipper_mqtt.c:400-415 | after a disarm no heartbeat of the client is accepted, not even for the lease that start takes |
| KlipperMqtt.LeaseUntouched | components/db_klipper_mqtt/db_klipper_mqtt.c:127-146 | nobody prolongs, replaces or resumes the run that start began |
| KlipperMqtt.HeatEndsAfterDisarm | components/db_klipper_mqtt/db_klipper_mqtt.c:160-166 | with no new engagement and no other controller, the first tick at or after that lease's deadline leaves OFF, zero target and SSR off |
| KlipperMqtt.MachineIsWhatItWasTold | components/db_klipper_mqtt/db_klipper_mqtt.c:186-320 | in every interleaving the arming machine is the one of the messages since the connection |
| KlipperMqtt.DecisionIsTold | components/db_klipper_mqtt/db_klipper_mqtt.c:375-410 | every decision of the tick is read off the messages and the two gates, and a lease is heartbeaten every 5 s while the machine drives |
| KlipperMqtt.DecisionIsCarried | components/db_klipper_mqtt/db_klipper_mqtt.c:120-160 | what carrying it out leaves: a stop leads to OFF, a start to POWER_ON at the target told, cut to 20 to 70 C, exactly if that is at least 30 C and nothing is faulted |
| KlipperMqtt.MacroOffStopsHeat | components/db_klipper_mqtt/db_klipper_mqtt.c:375-430 | once a driving machine is told "not armed" or "not heat", the next evaluation decides to stop, and when that is carried out the policy is OFF, whatever happened in between |
| KlipperMqtt.DisarmIsCarriedOut | components/db_klipper_mqtt/db_klipper_mqtt.c:148-225 | before the next message is handled, master power off, a lost server or a lost broker is carried out in full and in order: machine, policy, lease |
| KlipperMqtt.TickRecords | components/db_klipper_mqtt/db_klipper_mqtt.c:125-158 | what the tick records of its call, and what a new connection and a boot start from |
| KlipperClient.MqttClient.HandleField | components/db_klipper_mqtt/db_klipper_mqtt.c:170-189 | one field message, fan and purge included, moves the arming machine as the stream lemmas say, and nothing else |
| KlipperClient.MqttClient.HandlePower | components/db_klipper_mqtt/db_klipper_mqtt.c:214-223 | master power set; off starts a forced disarm |
| KlipperClient.MqttClient.HandleServer | components/db_klipper_mqtt/db_klipper_mqtt.c:201-209 | server availability set; offline starts a forced disarm |
| KlipperClient.MqttClient.OnConnected | components/db_klipper_mqtt/db_klipper_mqtt.c:300-308 | a connection starts disarmed |
| KlipperClient.MqttClient.OnDisconnected | components/db_klipper_mqtt/db_klipper_mqtt.c:314-320 | a broker loss starts a forced disarm |
| KlipperClient.MqttClient.DisarmMachine | components/db_klipper_mqtt/db_klipper_mqtt.c:160-164 | the machine is disengaged first |
| KlipperClient.MqttClient.ForcePolicyOff | components/db_klipper_mqtt/db_klipper_mqtt.c:148-150 | then the policy goes off, as the interleaving's act says |
| KlipperClient.MqttClient.DropLease | components/db_klipper_mqtt/db_klipper_mqtt.c:151-155 | the lease is forgotten last |
| KlipperClient.MqttClient.EnterTick | components/db_klipper_mqtt/db_klipper_mqtt.c:375-383 | a tick goes on only if it saw the connection up |
| KlipperClient.MqttClient.EvaluateLocked | components/db_klipper_mqtt/db_klipper_mqtt.c:387-403 | the locked decision with the master gate and the heartbeat pacing |
| KlipperClient.MqttClient.StartHeat | components/db_klipper_mqtt/db_klipper_mqtt.c:127-133 | the policy call of an engage, on the real policy class |
| KlipperClient.MqttClient.StopHeat | components/db_klipper_mqtt/db_klipper_mqtt.c:148-150 | the policy call of a disengage |
| KlipperClient.MqttClient.SendBeat | components/db_klipper_mqtt/db_klipper_mqtt.c:409-410 | the heartbeat of a hold, and whether the policy refused it |
| KlipperClient.MqttClient.Keep | components/db_klipper_mqtt/db_klipper_mqtt.c:409-415 | a hold sends its heartbeat if one is due and does nothing else |
| KlipperClient.MqttClient.Record | components/db_klipper_mqtt/db_klipper_mqtt.c:134-141 | what is stored afterwards, in a second locked section |
| Replay.ReplayCache.Find | components/pb_httpd/pb_httpd.c:387-397 | the first slot that answers, none for an empty slot |
| Replay.ReplayCache.Store | components/pb_httpd/pb_httpd.c:399-410 | one slot overwritten in place, the index wrapping |
| Replay.CacheIsLastTwo | components/pb_httpd/pb_httpd.c:384-410 | after any number of stores the cache is the last two, and a lookup hits exactly when one of them answers |
| Replay.BootKeepsInv | components/pb_httpd/pb_httpd.c:384-385 | every boot starts the interleaving inside its invariant, with a cold cache |
| Replay.ActKeepsInv | components/pb_httpd/pb_httpd.c:463-584 | the invariant of every interleaving of the handler with the device: entries dated, keys distinct, a reply about to be stored ahead of both |
| Replay.RetransmissionChangesNothing | components/pb_httpd/pb_httpd.c:537-575 | once a heat or clear command was accepted, from HTTP or elsewhere, no later command naming that revision changes anything for the rest of the cycle, evicted from the cache or not |
| Replay.ReplayMeansUnchanged | components/pb_httpd/pb_httpd.c:517-530 | within a cycle the stored reply is repeated exactly when nothing moved the revision since it was built |
| Replay.RepeatGetsOriginalReply | components/pb_httpd/pb_httpd.c:412-437 | a repeat while its resulting revision is current always gets the original reply, although there are only two entries |
| Replay.EntryWasAccepted | components/pb_httpd/pb_httpd.c:576-583 | only requests the policy accepted since boot are ever remembered |
| Replay.StopOrders | components/pb_httpd/pb_httpd.c:541-573 | "off" always runs; "drying_stop" runs exactly when it names a well-formed revision |
| Replay.LastRevisionRefusesHeat | components/pb_httpd/pb_httpd.c:532-538 | at revision 2^32 - 1 every heat and clear request is refused |
| Replay.OrderIsCarriedOut | components/pb_httpd/pb_httpd.c:535-584 | order by order, what the command endpoint leaves of the device exactly; every malformed number, wrong revision, fault or unknown order changes nothing |
| Replay.RequestIsReceived | components/pb_httpd/pb_httpd.c:480-535 | which requests are taken up, and that exactly a cacheable one with an entry of its own is answered from the cache |
| Replay.PercentRounds | components/pb_httpd/pb_httpd.c:547-551 | a percentage is cut to 0 to 100 and rounded to the nearest whole one |
| ParamStore.BatchRefinesWriteAll | components/pb_policy/pb_policy.c:307-346 | a batch of the keys that differ from the cached copy loads back like writing every key exactly when flash reads like the cached copy at each key it skips |
| ParamStore.ReloadGivesLastCommitted | components/pb_policy/pb_policy.c:251-433 | over any commands, drains, write failures and boots, each with its own ceiling and unreadable keys, reloading gives the last committed parameters to the nearest hundredth exactly when every key's cached copy can be trusted; a clean idle store has committed the latest |
| ParamStore.UnraisedCeilingIsTrusted | components/pb_policy/pb_policy.c:251-283 | with every key readable at boot and the ceiling not raised since, every key can be trusted |
| ParamStore.RaisedCeilingLosesParams | components/pb_heater/pb_heater.c:270-287 | a run in which an accepted value is lost after the ceiling was raised, although the store reports clean |
| ParamStore.UnreadableKeyLosesParams | components/pb_policy/pb_policy.c:251-283 | a run in which an accepted value is lost because its key could not be read at boot |
| ParamStore.NextDrainCommitsLatest | components/pb_policy/pb_policy.c:348-372 | a failed batch leaves flash alone and stays dirty; the next good drain commits the latest accepted values, which load back exactly when every key it skips can be trusted |
| ParamStore.StepKeepsParamsInRange | components/pb_policy/pb_policy.c:477-641 | every step of the device, ceiling changes and boots that load in-range parameters included, keeps the parameters inside any bound the ceiling respected, and marks a change dirty |
| ParamStore.RunKeepsParamsInRange | components/pb_policy/pb_policy.c:383-433 | in every run whose boots load in-range parameters they stay within the absolute bounds, whatever happens to the ceiling |
| ParamStore.HundredthsAreNear | components/pb_policy/pb_policy.c:245-246 | stored hundredths are within half a hundredth |
| ParamStore.LoadIsWhole | components/pb_policy/pb_policy.c:251-283 | whatever flash holds, a boot loads in-range whole hundredths |
| ParamStore.Writer.NeedsWrite | components/pb_policy/pb_policy.c:326-329 | a batch is needed exactly when some key differs |
| ParamStore.Writer.BufferSets | components/pb_policy/pb_policy.c:334-338 | the buffer holds exactly the differing keys, and one failed set fails the batch |
| ParamStore.Writer.PersistParams | components/pb_policy/pb_policy.c:307-346 | flash and the cached copy change together on success and not at all otherwise |
| Ntc.ConvertKohm | components/pb_ntc/pb_ntc.c:266-279 | the table search always ends in a reading, never in the NaN return |
| Ntc.ReadingInRange | components/pb_ntc/pb_ntc.c:266-279 | readings are 12 to 125 C |
| Ntc.ReadingFalls | components/pb_ntc/pb_ntc.c:266-279 | readings fall as the resistance rises, across all segments, and are unique |
| Ntc.ExactAtTable | components/pb_ntc/pb_ntc.c:231-248 | at every table entry the reading is that entry's temperature |
| Ntc.DividerGrows | components/pb_ntc/pb_ntc.c:356-356 | the divider's resistance grows with voltage and with the reference |
| Ntc.DividerBalances | components/pb_ntc/pb_ntc.c:356-356 | the resistance balances the divider at 3.3 V |
| Ntc.HotterMeansLowerVoltage | components/pb_ntc/pb_ntc.c:347-361 | a higher pin voltage never reads hotter |
| Ntc.FloatingStrapReadsWarm | components/pb_board/pb_board.c:30-35 | the reference assumed for a floating strap never reads colder, at any voltage |
| Ntc.ReadSample | components/pb_ntc/pb_ntc.c:333-366 | for either channel, with the inputs swapped or not: the status in ADC codes and millivolts (failed read, short up to 20, open above 4093 or outside 0 to 3.3 V, ok), and an ok sample is the table reading of that input plus the clamped offset of the channel asked for, 7 to 130 C |
| Ntc.CalibrationCannotHideHeat | components/pb_ntc/include/pb_ntc.h:104-109 | whatever offset is stored, whatever the other sensor reads, armed or not, link fresh or lost: an uncalibrated element trips as too hot exactly from 110 C, and an uncalibrated chamber leads to an over-temperature trip exactly from 90 C |
| Buttons.StepSlot | components/pb_buttons/pb_buttons_sm.c:26-59 | one sample steps one slot of the array in place and leaves the others |
| Buttons.MachineReadsStream | components/pb_buttons/pb_buttons_sm.c:10-59 | after any stream every field and every event is what the stream itself says |
| Buttons.DebounceIsLatestRun | components/pb_buttons/pb_buttons_sm.c:30-38 | the pressed state is the level of the latest run of three equal samples, else the seed's |
| Buttons.OneEventPerHold | components/pb_buttons/pb_buttons_sm.c:40-58 | a hold produces exactly one event: LONG at its 200th settled tick, otherwise SHORT at the accepted release |
| Buttons.SeedHoldIsSilent | components/pb_buttons/pb_buttons_sm.c:10-24 | a hold present at the seed produces nothing |
| Buttons.Panel.StepAll | components/pb_buttons/pb_buttons.c:79-81 | every button is stepped once in place and its event kept |
| Buttons.Panel.Poll | components/pb_buttons/pb_buttons.c:76-105 | one poll on the real array is the panel step the stream lemmas fold: buttons, combo counter and deliveries |
| Buttons.PanelReadsColumns | components/pb_buttons/pb_buttons.c:79-81 | after any polls every button is the debounce machine of its own samples |
| Buttons.ComboIsJointRun | components/pb_buttons/pb_buttons.c:88-98 | the combo counter is the length of the current run of polls with both held, the seed not counted |
| Buttons.ResetOnFiveHundredth | components/pb_buttons/pb_buttons.c:88-98 | over every stream of polls, RESET is delivered exactly by the 500th consecutive poll after which the debounced Power and Auto are both held |
| Buttons.DeliveriesAreDeserved | components/pb_buttons/pb_buttons.c:100-105 | a press is delivered exactly when its button's own sample stream deserves it and it is not muted by a joint hold |
| Buttons.JointHoldMutesBoth | components/pb_buttons/pb_buttons.c:100-105 | during a joint hold nothing of Power and Auto is delivered, everything else is |
| Schedule.ControlTask | main/app_main.c:429-452 | on wrapping 32-bit ticks the loop waits and moves its deadline like the same loop on unbounded integers, while fewer than 2^31 ticks pass between timeouts |
| Schedule.Iterate | main/app_main.c:442-451 | one iteration with its three counter reads and two signed casts |
| Schedule.SignedDelta | main/app_main.c:438-443 | a signed 32-bit difference is the true one while that fits |
| Schedule.StallPastHalfLooksAhead | main/app_main.c:438-449 | past 2^31 an overdue deadline looks ahead instead, so the limit is sharp |
| Schedule.DeadlineIsNear | main/app_main.c:445-451 | after each timeout the deadline is ahead by at most one period |
| Schedule.WaitsAtMostOnePeriod | main/app_main.c:442-444 | no wait is longer than one period |
| Schedule.NotificationsKeepSchedule | main/app_main.c:429-436 | notifications never move a deadline |
| Schedule.DeadlinesStayOnGrid | main/app_main.c:445-446 | without overruns the deadlines stay on the grid set at the start |
| StartGcode.Find | tools/start-gcode-helper/processor.js:34-41 | first line of a kind from an index on |
| StartGcode.CommentWaits | tools/start-gcode-helper/processor.js:56-62 | exactly the old waits of the window are commented out, and their number counted |
| StartGcode.Insert | tools/start-gcode-helper/processor.js:50-64 | the shifting indices of the edit land where the plan says, and the old waits in the window are counted |
| StartGcode.ProcessGcode | tools/start-gcode-helper/processor.js:34-64 | on the lines: every refusal in the source's order, otherwise the planned edit and the number of waits commented out |
| StartGcode.OneKind | tools/start-gcode-helper/processor.js:8-14 | no line is two commands at once |
| StartGcode.CommentOutUndone | tools/start-gcode-helper/processor.js:59-59 | a commented-out line is no command, and un-commenting gives it back |
| StartGcode.InsertedKinds | tools/start-gcode-helper/processor.js:64-64 | for every accepted target the inserted lines are the commands they should be and no others |
| StartGcode.RewriteIsUndone | tools/start-gcode-helper/processor.js:24-72 | deleting the four lines and un-commenting the marked waits gives back the original lines |
| StartGcode.TargetFollowsBed | tools/start-gcode-helper/processor.js:50-51 | M141 directly follows the first M140 of the output |
| StartGcode.WaitInsideWindow | tools/start-gcode-helper/processor.js:52-64 | M191 lies after the bed wait and before the next G28 or mesh line |
| StartGcode.TwiceIsRefused | tools/start-gcode-helper/processor.js:43-48 | feeding any output back in is refused, whatever the target and also when M190 precedes M140 |
| GcodeWords.KindIsWords | tools/start-gcode-helper/processor.js:8-14 | a line is of a kind exactly when its words before the comment, in upper case and without a line number, spell that kind |
| GcodeWords.SafeTargetsAre | tools/start-gcode-helper/processor.js:16-22 | the accepted targets are exactly the slicer variables and the numbers from 0 to 120 with at most three digits before the point |
| GcodeEdit.RefusalsAre | tools/start-gcode-helper/processor.js:24-41 | the first four refusals exactly, in the file's own lines |
| GcodeEdit.RewrittenExactly | tools/start-gcode-helper/processor.js:43-48 | a file with a bed target and a bed wait is rewritten exactly if it holds no chamber commands yet |
| GcodeEdit.RewriteIs | tools/start-gcode-helper/processor.js:50-64 | the output line by line: M141 behind the bed target, the block behind the safe Z move or the bed wait, old waits of the window commented, every other line as it was and in order |
| GcodeEdit.CountIs | tools/start-gcode-helper/processor.js:55-62 | the count reported is the number of old waits in the window |
| GcodeText.ProcessText | tools/start-gcode-helper/processor.js:24-72 | on the text: blank input, trimmed target, splitting, the rewrite and joining in the line ends of the input |
| GcodeText.BlankText | tools/start-gcode-helper/processor.js:25-25 | a text is blank exactly when all its lines are |
| GcodeText.TextComesBack | tools/start-gcode-helper/processor.js:29-32 | splitting and joining gives a text back exactly when it uses one kind of line end |
| GcodeText.RewrittenTextIsUndone | tools/start-gcode-helper/processor.js:24-72 | the undo of the rewrite gives back the input text exactly when that uses one kind of line end |
| GcodeText.OutputReadsBack | tools/start-gcode-helper/processor.js:65-66 | splitting an output text gives the edited lines, but for carriage returns at line ends |
| GcodeText.TwiceTextIsRefused | tools/start-gcode-helper/processor.js:43-48 | feeding any output text back in is refused, whatever the line ends and the target |

## Left out

- Interleaving inside one locked section: a policy section is one step. Settings, an inhibit and the two halves of a
  clear are separate steps, but a setting that lands in the middle of a tick is modelled as landing before or after it.
- A heater tick reads the clock once, a policy tick once more at its entry; the firmware's further reads inside one tick
  are the same value here.
- FrontPanel.PressKeepsInv: takes a press without interruption; `FrontPanel.InterruptedPressesKeepInv` takes it with.
- PolicyDevice.PolicyUnit.OnButton: runs its sections without interruption; `ButtonSection` runs one at a time.
- PolicyDevice.PolicyUnit.IssueLease: the id is a fresh number handed in instead of 128 random bits drawn here, and the
  owner's name, which nothing but the status display reads, is not kept.
- PolicyDevice.PolicyUnit.SetEnvironment: the measured bed temperature, which only the status display reads, is dropped.
- Replay.RetransmissionChangesNothing: holds within one boot and one cycle of the revision; `Revision.RebootRepeatsCommand`
  shows it fails across a boot.
- Schedule.ControlTask: the period is the 50 ticks of a 100 Hz counter.
- `dc_pid_step` is not part of this model: its result is arbitrary, so the approach cap, which only shapes that result,
  is left out too. The SSR results hold for any result.
- Floating-point rounding: temperatures and duties are reals; not-finite inputs are kept apart where the code tests them.
- Flash is three records (fault keys, settings keys, parameter keys) whose writes may fail; sets are buffered until the
  commit. NVS recovery and factory erase are not modelled. The settings a boot of a device run reads are arbitrary, which
  includes whatever was written through.
- The five-sample mean is an arbitrary smoothed value.
- The command handler's reply text is a number; HTTP parsing, authentication, and a failure to build the reply beyond
  "not remembered" are not modelled.
- MQTT payload parsing: a field message arrives as its parsed value. Telemetry and publishing are left out.
- Seq, heartbeat, hold and combo counters are unbounded integers; the firmware's `int` hold counters overflow after
  about 248 days.
- The start G-code rewriter's upper-casing is ASCII only, and the wording of its messages is left out.
- Start-up wiring, LEDs, logs, event log, Wi-Fi, OTA, the portal, Bambu and Moonraker clients and the hardware-in-the-loop
  console: plumbing without a hard property.
