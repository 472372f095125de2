/** pb_policy.c as transitions on values. Each function is the body of one s_lock section. */
module PolicySpec {
  import opened Values
  import opened SafetyRules
  import opened HeaterSpec

  datatype Mode = Off | PowerOn | Auto | Drying

  datatype Source = Boot | Web | Klipper | Button | Safety | Watchdog

  datatype ControlSource = Moonraker | Bambu | HomeAssistant | Unbound | KlipperMqtt | Prusa

  datatype Result = Accepted | InvalidCommand | RevisionConflict | FaultLatched | Inhibited | StaleLease
                  | PersistFailed | Busy

  const REVISION_ANY := 0xFFFF_FFFF
  const MIN_MODE_TARGET_C := 30.0
  const HOUR_US := 3_600_000_000
  const LOCAL_MAX_MS := 24 * 3_600_000
  const LOCAL_DEFAULT_MS := 12 * 3_600_000
  const CLICK_US := 700_000
  const DRYING_MAX_HOURS := 12
  const PURGE_BAND_C := 3.0
  const FILTER_BAND_C := 3.0
  const BED_MIN_C := 40.0
  const BED_MAX_C := 120.0
  const FILTER_MIN_C := 20.0
  const FILTER_MAX_C := 60.0
  const APPLY_STEP_C := 0.05

  /** The remembered mode parameters. */
  datatype Params = Params(manual: real, autoTarget: real, autoBed: real, dryTarget: real, dryHours: nat,
                           filterTemp: real, filterEnable: bool)

  const DEFAULT_PARAMS := Params(50.0, 60.0, 100.0, 60.0, 12, 30.0, false)

  /** Lease ids are drawn so that none is ever drawn twice; here they are numbers. */
  datatype Lease = Lease(id: nat, deadline: int)

  /** The mode in force and what bounds it. The last three fields are history that no decision reads:
      leases ever issued, and the times of the last accepted mode command and of the last lease
      issue or heartbeat. */
  datatype Session = Session(
    mode: Mode,
    resume: Mode,
    requested: real,
    bedThreshold: real,
    autoEngaged: bool,
    dryingDeadline: int,
    localDeadline: int,
    lease: Option<Lease>,
    issued: nat,
    acceptedAt: int,
    refreshedAt: int)

  /** The revision, its last author, and (history) how often it advanced since boot. */
  datatype Stamp = Stamp(revision: int, source: Source, epoch: nat)

  /** What the printer last reported. */
  datatype Printer = Printer(connected: bool, helper: bool, bedTarget: real, zone: real, chamber: Float)

  datatype Clicks = Clicks(count: nat, deadline: int)

  datatype Air = Air(requested: nat, level: nat, filtering: bool, heated: bool, cooldown: bool)

  datatype Policy = Policy(
    session: Session,
    stamp: Stamp,
    printer: Printer,
    clicks: Clicks,
    air: Air,
    lastFaulted: bool,
    params: Params,
    dirty: bool,
    controlSource: ControlSource)

  /** Policy and heater together, as one locked section sees them. */
  datatype Core = Core(p: Policy, h: Heater)

  predicate Remote(src: Source) {
    src == Web || src == Klipper
  }

  // --- Helpers of the source ----------------------------------------------------------------

  /** 32-bit successor that skips zero. */
  function NextRevision(r: int): int {
    if r == REVISION_ANY then 1 else r + 1
  }

  /** The revision after so many advances since boot. */
  function RevisionAt(advances: nat): int {
    if advances == 0 then 1 else NextRevision(RevisionAt(advances - 1))
  }

  function Advance(s: Stamp, src: Source): Stamp {
    Stamp(NextRevision(s.revision), src, s.epoch + 1)
  }

  const NO_CLICKS := Clicks(0, 0)

  function LeaseTtl(h: Heater): int {
    h.settings.commsMs * 1000
  }

  predicate RevisionMatches(p: Policy, expected: int) {
    expected == REVISION_ANY || expected == p.stamp.revision
  }

  function Precheck(c: Core, target: Float, expected: int): Result {
    if !RevisionMatches(c.p, expected) then RevisionConflict
    else if target.NonFinite? || target.c < MIN_MODE_TARGET_C then InvalidCommand
    else if c.h.latch.inhibited then Inhibited
    else if c.h.latch.Faulted() then FaultLatched
    else Accepted
  }

  /** Mode, deadlines and lease dropped; the part shared by every change of mode. */
  function Dropped(s: Session): Session {
    s.(mode := Off, requested := 0.0, autoEngaged := false, dryingDeadline := 0, localDeadline := 0,
       resume := Off, lease := None)
  }

  function TargetOff(h: Heater): Heater {
    SetTarget(h, Finite(0.0)).0
  }

  function SetOff(c: Core, src: Source): Core {
    Core(c.p.(session := Dropped(c.p.session), clicks := NO_CLICKS, stamp := Advance(c.p.stamp, src)),
         TargetOff(c.h))
  }

  function RestoreOrOff(c: Core, src: Source): Core {
    if c.p.session.resume != Auto then SetOff(c, src)
    else
      var s := Dropped(c.p.session).(mode := Auto, requested := c.p.params.autoTarget,
                                     bedThreshold := c.p.params.autoBed);
      Core(c.p.(session := s, air := c.p.air.(filtering := false), stamp := Advance(c.p.stamp, src)),
           TargetOff(c.h))
  }

  // --- Mode commands ---------------------------------------------------------------------------

  /** The session an accepted POWER_ON command starts. */
  function PowerOnSession(s: Session, now: int, requested: real, remote: bool, ttl: int, durationMs: nat): Session {
    var resume := if s.mode == PowerOn then s.resume else if s.mode == Auto then Auto else Off;
    var n := Dropped(s).(mode := PowerOn, resume := resume, requested := requested, acceptedAt := now);
    if remote then n.(lease := Some(Lease(s.issued + 1, now + ttl)), issued := s.issued + 1, refreshedAt := now)
    else n.(localDeadline := now + durationMs * 1000)
  }

  function EnterPowerOn(c: Core, now: int, target: real, src: Source, durationMs: nat): Core {
    var h := SetTarget(c.h, Finite(target)).0;
    Core(c.p.(session := PowerOnSession(c.p.session, now, h.target, Remote(src), LeaseTtl(h), durationMs),
              clicks := NO_CLICKS, stamp := Advance(c.p.stamp, src),
              params := c.p.params.(manual := h.target), dirty := true),
         if Remote(src) then NotifyLink(h, now) else h)
  }

  function SetPowerOn(c: Core, now: int, target: Float, src: Source, expected: int,
                      durationMs: nat, requireUnbound: bool): (Core, Result)
  {
    if !Remote(src) && (durationMs == 0 || durationMs > LOCAL_MAX_MS) then (c, InvalidCommand)
    else if requireUnbound && c.p.controlSource != Unbound then (c, Busy)
    else
      var r := Precheck(c, target, expected);
      if r != Accepted then (c, r)
      else (EnterPowerOn(c, now, target.c, src, durationMs), Accepted)
  }

  function SetButtonPowerOn(c: Core, now: int, target: Float, hours: nat, expected: int): (Core, Result) {
    if hours < 6 || hours > 24 || hours % 6 != 0 then (c, InvalidCommand)
    else SetPowerOn(c, now, target, Button, expected, hours * 3_600_000, true)
  }

  function EnterAuto(c: Core, now: int, target: real, bed: real, src: Source): Core {
    var t := Min(target, c.h.settings.maxTarget);
    var s := Dropped(c.p.session).(mode := Auto, requested := t, bedThreshold := bed, acceptedAt := now);
    Core(c.p.(session := s, clicks := NO_CLICKS, stamp := Advance(c.p.stamp, src),
              air := c.p.air.(filtering := false),
              params := c.p.params.(autoTarget := t, autoBed := bed), dirty := true),
         TargetOff(c.h))
  }

  function SetAuto(c: Core, now: int, target: Float, bed: Float, src: Source, expected: int): (Core, Result) {
    if bed.NonFinite? || bed.c < BED_MIN_C || bed.c > BED_MAX_C then (c, InvalidCommand)
    else
      var r := Precheck(c, target, expected);
      if r != Accepted then (c, r) else (EnterAuto(c, now, target.c, bed.c, src), Accepted)
  }

  function EnterDrying(c: Core, now: int, target: real, hours: nat, src: Source): Core {
    var h := SetTarget(c.h, Finite(target)).0;
    var s := Dropped(c.p.session).(mode := Drying, requested := h.target, acceptedAt := now,
                                   dryingDeadline := now + hours * HOUR_US);
    Core(c.p.(session := s, clicks := NO_CLICKS, stamp := Advance(c.p.stamp, src),
              params := c.p.params.(dryTarget := h.target, dryHours := hours), dirty := true), h)
  }

  function StartDrying(c: Core, now: int, target: Float, hours: nat, src: Source, expected: int): (Core, Result) {
    if hours == 0 || hours > DRYING_MAX_HOURS then (c, InvalidCommand)
    else
      var r := Precheck(c, target, expected);
      if r != Accepted then (c, r) else (EnterDrying(c, now, target.c, hours, src), Accepted)
  }

  function SetFan(c: Core, percent: nat, src: Source): (Core, Result) {
    var pc := if percent > 100 then 100 else percent;
    if pc > 0 && (c.h.HeatMode() || c.p.air.cooldown) then (c, Busy)
    else if c.p.air.requested == pc then (c, Accepted)
    else (c.(p := c.p.(air := c.p.air.(requested := pc), stamp := Advance(c.p.stamp, src))), Accepted)
  }

  function SetFilterConfig(c: Core, temp: Float, enable: bool): (Core, Result) {
    if temp.NonFinite? || temp.c < FILTER_MIN_C || temp.c > FILTER_MAX_C then (c, InvalidCommand)
    else (c.(p := c.p.(params := c.p.params.(filterTemp := temp.c, filterEnable := enable), dirty := true)),
          Accepted)
  }

  // --- Observations ------------------------------------------------------------------------------

  function Zone(z: Float): real {
    if z.NonFinite? || z.c < 0.0 then 0.0 else Min(z.c, ABS_MAX_TARGET_C)
  }

  function SetEnv(c: Core, bedTarget: Float, connected: bool, zone: Float, chamber: Float): Core {
    c.(p := c.p.(printer := Printer(connected, c.p.printer.helper,
                                    if bedTarget.Finite? then bedTarget.c else 0.0, Zone(zone), chamber)))
  }

  function SetHelper(c: Core, present: bool): Core {
    c.(p := c.p.(printer := c.p.printer.(helper := present)))
  }

  function Heartbeat(c: Core, now: int, id: nat): (Core, Result) {
    var s := c.p.session;
    if s.lease.None? || s.lease.value.id != id || s.mode != PowerOn || now >= s.lease.value.deadline
    then (c, StaleLease)
    else (Core(c.p.(session := s.(lease := Some(Lease(id, now + LeaseTtl(c.h))), refreshedAt := now)),
               NotifyLink(c.h, now)), Accepted)
  }

  // --- Faults --------------------------------------------------------------------------------

  /** Up to and including the flash half of a clear. */
  function ClearBegin(c: Core, expected: int, storeOk: bool): (Core, Result) {
    if !RevisionMatches(c.p, expected) then (c, RevisionConflict)
    else if c.h.latch.inhibited then (c, Inhibited)
    else
      var (h, st) := ClearStore(c.h, storeOk);
      (c.(h := h), if st == Ok then Accepted else PersistFailed)
  }

  /** The rest of a clear whose flash half succeeded. */
  function ClearFinish(c: Core, src: Source): Core {
    SetOff(Core(c.p.(lastFaulted := false), ClearRam(c.h)), src)
  }

  function PanicOffNow(c: Core, src: Source): Core {
    Core(c.p.(session := Dropped(c.p.session), stamp := Advance(c.p.stamp, src), lastFaulted := true),
         RequestPanicOff(c.h))
  }

  // --- On-button selection -------------------------------------------------------------------

  function TapClicks(k: Clicks, now: int): Clicks {
    var n := if k.count == 0 || now >= k.deadline then 0 else k.count;
    Clicks(if n < 4 then n + 1 else n, now + CLICK_US)
  }

  function Tap(c: Core, now: int): Core {
    if c.p.controlSource != Unbound then c else c.(p := c.p.(clicks := TapClicks(c.p.clicks, now)))
  }

  function CancelClicks(c: Core): Core {
    c.(p := c.p.(clicks := NO_CLICKS))
  }

  // --- Residual-heat purge ----------------------------------------------------------------------

  predicate Below(r: Reading, limit: real) {
    r.Valid? && r.c < limit
  }

  /** New (heatedThisSession, cooldown). */
  function PurgeDecide(heat: bool, heated: bool, chamber: Reading, ptc: Reading, cooldown: bool,
                       release: real): (bool, bool)
  {
    if heat then (true, false)
    else if !heated then (false, false)
    else
      var limit := if cooldown then release else release + PURGE_BAND_C;
      var cool := Below(chamber, limit) && Below(ptc, limit);
      (!cool, !cool)
  }

  // --- The tick ---------------------------------------------------------------------------------

  /** Everything outside that one tick meets. `entry` is read before the lock is taken. */
  datatype TickInput = TickInput(entry: int, watchdogOk: bool, heater: Surroundings,
                                 smoothChamber: real, smoothPtc: real)

  /** What the mode decided: the new state, the target it asks for, and how. */
  datatype Demand = Demand(c: Core, target: real, autonomous: bool, trip: bool)

  function ConsumeClicks(c: Core, entry: int): (Core, nat) {
    if c.p.clicks.count != 0 && entry >= c.p.clicks.deadline
    then (CancelClicks(c), if c.p.controlSource == Unbound then c.p.clicks.count else 0)
    else (c, 0)
  }

  function ModeStep(c: Core, entry: int): Demand {
    var s := c.p.session;
    match s.mode
    case PowerOn =>
      if s.lease.Some? && entry >= s.lease.value.deadline then Demand(c, 0.0, false, true)
      else if s.lease.None? && s.localDeadline > 0 && entry >= s.localDeadline
      then Demand(RestoreOrOff(c, Watchdog), 0.0, false, false)
      else Demand(c, s.requested, s.lease.None?, false)
    case Auto =>
      var engaged := !c.p.printer.helper && c.p.printer.connected && c.p.printer.zone > 0.0;
      var p := if engaged == s.autoEngaged then c.p
               else c.p.(session := s.(autoEngaged := engaged), stamp := Advance(c.p.stamp, c.p.stamp.source));
      Demand(c.(p := p), if engaged then c.p.printer.zone else 0.0, engaged, false)
    case Drying =>
      if entry >= s.dryingDeadline then Demand(SetOff(c, Watchdog), 0.0, false, false)
      else Demand(c, s.requested, true, false)
    case Off => Demand(c, 0.0, false, false)
  }

  function Abs(x: real): real {
    if x < 0.0 then -x else x
  }

  function ApplyDemand(d: Demand, t: TickInput): Core {
    if d.trip then
      Core(d.c.p.(session := Dropped(d.c.p.session), stamp := Advance(d.c.p.stamp, Watchdog)),
           EmergencyOff(d.c.h, t.watchdogOk))
    else
      var h := if Abs(d.c.h.target - d.target) >= APPLY_STEP_C
               then SetTarget(d.c.h, Finite(d.target)).0 else d.c.h;
      d.c.(h := if d.autonomous && d.target > 0.0 then NotifyLink(h, t.heater.now) else h)
  }

  function ControlChamber(p: Policy): Float {
    if p.session.mode == Auto && p.printer.connected then p.printer.chamber else NonFinite
  }

  function RunHeater(c: Core, t: TickInput): Core {
    c.(h := Tick(SetControlChamber(c.h, ControlChamber(c.p)), t.heater))
  }

  function Smoothed(status: Reading, c: real): Reading {
    if status.Valid? then Valid(c) else Invalid
  }

  function Purge(c: Core, t: TickInput): Core {
    var (heated, cooldown) := PurgeDecide(c.h.HeatMode(), c.p.air.heated,
                                          Smoothed(t.heater.chamber, t.smoothChamber),
                                          Smoothed(t.heater.ptc, t.smoothPtc),
                                          c.p.air.cooldown, c.h.settings.coolRelease);
    c.(p := c.p.(air := c.p.air.(heated := heated, cooldown := cooldown)))
  }

  function SyncFault(c: Core, tripped: bool): Core {
    var f := c.h.latch.Faulted();
    var p := if f && !c.p.lastFaulted
             then c.p.(session := Dropped(c.p.session),
                       stamp := if tripped then c.p.stamp else Advance(c.p.stamp, Safety))
             else c.p;
    c.(p := p.(lastFaulted := f))
  }

  function Filtering(p: Policy): bool {
    if !p.printer.connected || !p.params.filterEnable then false
    else if !p.air.filtering then p.printer.bedTarget >= p.params.filterTemp
    else p.printer.bedTarget >= p.params.filterTemp - FILTER_BAND_C
  }

  function Fan(c: Core): Core {
    var f := Filtering(c.p);
    var stamp := if f == c.p.air.filtering then c.p.stamp else Advance(c.p.stamp, c.p.stamp.source);
    var air := c.h.HeatMode() || c.h.latch.Faulted() || c.p.air.cooldown || f;
    var level := if air && c.p.air.requested < 30 then 30 else c.p.air.requested;
    c.(p := c.p.(stamp := stamp, air := c.p.air.(filtering := f, level := level)))
  }

  /** The taps a tick found complete, with the revision it saw last. */
  datatype Start = Start(hours: nat, revision: int)

  /** What follows the mode decision inside the locked part of a tick. */
  function TickBack(c: Core, t: TickInput, tripped: bool): Core {
    Fan(SyncFault(Purge(RunHeater(c, t), t), tripped))
  }

  /** The locked part of a tick, and the delayed start it leaves for the unlocked part. */
  function TickLocked(c: Core, t: TickInput): (Core, Option<Start>) {
    var (c1, taps) := ConsumeClicks(c, t.entry);
    var d := ModeStep(c1, t.entry);
    var r := TickBack(ApplyDemand(d, t), t, d.trip);
    (r, if taps != 0 then Some(Start(taps * 6, r.p.stamp.revision)) else None)
  }

  // --- Boot ---------------------------------------------------------------------------------

  function InitPolicy(src: ControlSource, params: Params, issued: nat): Policy {
    Policy(Session(Off, Off, 0.0, DEFAULT_PARAMS.autoBed, false, 0, 0, None, issued, 0, 0),
           Stamp(1, Boot, 0), Printer(false, false, 0.0, 0.0, Finite(0.0)), NO_CLICKS,
           Air(0, 0, false, false, false), false, params, false, src)
  }

  function BootCore(now: int, store: FaultStore, read: BootRead, s: Stored, src: ControlSource,
                    params: Params, issued: nat): Core
  {
    Core(InitPolicy(src, params, issued), LoadFault(LoadConfig(InitHeater(now, store), s), read))
  }
}
