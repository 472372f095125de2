/** The policy, the heater and the clock driven by every task of the device: one step per locked section. */
module System {
  import opened Values
  import opened SafetyRules
  import opened HeaterSpec
  import opened PolicySpec

  /** A clear between its flash half and the rest; the policy lock is held across it. */
  datatype Device = Device(
    core: Core,
    clock: int,
    clearing: Option<Source>,
    start: Option<Start>,
    startTarget: Option<real>)

  datatype BootInput = BootInput(now: int, read: BootRead, stored: Stored, src: ControlSource, params: Params)

  datatype Step =
    | PowerOnCmd(now: int, target: Float, src: Source, expected: int)
    | ButtonPowerOnCmd(now: int, target: Float, hours: nat, expected: int)
    | AutoCmd(now: int, target: Float, bed: Float, src: Source, expected: int)
    | DryCmd(now: int, target: Float, hours: nat, src: Source, expected: int)
    | OffCmd(src: Source)
    | StopRun(src: Source)
    | FanCmd(percent: nat, src: Source)
    | FilterCmd(temp: Float, enable: bool)
    | Env(bedTarget: Float, connected: bool, zone: Float, chamber: Float)
    | Helper(present: bool)
    | Beat(now: int, id: nat)
    | ClearCmd(src: Source, expected: int, storeOk: bool)
    | ClearRest
    | Panic(src: Source)
    | TapOn(now: int)
    | OtherButton
    | MaxTarget(c: Float)
    | CommsTimeout(ms: nat)
    | CoolRelease(c: Float)
    | FbCut(c: Float)
    | ChooseMethod(m: ControlMethod)
    | InhibitNow
    | TickStep(t: TickInput)
    | ReadParams              // the unlocked tail of a tick reads the remembered target ...
    | DelayedStart(now: int)  // ... and then makes its start
    | Reboot(b: BootInput)

  /** When the step reads the clock. */
  function TimeOf(d: Device, s: Step): int {
    match s
    case PowerOnCmd(now, _, _, _) => now
    case ButtonPowerOnCmd(now, _, _, _) => now
    case AutoCmd(now, _, _, _, _) => now
    case DryCmd(now, _, _, _, _) => now
    case Beat(now, _) => now
    case TapOn(now) => now
    case TickStep(t) => t.heater.now
    case DelayedStart(now) => now
    case Reboot(b) => b.now
    case _ => d.clock
  }

  /** Steps that do not need the policy lock and so can land inside a clear. */
  predicate Lockless(s: Step) {
    s.MaxTarget? || s.CommsTimeout? || s.CoolRelease? || s.FbCut? || s.ChooseMethod? || s.InhibitNow?
  }

  predicate Enabled(d: Device, s: Step) {
    if s.Reboot? then s.b.now >= 0
    else
      && TimeOf(d, s) >= d.clock
      && (if d.clearing.Some? then s.ClearRest? || Lockless(s) else !s.ClearRest?)
      && (s.TickStep? ==> d.start.None? && 0 <= s.t.entry <= s.t.heater.now)
      && (s.ReadParams? ==> d.start.Some? && d.startTarget.None?)
      && (s.DelayedStart? ==> d.start.Some? && d.startTarget.Some?)
  }

  /** What a locked section does to policy and heater, and what it answers. */
  function Section(d: Device, s: Step): (Core, Result) {
    var c := d.core;
    match s
    case PowerOnCmd(now, target, src, expected) =>
      SetPowerOn(c, now, target, src, expected, LOCAL_DEFAULT_MS, false)
    case ButtonPowerOnCmd(now, target, hours, expected) => SetButtonPowerOn(c, now, target, hours, expected)
    case AutoCmd(now, target, bed, src, expected) => SetAuto(c, now, target, bed, src, expected)
    case DryCmd(now, target, hours, src, expected) => StartDrying(c, now, target, hours, src, expected)
    case OffCmd(src) => (SetOff(c, src), Accepted)
    case StopRun(src) => (RestoreOrOff(c, src), Accepted)
    case FanCmd(percent, src) => SetFan(c, percent, src)
    case FilterCmd(temp, enable) => SetFilterConfig(c, temp, enable)
    case Env(bedTarget, connected, zone, chamber) => (SetEnv(c, bedTarget, connected, zone, chamber), Accepted)
    case Helper(present) => (SetHelper(c, present), Accepted)
    case Beat(now, id) => PolicySpec.Heartbeat(c, now, id)
    case ClearCmd(_, expected, storeOk) => ClearBegin(c, expected, storeOk)
    case ClearRest => (if d.clearing.Some? then ClearFinish(c, d.clearing.value) else c, Accepted)
    case Panic(src) => (PanicOffNow(c, src), Accepted)
    case TapOn(now) => (Tap(c, now), Accepted)
    case OtherButton => (CancelClicks(c), Accepted)
    case MaxTarget(m) => (c.(h := SetMaxTarget(c.h, m).0), Accepted)
    case CommsTimeout(ms) => (c.(h := SetCommsTimeout(c.h, ms)), Accepted)
    case CoolRelease(r) => (c.(h := SetCoolRelease(c.h, r).0), Accepted)
    case FbCut(r) => (c.(h := SetFbCut(c.h, r).0), Accepted)
    case ChooseMethod(m) => (c.(h := SetMethod(c.h, m)), Accepted)
    case InhibitNow => (c.(h := HeaterSpec.Inhibit(c.h)), Accepted)
    case TickStep(t) => (TickLocked(c, t).0, Accepted)
    case DelayedStart(now) =>
      if d.start.Some? && d.startTarget.Some?
      then SetButtonPowerOn(c, now, Finite(d.startTarget.value), d.start.value.hours, d.start.value.revision)
      else (c, Busy)
    case ReadParams => (c, Accepted)
    case Reboot(b) =>
      (BootCore(b.now, c.h.latch.store, b.read, b.stored, b.src, b.params, c.p.session.issued), Accepted)
  }

  function Apply(d: Device, s: Step): Device {
    var (c, r) := Section(d, s);
    Device(c, TimeOf(d, s),
           if s.ClearCmd? && r == Accepted then Some(s.src)
           else if s.ClearRest? || s.Reboot? then None
           else d.clearing,
           if s.TickStep? then TickLocked(d.core, s.t).1
           else if s.DelayedStart? || s.Reboot? then None
           else d.start,
           if s.ReadParams? then Some(d.core.p.params.manual)
           else if s.TickStep? || s.DelayedStart? || s.Reboot? then None
           else d.startTarget)
  }

  function BootDevice(store: FaultStore, issued: nat, b: BootInput): Device {
    Device(BootCore(b.now, store, b.read, b.stored, b.src, b.params, issued), b.now, None, None, None)
  }

  // --- Invariant -------------------------------------------------------------------------

  ghost predicate Bookkeeping(s: Session) {
    && (s.lease.Some? ==> s.mode == PowerOn && 0 < s.lease.value.id <= s.issued)
    && (s.mode == PowerOn ==> (s.lease.Some? <==> s.localDeadline == 0))
    && (s.mode != PowerOn ==> s.localDeadline == 0)
    && (s.dryingDeadline > 0 <==> s.mode == Drying)
    && s.localDeadline >= 0 && s.dryingDeadline >= 0
    && (s.resume != Off ==> s.resume == Auto && s.mode == PowerOn)
  }

  ghost predicate Deadlines(s: Session, lastLink: int, clock: int) {
    && 0 <= s.acceptedAt <= clock
    && (s.lease.Some? ==>
          && lastLink == s.refreshedAt <= clock
          && s.lease.value.deadline <= s.refreshedAt + COMMS_MAX_MS * 1000)
    && s.localDeadline <= s.acceptedAt + LOCAL_MAX_MS * 1000
    && s.dryingDeadline <= s.acceptedAt + DRYING_MAX_HOURS * HOUR_US
  }

  ghost predicate CoreInv(c: Core, clock: int) {
    && Bookkeeping(c.p.session)
    && Deadlines(c.p.session, c.h.lastLink, clock)
    && c.p.stamp.revision == RevisionAt(c.p.stamp.epoch)
    && c.p.clicks.count <= 4
    && (c.p.lastFaulted ==> c.p.session.mode == Off && c.h.latch.Faulted())
    && (c.p.session.mode == Off ==> c.h.target == 0.0)
    && (c.p.session.mode == PowerOn || c.p.session.mode == Drying ==> 30.0 <= c.p.session.requested <= 70.0)
    && 0.0 <= c.p.printer.zone <= ABS_MAX_TARGET_C
    && Safe(c.h)
  }

  ghost predicate Inv(d: Device) {
    && 0 <= d.clock
    && CoreInv(d.core, d.clock)
    && (d.clearing.Some? ==> !d.core.h.latch.store.Latched())
    && (d.start.Some? ==> d.start.value.hours in {6, 12, 18, 24})
  }

  lemma BootKeepsInv(store: FaultStore, issued: nat, b: BootInput)
    requires b.now >= 0
    ensures Inv(BootDevice(store, issued, b))
  {
    BootIsSafe(b.now, store, b.stored, b.read);
  }

  // --- Commands keep the invariant -----------------------------------------------------------

  lemma OffKeepsInv(c: Core, clock: int, src: Source)
    requires CoreInv(c, clock)
    ensures CoreInv(SetOff(c, src), clock) && CoreInv(RestoreOrOff(c, src), clock)
  {
  }

  lemma EnterPowerOnKeepsInv(c: Core, clock: int, now: int, target: real, src: Source, ms: nat)
    requires CoreInv(c, clock) && 0 <= clock <= now && !c.h.latch.Faulted() && target >= MIN_MODE_TARGET_C
    requires Remote(src) || 0 < ms <= LOCAL_MAX_MS
    ensures CoreInv(EnterPowerOn(c, now, target, src, ms), now)
  {
  }

  lemma PowerOnKeepsInv(c: Core, clock: int, now: int, target: Float, src: Source, expected: int, ms: nat,
                        unbound: bool)
    requires CoreInv(c, clock) && 0 <= clock <= now
    ensures CoreInv(SetPowerOn(c, now, target, src, expected, ms, unbound).0, now)
  {
    hide EnterPowerOn;
    if SetPowerOn(c, now, target, src, expected, ms, unbound).1 == Accepted {
      EnterPowerOnKeepsInv(c, clock, now, target.c, src, ms);
    }
  }

  lemma AutoKeepsInv(c: Core, clock: int, now: int, target: Float, bed: Float, src: Source, expected: int)
    requires CoreInv(c, clock) && 0 <= clock <= now
    ensures CoreInv(SetAuto(c, now, target, bed, src, expected).0, now)
  {
  }

  lemma DryKeepsInv(c: Core, clock: int, now: int, target: Float, hours: nat, src: Source, expected: int)
    requires CoreInv(c, clock) && 0 <= clock <= now
    ensures CoreInv(StartDrying(c, now, target, hours, src, expected).0, now)
  {
  }

  lemma BeatKeepsInv(c: Core, clock: int, now: int, id: nat)
    requires CoreInv(c, clock) && clock <= now
    ensures CoreInv(PolicySpec.Heartbeat(c, now, id).0, now)
  {
  }

  lemma ClearKeepsInv(d: Device, src: Source, expected: int, ok: bool)
    requires Inv(d) && d.clearing.None?
    ensures Inv(Apply(d, ClearCmd(src, expected, ok)))
  {
  }

  lemma ClearRestKeepsInv(d: Device)
    requires Inv(d) && d.clearing.Some?
    ensures Inv(Apply(d, ClearRest))
  {
  }

  lemma LocklessKeepInv(d: Device, s: Step)
    requires Inv(d) && Lockless(s)
    ensures Inv(Apply(d, s))
  {
  }

  lemma PanicAndFanKeepInv(c: Core, clock: int, src: Source, percent: nat)
    requires CoreInv(c, clock)
    ensures CoreInv(PanicOffNow(c, src), clock) && CoreInv(SetFan(c, percent, src).0, clock)
  {
  }

  lemma ObservationsKeepInv(c: Core, clock: int, temp: Float, on: bool, zone: Float, chamber: Float)
    requires CoreInv(c, clock)
    ensures CoreInv(SetEnv(c, temp, on, zone, chamber), clock) && CoreInv(SetHelper(c, on), clock)
    ensures CoreInv(SetFilterConfig(c, temp, on).0, clock)
  {
  }

  lemma ButtonsKeepInv(c: Core, clock: int, now: int, target: Float, hours: nat, expected: int)
    requires CoreInv(c, clock) && 0 <= clock <= now
    ensures CoreInv(Tap(c, now), now) && CoreInv(CancelClicks(c), now)
    ensures CoreInv(SetButtonPowerOn(c, now, target, hours, expected).0, now)
  {
    PowerOnKeepsInv(c, clock, now, target, Button, expected, hours * 3_600_000, true);
  }

  // --- The tick keeps the invariant, stage by stage -------------------------------------------

  lemma ModeStepKeepsInv(c: Core, clock: int, entry: int)
    requires CoreInv(c, clock)
    ensures var m := ModeStep(c, entry);
            && CoreInv(m.c, clock)
            && (m.autonomous ==> m.c.p.session.lease.None?)
            && (m.c.p.session.mode == Off ==> m.target == 0.0)
  {
    OffKeepsInv(c, clock, Watchdog);
  }

  lemma ApplyDemandKeepsInv(m: Demand, clock: int, t: TickInput)
    requires CoreInv(m.c, clock) && clock <= t.heater.now
    requires m.autonomous ==> m.c.p.session.lease.None?
    requires m.c.p.session.mode == Off ==> m.target == 0.0
    ensures CoreInv(ApplyDemand(m, t), t.heater.now)
  {
  }

  lemma RunHeaterKeepsInv(c: Core, clock: int, t: TickInput)
    requires CoreInv(c, clock)
    ensures CoreInv(RunHeater(c, t), clock)
  {
    OnlyInsideEnvelope(SetControlChamber(c.h, ControlChamber(c.p)), t.heater);
  }

  lemma BackKeepsInv(c: Core, clock: int, t: TickInput, tripped: bool)
    requires CoreInv(c, clock)
    ensures var r := TickBack(c, t, tripped); CoreInv(r, clock) && (r.h.latch.Faulted() ==> r.p.session.mode == Off)
  {
    hide RunHeater;
    RunHeaterKeepsInv(c, clock, t);
    var s := SyncFault(Purge(RunHeater(c, t), t), tripped);
    assert CoreInv(s, clock);
    assert Fan(s).p.stamp.revision == RevisionAt(Fan(s).p.stamp.epoch);
  }

  /** A tick keeps the invariant, and after it a fault implies OFF. */
  lemma TickKeepsInv(c: Core, clock: int, t: TickInput)
    requires CoreInv(c, clock) && clock <= t.heater.now
    ensures var (r, start) := TickLocked(c, t);
            && CoreInv(r, t.heater.now)
            && (r.h.latch.Faulted() ==> r.p.session.mode == Off)
            && (start.Some? ==> start.value.hours in {6, 12, 18, 24})
  {
    hide CoreInv, ModeStep, ApplyDemand, TickBack;
    var (c1, taps) := ConsumeClicks(c, t.entry);
    assert CoreInv(c1, clock) && taps <= 4 by {
      ConsumeKeepsInv(c, clock, t.entry);
    }
    var m := ModeStep(c1, t.entry);
    ModeStepKeepsInv(c1, clock, t.entry);
    ApplyDemandKeepsInv(m, clock, t);
    BackKeepsInv(ApplyDemand(m, t), t.heater.now, t, m.trip);
  }

  lemma ConsumeKeepsInv(c: Core, clock: int, entry: int)
    requires CoreInv(c, clock)
    ensures var (r, taps) := ConsumeClicks(c, entry); CoreInv(r, clock) && taps <= 4
  {
  }

  predicate StartsOrExtends(s: Step) {
    s.PowerOnCmd? || s.ButtonPowerOnCmd? || s.AutoCmd? || s.DryCmd? || s.DelayedStart? || s.Beat?
  }

  lemma StartsKeepInv(d: Device, s: Step)
    requires Inv(d) && Enabled(d, s) && StartsOrExtends(s)
    ensures Inv(Apply(d, s))
  {
    hide SetPowerOn, SetAuto, StartDrying, SetButtonPowerOn, PolicySpec.Heartbeat, TickLocked, BootCore, CoreInv;
    var c, now := d.core, TimeOf(d, s);
    match s
    case PowerOnCmd(_, target, src, expected) =>
      PowerOnKeepsInv(c, d.clock, now, target, src, expected, LOCAL_DEFAULT_MS, false);
    case ButtonPowerOnCmd(_, target, hours, expected) => ButtonsKeepInv(c, d.clock, now, target, hours, expected);
    case DelayedStart(_) =>
      ButtonsKeepInv(c, d.clock, now, Finite(d.startTarget.value), d.start.value.hours, d.start.value.revision);
    case AutoCmd(_, target, bed, src, expected) => AutoKeepsInv(c, d.clock, now, target, bed, src, expected);
    case DryCmd(_, target, hours, src, expected) => DryKeepsInv(c, d.clock, now, target, hours, src, expected);
    case Beat(_, id) => BeatKeepsInv(c, d.clock, now, id);
  }

  lemma StepKeepsInv(d: Device, s: Step)
    requires Inv(d) && Enabled(d, s)
    ensures Inv(Apply(d, s))
  {
    hide SetPowerOn, SetAuto, StartDrying, SetButtonPowerOn, PolicySpec.Heartbeat, SetOff, RestoreOrOff, TickLocked;
    hide PanicOffNow, SetFan, SetEnv, SetHelper, SetFilterConfig, Tap, CancelClicks, BootCore, CoreInv;
    if StartsOrExtends(s) {
      StartsKeepInv(d, s);
      return;
    }
    if Lockless(s) {
      LocklessKeepInv(d, s);
      return;
    }
    hide Lockless;
    var c := d.core;
    match s
    case OffCmd(src) => OffKeepsInv(c, d.clock, src);
    case StopRun(src) => OffKeepsInv(c, d.clock, src);
    case ClearCmd(src, expected, ok) => ClearKeepsInv(d, src, expected, ok);
    case ClearRest => ClearRestKeepsInv(d);
    case TickStep(t) => TickKeepsInv(c, d.clock, t);
    case Reboot(b) => BootKeepsInv(c.h.latch.store, c.p.session.issued, b);
    case Panic(src) => PanicAndFanKeepInv(c, d.clock, src, 0);
    case FanCmd(percent, src) => PanicAndFanKeepInv(c, d.clock, src, percent);
    case FilterCmd(temp, on) => ObservationsKeepInv(c, d.clock, temp, on, NonFinite, NonFinite);
    case Env(bed, on, zone, chamber) => ObservationsKeepInv(c, d.clock, bed, on, zone, chamber);
    case Helper(on) => ObservationsKeepInv(c, d.clock, NonFinite, on, NonFinite, NonFinite);
    case TapOn(now) => ButtonsKeepInv(c, d.clock, now, NonFinite, 0, 0);
    case OtherButton => ButtonsKeepInv(c, d.clock, d.clock, NonFinite, 0, 0);
    case ReadParams =>
  }

  // --- Runs ----------------------------------------------------------------------------------------

  /** A run from boot: steps[i] takes states[i] to states[i + 1]. */
  ghost predicate Run(states: seq<Device>, steps: seq<Step>) {
    && |states| == |steps| + 1
    && (exists store: FaultStore, b: BootInput :: b.now >= 0 && states[0] == BootDevice(store, 0, b))
    && forall i :: 0 <= i < |steps| ==> Enabled(states[i], steps[i]) && states[i + 1] == Apply(states[i], steps[i])
  }

  /** A run goes on with any enabled step. */
  lemma RunGoesOn(states: seq<Device>, steps: seq<Step>, s: Step) returns (states': seq<Device>, steps': seq<Step>)
    requires Run(states, steps) && Enabled(states[|steps|], s)
    ensures Run(states', steps') && states' == states + [Apply(states[|steps|], s)] && steps' == steps + [s]
  {
    hide Apply, Enabled, BootDevice;
    states', steps' := states + [Apply(states[|steps|], s)], steps + [s];
  }

  lemma {:induction false} RunKeepsInv(states: seq<Device>, steps: seq<Step>, i: nat)
    requires Run(states, steps) && i < |states|
    ensures Inv(states[i])
  {
    if i == 0 {
      var store: FaultStore, b: BootInput :| b.now >= 0 && states[0] == BootDevice(store, 0, b);
      BootKeepsInv(store, 0, b);
    } else {
      RunKeepsInv(states, steps, i - 1);
      StepKeepsInv(states[i - 1], steps[i - 1]);
    }
  }
}
