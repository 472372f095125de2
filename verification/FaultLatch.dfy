/** The persistent fault latch and the permanent inhibit, over every run with flash failures and reboots. */
module FaultLatch {
  import opened Values
  import opened SafetyRules
  import opened HeaterSpec
  import opened PolicySpec
  import opened System
  import opened Authority

  /** Latched in RAM, and the flash copy is written or still owed. */
  ghost predicate Durable(l: Latch) {
    l.latched && (l.store.Latched() || l.pending)
  }

  predicate Cleared(d: Device, s: Step) {
    s.ClearCmd? && Section(d, s).1 == Accepted
  }

  // --- One step -----------------------------------------------------------------------------

  /** What a tick may do to the latch: the watchdog's latch if it trips, the retry, then a trip if any. */
  ghost predicate LatchPath(l: Latch, watchdog: bool, t: TickInput, r: Latch) {
    var l1 := if watchdog then SetLatch(l, Emergency, false, true, t.watchdogOk) else l;
    var l2 := Retry(l1, t.heater.now, t.heater.lockFree, t.heater.retryOk);
    r == l2 || exists f: Fault :: r == SetLatch(l2, f, false, true, t.heater.tripOk)
  }

  lemma FrontLatch(c: Core, t: TickInput)
    ensures var m := ModeStep(ConsumeClicks(c, t.entry).0, t.entry);
            ApplyDemand(m, t).h.latch
            == if m.trip then SetLatch(c.h.latch, Emergency, false, true, t.watchdogOk) else c.h.latch
  {
    var c1 := ConsumeClicks(c, t.entry).0;
    assert c1.h == c.h;
    hide ConsumeClicks;
    var m := ModeStep(c1, t.entry);
    assert m.c.h.latch == c.h.latch;
    hide ModeStep;
  }

  lemma HeaterLatch(h: Heater, e: Surroundings)
    ensures var l := Retry(h.latch, e.now, e.lockFree, e.retryOk);
            var r := Tick(h, e).latch;
            r == l || exists f: Fault :: r == SetLatch(l, f, false, true, e.tripOk)
  {
    hide Control, Retry;
    var l := Retry(h.latch, e.now, e.lockFree, e.retryOk);
    var v := ViewOf(h.(latch := l), e);
    if v.Trip() != NoFault {
      assert Tick(h, e).latch == SetLatch(l, v.Trip(), false, true, e.tripOk);
    }
  }

  lemma BackKeepsHeater(c: Core, t: TickInput, tripped: bool)
    ensures TickBack(c, t, tripped).h == Tick(SetControlChamber(c.h, ControlChamber(c.p)), t.heater)
  {
    hide Tick;
  }

  lemma TickLatch(c: Core, t: TickInput) returns (watchdog: bool)
    ensures LatchPath(c.h.latch, watchdog, t, TickLocked(c, t).0.h.latch)
  {
    hide ConsumeClicks, ModeStep, ApplyDemand, TickBack, Tick, SetLatch, Retry;
    FrontLatch(c, t);
    var m := ModeStep(ConsumeClicks(c, t.entry).0, t.entry);
    var c2 := ApplyDemand(m, t);
    BackKeepsHeater(c2, t, m.trip);
    HeaterLatch(SetControlChamber(c2.h, ControlChamber(c2.p)), t.heater);
    watchdog := m.trip;
  }

  /** A tick that latches a clear heater makes the latch durable; one that finds it latched leaves it as
      durable as it was. */
  lemma TickDurable(c: Core, t: TickInput)
    requires Latching(c.h.latch) && TickLocked(c, t).0.h.latch.latched
    ensures Durable(TickLocked(c, t).0.h.latch) <==> !c.h.latch.latched || Durable(c.h.latch)
  {
    hide TickLocked;
    var watchdog := TickLatch(c, t);
  }

  /** Flash that holds the latch keeps it through a tick, and a due debt is paid whenever the store works. */
  lemma TickCommits(c: Core, t: TickInput)
    requires Durable(c.h.latch)
    requires c.h.latch.store.Latched()
             || (t.heater.now - c.h.latch.retryAt >= 2_000_000 && t.heater.lockFree && t.heater.retryOk)
    ensures var l := TickLocked(c, t).0.h.latch; l.latched && l.store.Latched()
  {
    hide TickLocked;
    var watchdog := TickLatch(c, t);
  }

  /** A faulted heater has its SSR off after the next tick and is still faulted. */
  lemma FaultedTicksOff(c: Core, clock: int, t: TickInput)
    requires CoreInv(c, clock) && clock <= t.heater.now && c.h.latch.Faulted()
    ensures var h := TickLocked(c, t).0.h;
            !h.loop.on && (c.h.latch.latched ==> h.latch.latched) && (c.h.latch.inhibited ==> h.latch.inhibited)
  {
    hide TickLocked, Authorised, Follows, CoreInv, ControlChamber, EffectiveFoldback;
    TickKeepsFault(c, t);
    TickHeatsUnderAuthority(c, clock, t);
  }

  lemma TickKeepsFault(c: Core, t: TickInput)
    ensures var l := TickLocked(c, t).0.h.latch;
            (c.h.latch.latched ==> l.latched) && (c.h.latch.inhibited ==> l.inhibited)
  {
    hide TickLocked, WriteFault;
    var watchdog := TickLatch(c, t);
  }

  // --- Every other step ---------------------------------------------------------------------

  /** Locked sections other than a tick, a boot or an accepted clear only ever add to the latch. */
  lemma SectionLatch(d: Device, s: Step)
    requires d.clearing.None? && Enabled(d, s) && !s.TickStep? && !s.Reboot? && !Cleared(d, s)
    ensures var l, r := d.core.h.latch, Apply(d, s).core.h.latch;
            && r.store == l.store && r.pending == l.pending && r.retryAt == l.retryAt
            && (l.latched ==> r.latched) && (l.inhibited ==> r.inhibited)
            && Apply(d, s).clearing.None?
  {
    hide TickLocked;
  }

  lemma CoreSafe(d: Device)
    requires Inv(d)
    ensures Latching(d.core.h.latch)
  {
  }

  lemma StepKeepsDurable(d: Device, s: Step)
    requires Inv(d) && d.clearing.None? && Enabled(d, s) && !s.Reboot? && !Cleared(d, s)
    requires Durable(d.core.h.latch)
    ensures Durable(Apply(d, s).core.h.latch) && Apply(d, s).clearing.None?
  {
    hide Section, CoreInv, TickLocked, Cleared;
    CoreSafe(d);
    if s.TickStep? {
      SectionOfTick(d, s.t);
      FaultedTicksOff(d.core, d.clock, s.t);
      TickDurable(d.core, s.t);
    } else {
      SectionLatch(d, s);
    }
  }

  lemma RestoreRefusesLatched(store: FaultStore, issued: nat, b: BootInput)
    requires store.Latched()
    ensures var l := BootDevice(store, issued, b).core.h.latch; l.latched && l.store == store
    ensures !BootDevice(store, issued, b).core.h.loop.on
  {
    BootIsSafe(b.now, store, b.stored, b.read);
  }

  lemma StepKeepsCommitted(d: Device, s: Step)
    requires Inv(d) && d.clearing.None? && Enabled(d, s) && !Cleared(d, s)
    requires d.core.h.latch.store.Latched()
    ensures var e := Apply(d, s); e.core.h.latch.store.Latched() && e.clearing.None?
    ensures s.TickStep? || s.Reboot? ==> !Apply(d, s).core.h.loop.on
  {
    hide Section, CoreInv, TickLocked, Cleared, BootDevice;
    CoreSafe(d);
    if s.TickStep? {
      SectionOfTick(d, s.t);
      FaultedTicksOff(d.core, d.clock, s.t);
      TickCommits(d.core, s.t);
    } else if s.Reboot? {
      SectionOfBoot(d, s.b);
      RestoreRefusesLatched(d.core.h.latch.store, d.core.p.session.issued, s.b);
    } else {
      SectionLatch(d, s);
    }
  }

  /** Nothing but a boot lifts an inhibit, the second half of a clear included. */
  lemma StepKeepsInhibit(d: Device, s: Step)
    requires Inv(d) && Enabled(d, s) && !s.Reboot? && (d.core.h.latch.inhibited || s.InhibitNow?)
    ensures Apply(d, s).core.h.latch.inhibited
    ensures s.TickStep? ==> !Apply(d, s).core.h.loop.on
  {
    hide TickLocked, CoreInv;
    if s.TickStep? {
      FaultedTicksOff(d.core, d.clock, s.t);
    }
  }

  lemma SectionOfBoot(d: Device, b: BootInput)
    ensures Section(d, Reboot(b)).0 == BootDevice(d.core.h.latch.store, d.core.p.session.issued, b).core
  {
  }

  // --- Whole runs ------------------------------------------------------------------------------

  /** A tick that latches a heater that was clear: a hazard trip or a watchdog trip. */
  ghost predicate HazardLatches(states: seq<Device>, steps: seq<Step>, i: nat)
    requires Run(states, steps) && i < |steps|
  {
    steps[i].TickStep? && !states[i].core.h.latch.latched && states[i + 1].core.h.latch.latched
  }

  ghost predicate NoClear(states: seq<Device>, steps: seq<Step>, i: nat, k: nat)
    requires Run(states, steps) && i <= k <= |steps|
  {
    forall m :: i <= m < k ==> !Cleared(states[m], steps[m])
  }

  lemma TickStepDurable(d: Device, t: TickInput)
    requires Inv(d) && Enabled(d, TickStep(t)) && !d.core.h.latch.latched
    requires Apply(d, TickStep(t)).core.h.latch.latched
    ensures var e := Apply(d, TickStep(t)); Durable(e.core.h.latch) && e.clearing.None?
  {
    hide TickLocked, CoreInv;
    CoreSafe(d);
    TickDurable(d.core, t);
  }

  /** From a latching trip until a successful clear or a reboot, RAM is latched and flash holds the latch or
      the write is still owed. */
  lemma {:induction false} DurableUntilCleared(states: seq<Device>, steps: seq<Step>, i: nat, k: nat)
    requires Run(states, steps) && i < k <= |steps|
    requires HazardLatches(states, steps, i) && NoClear(states, steps, i, k) && SameBoot(steps, i, k)
    ensures Durable(states[k].core.h.latch) && states[k].clearing.None?
  {
    hide Section, Apply, CoreInv, TickLocked, Cleared;
    RunKeepsInv(states, steps, k - 1);
    if k == i + 1 {
      TickStepDurable(states[i], steps[i].t);
    } else {
      DurableUntilCleared(states, steps, i, k - 1);
      StepKeepsDurable(states[k - 1], steps[k - 1]);
    }
  }

  lemma CommittedIsLatched(states: seq<Device>, steps: seq<Step>, k: nat)
    requires Run(states, steps) && k < |states| && states[k].core.h.latch.store.Latched()
    ensures states[k].core.h.latch.latched && states[k].clearing.None?
  {
    hide Apply, Enabled;
    RunKeepsInv(states, steps, k);
  }

  /** Once flash holds the latch, no number of reboots or unreadable stores unlatches the device, and every
      tick and every boot until a successful clear leaves the SSR off. */
  lemma {:induction false} CommittedUntilCleared(states: seq<Device>, steps: seq<Step>, i: nat, k: nat)
    requires Run(states, steps) && i <= k <= |steps|
    requires states[i].core.h.latch.store.Latched() && NoClear(states, steps, i, k)
    ensures states[k].core.h.latch.store.Latched() && states[k].core.h.latch.latched && states[k].clearing.None?
    ensures forall m :: i <= m < k && (steps[m].TickStep? || steps[m].Reboot?) ==> !states[m + 1].core.h.loop.on
  {
    hide Section, Cleared, Apply, CoreInv, Enabled;
    if k > i {
      CommittedUntilCleared(states, steps, i, k - 1);
      RunKeepsInv(states, steps, k - 1);
      StepKeepsCommitted(states[k - 1], steps[k - 1]);
    }
    CommittedIsLatched(states, steps, k);
  }

  /** A debt to flash is paid by the first tick that finds it due with the lock free and the store working. */
  lemma DueDebtIsPaid(states: seq<Device>, steps: seq<Step>, i: nat)
    requires Run(states, steps) && i < |steps| && steps[i].TickStep? && Durable(states[i].core.h.latch)
    requires var e := steps[i].t.heater;
             e.now - states[i].core.h.latch.retryAt >= 2_000_000 && e.lockFree && e.retryOk
    ensures states[i + 1].core.h.latch.store.Latched()
  {
    hide Section, TickLocked;
    SectionOfTick(states[i], steps[i].t);
    TickCommits(states[i].core, steps[i].t);
  }

  /** A hazard that finds the heater already latched by a panic-off is not written: a reboot forgets it. */
  lemma PanicHidesHazard(c: Core, t: TickInput, b: BootInput)
    requires Latching(c.h.latch) && c.h.latch.latched && !c.h.latch.pending
    requires !c.h.latch.store.Latched() && b.read.ReadsBack?
    ensures var r := TickLocked(c, t).0;
            r.h.latch.latched && !BootDevice(r.h.latch.store, r.p.session.issued, b).core.h.latch.Faulted()
  {
    hide TickLocked;
    var watchdog := TickLatch(c, t);
  }

  const HOT_TICK := CoolTick().(heater := CoolTick().heater.(ptc := Valid(120.0)))

  function PanickedBoot(): Device {
    Apply(BootDevice(FaultStore(None, None), 0, FRESH_BOOT), Panic(Button))
  }

  lemma PanickedBootLatch()
    ensures Run([BootDevice(FaultStore(None, None), 0, FRESH_BOOT)], [])
    ensures Enabled(BootDevice(FaultStore(None, None), 0, FRESH_BOOT), Panic(Button))
    ensures var d := PanickedBoot();
            && d.core.h.latch.latched && !d.core.h.latch.pending && !d.core.h.latch.store.Latched()
            && Enabled(d, TickStep(HOT_TICK)) && Enabled(Apply(d, TickStep(HOT_TICK)), Reboot(FRESH_BOOT))
  {
    hide TickLocked;
    assert FRESH_BOOT.now >= 0;
  }

  lemma HotTickThenBoot(d: Device)
    requires d.core.h.latch.latched && !d.core.h.latch.pending && !d.core.h.latch.store.Latched()
    ensures var e := Apply(d, TickStep(HOT_TICK));
            && e.core.h.latch.code == PtcOvertemp
            && !Apply(e, Reboot(FRESH_BOOT)).core.h.latch.Faulted()
  {
    hide TickLocked;
    HotTickTrips(d.core);
    PanicHidesHazard(d.core, HOT_TICK, FRESH_BOOT);
    SectionOfBoot(Apply(d, TickStep(HOT_TICK)), FRESH_BOOT);
    hide BootDevice, BootCore;
  }

  /** A run that loses one: a panic-off, then an element at 120 C, then a reboot that comes up without a fault. */
  lemma PanicRunForgetsHazard() returns (states: seq<Device>, steps: seq<Step>)
    ensures Run(states, steps) && steps == [Panic(Button), TickStep(HOT_TICK), Reboot(FRESH_BOOT)]
    ensures states[2].core.h.latch.code == PtcOvertemp && !states[3].core.h.latch.Faulted()
  {
    hide Run, Apply, Enabled, BootDevice;
    PanickedBootLatch();
    HotTickThenBoot(PanickedBoot());
    states, steps := [BootDevice(FaultStore(None, None), 0, FRESH_BOOT)], [];
    states, steps := RunGoesOn(states, steps, Panic(Button));
    states, steps := RunGoesOn(states, steps, TickStep(HOT_TICK));
    states, steps := RunGoesOn(states, steps, Reboot(FRESH_BOOT));
  }

  lemma HotTickTrips(c: Core)
    requires Latching(c.h.latch)
    ensures TickLocked(c, HOT_TICK).0.h.latch.code == PtcOvertemp
  {
    hide ConsumeClicks, ModeStep, ApplyDemand, TickBack, Retry, Control;
    var m := ModeStep(ConsumeClicks(c, HOT_TICK.entry).0, HOT_TICK.entry);
    BackKeepsHeater(ApplyDemand(m, HOT_TICK), HOT_TICK, m.trip);
  }

  /** An inhibit lasts until the next boot, even when it lands between the halves of a clear: every tick from
      then on leaves the SSR off, and the target stays zero. */
  lemma {:induction false} InhibitLastsUntilReboot(states: seq<Device>, steps: seq<Step>, i: nat, k: nat)
    requires Run(states, steps) && i < k <= |steps| && steps[i].InhibitNow? && SameBoot(steps, i, k)
    ensures states[k].core.h.latch.inhibited && states[k].core.h.target == 0.0
    ensures steps[k - 1].TickStep? ==> !states[k].core.h.loop.on
  {
    hide Apply, CoreInv;
    RunKeepsInv(states, steps, k - 1);
    RunKeepsInv(states, steps, k);
    if k > i + 1 {
      InhibitLastsUntilReboot(states, steps, i, k - 1);
    }
    StepKeepsInhibit(states[k - 1], steps[k - 1]);
    InhibitedIsIdle(states[k].core, states[k].clock);
  }

  lemma InhibitedIsIdle(c: Core, clock: int)
    requires CoreInv(c, clock) && c.h.latch.inhibited
    ensures c.h.target == 0.0
  {
  }

  // --- What a boot makes of flash ---------------------------------------------------------------------

  /** A boot comes up unlatched when flash answers that no latch is set, or was ever written. It comes up latched with
      the stored cause when flash reads back a latch with a cause, with the emergency cause when that is missing or
      corrupt, and as unreadable when flash does not answer. Flash itself stays as it was. */
  lemma BootReadsLatch(d: Device, b: BootInput)
    ensures var s, h := d.core.h.latch.store, Apply(d, Reboot(b)).core.h;
            var written := s.latch.Some? || s.code.Some?;
            var known := b.read.ReadsBack? && b.read.codeReadable && s.code.Some? && 1 <= s.code.value <= 9;
            && h.latch.store == s && !h.latch.inhibited && !h.latch.pending && h.target == 0.0 && !h.loop.on
            && (h.latch.latched <==>
                  match b.read
                  case OpenFails => true
                  case LatchReadFails => written
                  case ReadsBack(_) => s.latch.Some? && s.latch.value != 0)
            && (h.latch.latched && !b.read.ReadsBack? ==> h.latch.code == NvsUnreadable)
            && (h.latch.latched && b.read.ReadsBack? ==>
                  if known then FaultCode(h.latch.code) == s.code.value else h.latch.code == Emergency)
            && (!h.latch.latched ==> h.latch.code == NoFault)
  {
  }
}
