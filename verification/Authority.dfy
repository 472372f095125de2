/** No heat without live authority, over every run of the device. */
module Authority {
  import opened Values
  import opened SafetyRules
  import opened HeaterSpec
  import opened PolicySpec
  import opened System

  /** The mode in force gives the heater its authority at this tick. */
  ghost predicate Authorised(p: Policy, commsMs: int, t: TickInput) {
    var s := p.session;
    match s.mode
    case PowerOn =>
      if s.lease.Some?
      then t.entry < s.lease.value.deadline && t.heater.now - s.refreshedAt <= commsMs * 1000 <= COMMS_MAX_MS * 1000
      else t.entry < s.localDeadline <= s.acceptedAt + 24 * HOUR_US
    case Auto => p.printer.connected && p.printer.zone > 0.0 && !p.printer.helper
    case Drying => t.entry < s.dryingDeadline <= s.acceptedAt + 12 * HOUR_US
    case Off => false
  }

  /** The target the mode asks the heater for. */
  function Asked(p: Policy): real {
    match p.session.mode
    case Off => 0.0
    case Auto => if p.session.autoEngaged then p.printer.zone else 0.0
    case _ => p.session.requested
  }

  /** The heater regulates to what the mode asks, up to the re-apply step or the ceiling. */
  ghost predicate Follows(c: Core) {
    -0.05 < c.h.target - Asked(c.p) < 0.05 || c.h.target == c.h.settings.maxTarget <= Asked(c.p)
  }

  lemma ModeStepIsAuthorised(c: Core, clock: int, t: TickInput)
    requires CoreInv(c, clock)
    ensures var m := ModeStep(c, t.entry);
            m.target > 0.0 ==>
              && !m.trip && m.c.h == c.h && m.target == Asked(m.c.p)
              && (t.heater.now - c.h.lastLink <= c.h.settings.commsMs * 1000 || m.autonomous ==>
                    Authorised(m.c.p, c.h.settings.commsMs, t))
  {
    assert c.h.settings.commsMs <= COMMS_MAX_MS;
    hide SetOff, RestoreOrOff;
  }

  lemma DemandReachesHeater(m: Demand, t: TickInput)
    requires Safe(m.c.h)
    ensures var c := ApplyDemand(m, t);
            && c.h.settings == m.c.h.settings
            && (m.trip ==> c.h.latch.Faulted())
            && (!m.trip ==>
                  && c.p == m.c.p
                  && (!m.autonomous ==> c.h.lastLink == m.c.h.lastLink)
                  && (c.h.latch.Faulted()
                      || (if m.target <= 0.0 then c.h.target < APPLY_STEP_C
                          else Abs(c.h.target - m.target) < APPLY_STEP_C
                               || c.h.target == c.h.settings.maxTarget <= m.target)))
  {
  }

  lemma HeaterOnNeedsEnvelope(c: Core, t: TickInput)
    requires Safe(c.h)
    ensures var r := RunHeater(c, t);
            && r.p == c.p
            && (r.h.loop.on ==>
                  && Envelope(r.h, t.heater) && !c.h.latch.Faulted() && r.h.control == ControlChamber(c.p)
                  && r.h.target == c.h.target && r.h.settings == c.h.settings && r.h.lastLink == c.h.lastLink)
  {
  }

  /** What follows the heater leaves it alone, and leaves the mode alone unless there is a fault. */
  lemma BackKeepsMode(c: Core, t: TickInput, tripped: bool)
    ensures var r, h := TickBack(c, t, tripped), RunHeater(c, t).h;
            && r.h == h && r.p.printer == c.p.printer
            && (!h.latch.Faulted() ==> r.p.session == c.p.session)
  {
    hide Tick;
  }

  /** Heat after a tick is what the mode decided, or a leftover target too small for the policy to withdraw. */
  lemma DemandHeatsUnderAuthority(m: Demand, clock: int, t: TickInput)
    requires CoreInv(m.c, clock) && clock <= t.heater.now && (m.autonomous ==> m.c.p.session.lease.None?)
    requires m.c.p.session.mode == Off ==> m.target == 0.0
    requires m.target > 0.0 ==>
               && !m.trip && m.target == Asked(m.c.p)
               && (t.heater.now - m.c.h.lastLink <= m.c.h.settings.commsMs * 1000 || m.autonomous ==>
                     Authorised(m.c.p, m.c.h.settings.commsMs, t))
    ensures var r := TickBack(ApplyDemand(m, t), t, m.trip);
            r.h.loop.on ==>
              && Envelope(r.h, t.heater) && r.h.control == ControlChamber(r.p)
              && ((Authorised(r.p, r.h.settings.commsMs, t) && Follows(r)) || 0.0 < r.h.target < APPLY_STEP_C)
  {
    DemandReachesHeater(m, t);
    ApplyDemandKeepsInv(m, clock, t);
    var c2 := ApplyDemand(m, t);
    HeaterOnNeedsEnvelope(c2, t);
    BackKeepsMode(c2, t, m.trip);
    hide ApplyDemand, RunHeater, TickBack, Bookkeeping, Deadlines;
  }

  /** The SSR is on after the locked part of a tick only inside the envelope and under authority,
      regulating to what the mode asks; the one exception is a leftover heater target too small for
      the policy to withdraw. */
  lemma TickHeatsUnderAuthority(c: Core, clock: int, t: TickInput)
    requires CoreInv(c, clock) && clock <= t.heater.now
    ensures var r := TickLocked(c, t).0;
            r.h.loop.on ==>
              && Envelope(r.h, t.heater) && r.h.control == ControlChamber(r.p)
              && ((Authorised(r.p, r.h.settings.commsMs, t) && Follows(r)) || 0.0 < r.h.target < APPLY_STEP_C)
  {
    ConsumeKeepsInv(c, clock, t.entry);
    hide ModeStep, ApplyDemand, TickBack, Envelope, Authorised, Follows, Asked, CoreInv;
    var c1 := ConsumeClicks(c, t.entry).0;
    ModeStepKeepsInv(c1, clock, t.entry);
    ModeStepIsAuthorised(c1, clock, t);
    DemandHeatsUnderAuthority(ModeStep(c1, t.entry), clock, t);
  }

  // --- Where the times come from ------------------------------------------------------------

  predicate HeatCommand(s: Step) {
    s.PowerOnCmd? || s.ButtonPowerOnCmd? || s.AutoCmd? || s.DryCmd? || s.DelayedStart?
  }

  ghost predicate AcceptedCommand(d: Device, s: Step) {
    HeatCommand(s) && Section(d, s).1 == Accepted
  }

  ghost predicate Refresh(d: Device, s: Step) {
    (s.Beat? || s.PowerOnCmd?) && Section(d, s).1 == Accepted
  }

  /** `q` holds no authority that `p` did not hold, with the same dates. */
  ghost predicate NoNewAuthority(p: Session, q: Session) {
    && (q.mode != Off ==> p.mode != Off && q.acceptedAt == p.acceptedAt)
    && (q.lease.Some? ==> p.lease == q.lease && q.refreshedAt == p.refreshedAt)
  }

  lemma TickHasNoNewAuthority(c: Core, t: TickInput)
    ensures NoNewAuthority(c.p.session, TickLocked(c, t).0.p.session)
  {
    hide SetTarget, NotifyLink, EmergencyOff, RunHeater, Purge;
    var m := ModeStep(ConsumeClicks(c, t.entry).0, t.entry);
    assert NoNewAuthority(c.p.session, m.c.p.session);
    var c2 := ApplyDemand(m, t);
    assert NoNewAuthority(m.c.p.session, c2.p.session);
    BackSession(c2, t, m.trip);
  }

  lemma BackSession(c: Core, t: TickInput, tripped: bool)
    ensures var s := TickBack(c, t, tripped).p.session; s == c.p.session || s == Dropped(c.p.session)
  {
    hide Tick;
  }

  /** Only an accepted command brings a mode up, and only a command or heartbeat refreshes a lease. */
  lemma StepDatesAuthority(d: Device, s: Step)
    requires Bookkeeping(d.core.p.session) && Enabled(d, s)
    ensures var p, q := d.core.p.session, Apply(d, s).core.p.session;
            && (q.mode != Off ==>
                  if AcceptedCommand(d, s) then q.acceptedAt == TimeOf(d, s)
                  else !s.Reboot? && p.mode != Off && q.acceptedAt == p.acceptedAt)
            && (q.lease.Some? ==>
                  if Refresh(d, s) then q.refreshedAt == TimeOf(d, s)
                  else !s.Reboot? && p.lease.Some? && q.refreshedAt == p.refreshedAt)
  {
    hide Section, TickLocked;
    if HeatCommand(s) || s.Beat? {
      CommandDatesAuthority(d, s);
    } else {
      OthersGiveNoAuthority(d, s);
    }
  }

  lemma OthersGiveNoAuthority(d: Device, s: Step)
    requires Bookkeeping(d.core.p.session) && !HeatCommand(s) && !s.Beat?
    ensures var p, q := d.core.p.session, Apply(d, s).core.p.session;
            if s.Reboot? then q.mode == Off && q.lease.None? else NoNewAuthority(p, q)
  {
    hide TickLocked, SetTarget, NotifyLink;
    if s.TickStep? {
      TickHasNoNewAuthority(d.core, s.t);
    }
  }

  lemma CommandDatesAuthority(d: Device, s: Step)
    requires Bookkeeping(d.core.p.session) && Enabled(d, s) && (HeatCommand(s) || s.Beat?)
    ensures var p, q, r := d.core.p.session, Apply(d, s).core.p.session, Section(d, s).1;
            if r != Accepted then q == p
            else
              && q.acceptedAt == (if s.Beat? then p.acceptedAt else TimeOf(d, s)) && q.mode != Off
              && (s.Beat? ==> p.mode != Off)
              && (q.lease.Some? ==> Refresh(d, s) && q.refreshedAt == TimeOf(d, s))
  {
    hide TickLocked, SetTarget, NotifyLink;
  }

  lemma BootIsOff(states: seq<Device>, steps: seq<Step>)
    requires Run(states, steps)
    ensures var p := states[0].core.p;
            p.session.mode == Off && p.session.lease.None? && !p.air.heated && !p.air.cooldown
  {
  }

  ghost predicate SameBoot(steps: seq<Step>, j: int, i: int)
    requires 0 <= j <= i <= |steps|
  {
    forall k :: j <= k < i ==> !steps[k].Reboot?
  }

  lemma BookkeepingInRun(states: seq<Device>, steps: seq<Step>, i: nat)
    requires Run(states, steps) && i < |states|
    ensures Bookkeeping(states[i].core.p.session)
  {
    RunKeepsInv(states, steps, i);
  }

  /** A mode other than OFF goes back to a command accepted since boot, at the recorded time. */
  lemma {:induction false} ModeGoesBackToCommand(states: seq<Device>, steps: seq<Step>, i: nat) returns (j: nat)
    requires Run(states, steps) && i <= |steps| && states[i].core.p.session.mode != Off
    ensures j < i && SameBoot(steps, j, i) && AcceptedCommand(states[j], steps[j])
    ensures TimeOf(states[j], steps[j]) == states[i].core.p.session.acceptedAt
  {
    hide Apply, Section, CoreInv, Enabled, BootDevice;
    BootIsOff(states, steps);
    if i == 0 {
      assert false;
    }
    j := i - 1;
    BookkeepingInRun(states, steps, j);
    StepDatesAuthority(states[j], steps[j]);
    if !AcceptedCommand(states[j], steps[j]) {
      j := ModeGoesBackToCommand(states, steps, i - 1);
    }
  }

  /** A live lease goes back to the command or heartbeat that last refreshed it. */
  lemma {:induction false} LeaseGoesBackToRefresh(states: seq<Device>, steps: seq<Step>, i: nat) returns (j: nat)
    requires Run(states, steps) && i <= |steps| && states[i].core.p.session.lease.Some?
    ensures j < i && SameBoot(steps, j, i) && Refresh(states[j], steps[j])
    ensures TimeOf(states[j], steps[j]) == states[i].core.p.session.refreshedAt
  {
    hide Apply, Section, CoreInv, Enabled, BootDevice;
    BootIsOff(states, steps);
    if i == 0 {
      assert false;
    }
    j := i - 1;
    BookkeepingInRun(states, steps, j);
    StepDatesAuthority(states[j], steps[j]);
    if !Refresh(states[j], steps[j]) {
      j := LeaseGoesBackToRefresh(states, steps, i - 1);
    }
  }

  // --- The main result --------------------------------------------------------------------------

  /** The three ways heat can be authorised at a tick, told from the run itself. */
  ghost predicate HeatAuthority(states: seq<Device>, steps: seq<Step>, i: nat)
    requires Run(states, steps) && i < |steps| && steps[i].TickStep?
  {
    var c, t := states[i + 1].core, steps[i].t;
    var s := c.p.session;
    || (s.mode == PowerOn && s.lease.Some? && t.entry < s.lease.value.deadline
        && exists j :: 0 <= j < i && SameBoot(steps, j, i) && Refresh(states[j], steps[j])
             && t.heater.now - TimeOf(states[j], steps[j]) <= c.h.settings.commsMs * 1000 <= 300_000_000)
    || (s.mode == PowerOn && s.lease.None?
        && exists j :: 0 <= j < i && SameBoot(steps, j, i) && AcceptedCommand(states[j], steps[j])
             && t.entry < s.localDeadline <= TimeOf(states[j], steps[j]) + 24 * HOUR_US)
    || (s.mode == Auto && c.p.printer.connected && c.p.printer.zone > 0.0 && !c.p.printer.helper)
    || (s.mode == Drying
        && exists j :: 0 <= j < i && SameBoot(steps, j, i) && AcceptedCommand(states[j], steps[j])
             && t.entry < s.dryingDeadline <= TimeOf(states[j], steps[j]) + 12 * HOUR_US)
  }

  /** In every run, a tick that leaves the SSR on is inside the envelope and has authority, save for a
      leftover heater target below the re-apply step. */
  lemma NoHeatWithoutAuthority(states: seq<Device>, steps: seq<Step>, i: nat)
    requires Run(states, steps) && i < |steps| && steps[i].TickStep?
    requires states[i + 1].core.h.loop.on
    ensures Envelope(states[i + 1].core.h, steps[i].t.heater)
    ensures (HeatAuthority(states, steps, i) && Follows(states[i + 1].core))
            || 0.0 < states[i + 1].core.h.target < APPLY_STEP_C
  {
    hide CoreInv, TickLocked, Envelope, Section, Follows;
    RunKeepsInv(states, steps, i);
    SectionOfTick(states[i], steps[i].t);
    TickHeatsUnderAuthority(states[i].core, states[i].clock, steps[i].t);
    var c := states[i + 1].core;
    if Authorised(c.p, c.h.settings.commsMs, steps[i].t) {
      if c.p.session.mode == PowerOn && c.p.session.lease.Some? {
        var j := LeaseGoesBackToRefresh(states, steps, i + 1);
        assert SameBoot(steps, j, i);
      } else if c.p.session.mode != Auto {
        var j := ModeGoesBackToCommand(states, steps, i + 1);
        assert SameBoot(steps, j, i);
      }
    }
  }

  /** The exception needs more than a faint zone. The local thermistor, whose readings never go below 7 C, keeps it
      off; so it takes AUTO regulating by a printer that reports its own chamber below the leftover target. */
  lemma LeftoverNeedsColdPrinter(states: seq<Device>, steps: seq<Step>, i: nat)
    requires Run(states, steps) && i < |steps| && steps[i].TickStep?
    requires var chamber := steps[i].t.heater.chamber; chamber.Valid? ==> chamber.c >= 7.0
    requires states[i + 1].core.h.loop.on
    ensures (HeatAuthority(states, steps, i) && Follows(states[i + 1].core))
            || (var p := states[i + 1].core.p;
                p.session.mode == Auto && p.printer.connected && p.printer.chamber.Finite?
                && p.printer.chamber.c < APPLY_STEP_C)
  {
    hide HeatAuthority, Follows, Authorised, TickLocked, CoreInv, BootDevice;
    NoHeatWithoutAuthority(states, steps, i);
    RunKeepsInv(states, steps, i);
    SectionOfTick(states[i], steps[i].t);
    TickHeatsUnderAuthority(states[i].core, states[i].clock, steps[i].t);
    hide Section;
  }

  lemma SectionOfTick(d: Device, t: TickInput)
    ensures Section(d, TickStep(t)).0 == TickLocked(d.core, t).0
  {
  }

  // --- The exception, exactly -------------------------------------------------------------------

  /** A zone request the policy can withdraw again: none, or at least the re-apply step. */
  predicate VisibleZone(z: Float) {
    Zone(z) == 0.0 || Zone(z) >= APPLY_STEP_C
  }

  ghost predicate Visible(c: Core) {
    && (c.p.printer.zone == 0.0 || c.p.printer.zone >= APPLY_STEP_C)
    && (c.h.target == 0.0 || c.h.target >= APPLY_STEP_C)
    && (c.p.session.mode == PowerOn || c.p.session.mode == Drying ==> c.p.session.requested >= MIN_MODE_TARGET_C)
  }

  lemma ModeStepKeepsVisible(c: Core, entry: int)
    requires Visible(c) && Safe(c.h)
    ensures var m := ModeStep(c, entry); Visible(m.c) && (m.target == 0.0 || m.target >= APPLY_STEP_C)
  {
  }

  lemma ApplyKeepsVisible(m: Demand, t: TickInput)
    requires Visible(m.c) && Safe(m.c.h) && (m.target == 0.0 || m.target >= APPLY_STEP_C)
    ensures Visible(ApplyDemand(m, t))
  {
  }

  lemma BackKeepsVisible(c: Core, t: TickInput, tripped: bool)
    requires Visible(c)
    ensures Visible(TickBack(c, t, tripped))
  {
    hide Control;
  }

  lemma TickKeepsVisible(c: Core, clock: int, t: TickInput)
    requires CoreInv(c, clock) && Visible(c)
    ensures Visible(TickLocked(c, t).0)
  {
    var c1 := ConsumeClicks(c, t.entry).0;
    ConsumeKeepsInv(c, clock, t.entry);
    assert Visible(c1);
    hide ModeStep, ApplyDemand, TickBack, Visible;
    ModeStepKeepsVisible(c1, t.entry);
    ModeStepKeepsInv(c1, clock, t.entry);
    var m := ModeStep(c1, t.entry);
    ApplyKeepsVisible(m, t);
    BackKeepsVisible(ApplyDemand(m, t), t, m.trip);
  }

  lemma CommandKeepsVisible(d: Device, s: Step)
    requires Inv(d) && Visible(d.core) && HeatCommand(s)
    ensures Visible(Apply(d, s).core)
  {
    hide TickLocked, Bookkeeping, Deadlines, BootCore;
  }

  lemma StepKeepsVisible(d: Device, s: Step)
    requires Inv(d) && Visible(d.core) && (s.Env? ==> VisibleZone(s.zone))
    ensures Visible(Apply(d, s).core)
  {
    hide TickLocked, Bookkeeping, Deadlines, SetPowerOn, SetButtonPowerOn, SetAuto, StartDrying;
    if HeatCommand(s) {
      CommandKeepsVisible(d, s);
    } else if s.TickStep? {
      TickKeepsVisible(d.core, d.clock, s.t);
    } else if s.Reboot? {
      BootIsSafe(s.b.now, d.core.h.latch.store, s.b.stored, s.b.read);
    }
  }

  lemma BootIsVisible(store: FaultStore, b: BootInput)
    ensures Visible(BootDevice(store, 0, b).core)
  {
    BootIsSafe(b.now, store, b.stored, b.read);
  }

  lemma {:induction false} RunKeepsVisible(states: seq<Device>, steps: seq<Step>, i: nat)
    requires Run(states, steps) && i < |states|
    requires forall k :: 0 <= k < |steps| && steps[k].Env? ==> VisibleZone(steps[k].zone)
    ensures Visible(states[i].core)
  {
    hide Inv, Visible, VisibleZone, Apply, BootDevice;
    if i == 0 {
      var store: FaultStore, b: BootInput :| b.now >= 0 && states[0] == BootDevice(store, 0, b);
      BootIsVisible(store, b);
    } else {
      RunKeepsVisible(states, steps, i - 1);
      RunKeepsInv(states, steps, i - 1);
      StepKeepsVisible(states[i - 1], steps[i - 1]);
    }
  }

  /** With visible zone requests, such as the whole degrees the sources send, heat always has authority. */
  lemma VisibleZonesNeedAuthority(states: seq<Device>, steps: seq<Step>, i: nat)
    requires Run(states, steps) && i < |steps| && steps[i].TickStep?
    requires forall k :: 0 <= k < |steps| && steps[k].Env? ==> VisibleZone(steps[k].zone)
    ensures states[i + 1].core.h.loop.on ==> HeatAuthority(states, steps, i) && Follows(states[i + 1].core)
  {
    if states[i + 1].core.h.loop.on {
      NoHeatWithoutAuthority(states, steps, i);
      RunKeepsVisible(states, steps, i + 1);
    }
  }

  const FRESH_BOOT :=
    BootInput(0, ReadsBack(true), Stored(None, None, None, None, None), Moonraker, DEFAULT_PARAMS)

  function CoolTick(): TickInput {
    TickInput(0, true, Surroundings(0, true, true, true, Valid(20.0), Valid(20.0), 82, PidFailed), 20.0, 20.0)
  }

  function ReportZone(zone: real): Step {
    Env(Finite(0.0), true, Finite(zone), Finite(-10.0))
  }

  /** An AUTO device that applied the target, with a cold printer chamber and nothing pending. */
  ghost predicate Following(d: Device, target: real, zone: real) {
    FollowingCore(d.core, target, zone) && d.clock == 0 && d.clearing.None? && d.start.None?
  }

  ghost predicate FollowingCore(c: Core, target: real, zone: real) {
    && c.p.session.mode == Auto && c.p.printer == Printer(true, false, 0.0, zone, Finite(-10.0))
    && c.h.target == target && !c.h.latch.Faulted() && !c.h.latch.pending && c.h.lastLink == 0
    && c.p.clicks.count == 0 && !c.p.lastFaulted
    && c.h.settings == Settings(70.0, 300_000, 40.0, 0.0, BangBang)
  }

  lemma FollowingFront(c: Core, target: real, zone: real)
    requires FollowingCore(c, target, zone) && 0.0 <= target <= 70.0 && 0.0 <= zone <= 70.0
    ensures var m := ModeStep(c, 0);
            var applied := if Abs(target - zone) >= APPLY_STEP_C then zone else target;
            ConsumeClicks(c, 0) == (c, 0) && FollowingCore(ApplyDemand(m, CoolTick()), applied, zone)
  {
  }

  lemma FollowingBack(c: Core, target: real, zone: real)
    requires FollowingCore(c, target, zone) && 0.0 <= target <= 70.0
    ensures var r := TickBack(c, CoolTick(), false);
            FollowingCore(r, target, zone) && (target > 0.0 ==> r.h.loop.on)
  {
    var c2 := RunHeater(c, CoolTick());
    assert c2.h.target == target && (target > 0.0 ==> c2.h.loop.on) && c2.h.latch == c.h.latch;
    hide Tick;
  }

  /** Ticking such a device re-applies a new zone only when it differs by the re-apply step, and heats. */
  lemma FollowingTicks(d: Device, target: real, zone: real)
    requires Following(d, target, zone) && 0.0 <= target <= 70.0 && 0.0 <= zone <= 70.0
    ensures var r := Apply(d, TickStep(CoolTick()));
            var applied := if Abs(target - zone) >= APPLY_STEP_C then zone else target;
            Enabled(d, TickStep(CoolTick())) && Following(r, applied, zone) && (applied > 0.0 ==> r.core.h.loop.on)
  {
    var c, t := d.core, CoolTick();
    FollowingFront(c, target, zone);
    var m := ModeStep(c, 0);
    var c2 := ApplyDemand(m, t);
    assert TickLocked(c, t) == (TickBack(c2, t, m.trip), None);
    hide ModeStep, ApplyDemand;
    FollowingBack(c2, c2.h.target, zone);
    hide TickLocked, TickBack, FollowingCore;
  }

  lemma FollowingReports(d: Device, target: real, zone: real, next: real)
    requires Following(d, target, zone) && 0.0 <= next <= 70.0
    ensures Enabled(d, ReportZone(next)) && Following(Apply(d, ReportZone(next)), target, next)
  {
    hide TickLocked;
  }

  predicate ZoneAmong(s: Step, z: real) {
    s.Env? ==> s.zone in {Finite(50.0), Finite(z), Finite(0.0)}
  }

  /** Some run whose zone requests are 50, z and 0 only ends in this device. */
  ghost predicate Reaches(d: Device, z: real) {
    exists states: seq<Device>, steps: seq<Step> ::
      Run(states, steps) && states[|steps|] == d && forall s <- steps :: ZoneAmong(s, z)
  }

  lemma ReachesNext(d: Device, s: Step, z: real)
    requires Reaches(d, z) && Enabled(d, s) && ZoneAmong(s, z)
    ensures Reaches(Apply(d, s), z)
  {
    hide Apply, Enabled, ZoneAmong, BootDevice;
    var states: seq<Device>, steps: seq<Step> :|
      Run(states, steps) && states[|steps|] == d && forall r <- steps :: ZoneAmong(r, z);
    var states', steps' := RunGoesOn(states, steps, s);
    assert forall r <- steps' :: r in steps || r == s;
    assert states'[|steps'|] == Apply(d, s);
  }

  function FreshDevice(): Device {
    BootDevice(FaultStore(None, None), 0, FRESH_BOOT)
  }

  function FreshAuto(): Step {
    AutoCmd(0, Finite(50.0), Finite(100.0), Web, 1)
  }

  lemma FreshFollows()
    ensures var d := Apply(FreshDevice(), FreshAuto());
            && Enabled(FreshDevice(), FreshAuto()) && Enabled(d, ReportZone(50.0))
            && Following(Apply(d, ReportZone(50.0)), 0.0, 50.0)
  {
    hide TickLocked;
    var d := Apply(FreshDevice(), FreshAuto());
    assert Section(FreshDevice(), FreshAuto()).1 == Accepted && d.core.p.session.mode == Auto;
  }

  lemma FollowingStarts(z: real) returns (d2: Device)
    ensures Reaches(d2, z) && Following(d2, 0.0, 50.0)
  {
    hide Apply, Enabled, BootDevice, Following;
    var d0 := FreshDevice();
    var auto := FreshAuto();
    FreshFollows();
    assert FRESH_BOOT.now >= 0;
    assert Run([d0], []);
    assert Reaches(d0, z);
    var d1 := Apply(d0, auto);
    ReachesNext(d0, auto, z);
    d2 := Apply(d1, ReportZone(50.0));
    ReachesNext(d1, ReportZone(50.0), z);
  }

  /** A run in which AUTO followed a 50 C zone and then applied the faint one. */
  lemma FaintZoneIsApplied(z: real) returns (d: Device)
    requires 0.0 < z < APPLY_STEP_C
    ensures Reaches(d, z) && Following(d, z, z)
  {
    hide Apply, Enabled, Following, CoolTick, Reaches;
    var tick := TickStep(CoolTick());
    var d2 := FollowingStarts(z);
    FollowingTicks(d2, 0.0, 50.0);
    ReachesNext(d2, tick, z);
    var d3 := Apply(d2, tick);
    FollowingReports(d3, 50.0, 50.0, z);
    ReachesNext(d3, ReportZone(z), z);
    var d4 := Apply(d3, ReportZone(z));
    FollowingTicks(d4, 50.0, z);
    ReachesNext(d4, tick, z);
    d := Apply(d4, tick);
  }

  /** Every faint zone request z has a run that breaks the rule: AUTO follows a 50 C zone, then z, then none,
      and the tick after that heats with no authority while the printer's chamber reads -10 C. */
  lemma FaintZoneHeatsUnauthorised(z: real) returns (states: seq<Device>, steps: seq<Step>, i: nat)
    requires !VisibleZone(Finite(z))
    ensures Run(states, steps) && i + 1 == |steps| && steps[i].TickStep? && states[i + 1].core.h.loop.on
    ensures !HeatAuthority(states, steps, i)
    ensures forall s <- steps :: ZoneAmong(s, z)
  {
    assert 0.0 < z < APPLY_STEP_C;
    hide Apply, Enabled, HeatAuthority, Following, CoolTick, VisibleZone, Reaches;
    var d5 := FaintZoneIsApplied(z);
    FollowingReports(d5, z, z, 0.0);
    ReachesNext(d5, ReportZone(0.0), z);
    var d6 := Apply(d5, ReportZone(0.0));
    FollowingTicks(d6, z, 0.0);
    states, steps, i := EndsUnauthorised(d6, z);
  }

  lemma EndsUnauthorised(d: Device, z: real) returns (states: seq<Device>, steps: seq<Step>, i: nat)
    requires Reaches(d, z) && Enabled(d, TickStep(CoolTick()))
    requires var e := Apply(d, TickStep(CoolTick())); Following(e, z, 0.0) && e.core.h.loop.on
    ensures Run(states, steps) && i + 1 == |steps| && steps[i].TickStep? && states[i + 1].core.h.loop.on
    ensures !HeatAuthority(states, steps, i) && forall s <- steps :: ZoneAmong(s, z)
  {
    hide Apply, Enabled, HeatAuthority, Following, BootDevice;
    var before: seq<Device>, given: seq<Step> :|
      Run(before, given) && before[|given|] == d && forall r <- given :: ZoneAmong(r, z);
    states, steps := RunGoesOn(before, given, TickStep(CoolTick()));
    i := |given|;
    WithdrawnZoneIsNoAuthority(states, steps, i, z);
  }

  lemma WithdrawnZoneIsNoAuthority(states: seq<Device>, steps: seq<Step>, i: nat, target: real)
    requires Run(states, steps) && i < |steps| && steps[i].TickStep? && Following(states[i + 1], target, 0.0)
    ensures !HeatAuthority(states, steps, i)
  {
  }
}
