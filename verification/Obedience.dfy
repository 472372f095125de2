/** Heat that was asked for is given: what every tick makes of the mode in force, and how an accepted command holds
    over a run until something ends it. */
module Obedience {
  import opened Values
  import opened HeaterSpec
  import opened PolicySpec
  import opened System
  import opened Authority
  import opened Commands

  // --- One tick -----------------------------------------------------------------------------------

  /** A tick finds the lease of a POWER_ON run expired. */
  predicate LeaseOver(s: Session, entry: int) {
    s.mode == PowerOn && s.lease.Some? && entry >= s.lease.value.deadline
  }

  /** A tick finds the time of a local run, or of drying, over. */
  predicate TimeOver(s: Session, entry: int) {
    || (s.mode == PowerOn && s.lease.None? && entry >= s.localDeadline)
    || (s.mode == Drying && entry >= s.dryingDeadline)
  }

  predicate Over(s: Session, entry: int) {
    LeaseOver(s, entry) || TimeOver(s, entry)
  }

  /** AUTO is asked for a zone by a connected printer that no helper drives. */
  predicate Engages(p: Policy) {
    p.printer.connected && !p.printer.helper && p.printer.zone > 0.0
  }

  /** The mode after a tick that leaves the heater unfaulted: a run that is over gives way to AUTO as remembered, if
      it replaced AUTO, or to OFF; any other stays, and AUTO is engaged exactly when it is asked for a zone. */
  ghost predicate ModeAfter(p: Policy, q: Policy, entry: int) {
    var s, r := p.session, q.session;
    if TimeOver(s, entry) then
      && r.lease.None? && r.localDeadline == 0 && r.dryingDeadline == 0 && !r.autoEngaged
      && (if s.mode == PowerOn && s.resume == Auto
          then r.mode == Auto && r.requested == p.params.autoTarget && r.bedThreshold == p.params.autoBed
          else r.mode == Off && r.requested == 0.0)
    else if s.mode == Auto
    then r == s.(autoEngaged := Engages(p))
    else r == s
  }

  lemma ModeStepModes(c: Core, clock: int, entry: int)
    requires CoreInv(c, clock)
    ensures var m := ModeStep(c, entry);
            && (m.trip <==> LeaseOver(c.p.session, entry))
            && (m.trip ==> m.c == c)
            && (!m.trip ==> ModeAfter(c.p, m.c.p, entry))
            && (!m.trip ==> m.target == Asked(m.c.p))
            && m.c.h == c.h.(target := m.c.h.target)
            && m.c.p.printer == c.p.printer && m.c.p.params == c.p.params && m.c.p.dirty == c.p.dirty
            && m.c.p.controlSource == c.p.controlSource && m.c.p.lastFaulted == c.p.lastFaulted
            && m.target >= 0.0
            && (!m.trip && m.target > 0.0 ==> (m.autonomous <==> m.c.p.session.lease.None?))
  {
  }

  lemma ApplyObeys(m: Demand, t: TickInput)
    requires Safe(m.c.h) && 0.0 <= m.target
    ensures var r := ApplyDemand(m, t);
            && r.h.settings == m.c.h.settings
            && (m.trip ==> r.h.latch.latched && r.p == m.c.p.(session := r.p.session, stamp := r.p.stamp))
            && (!m.trip ==>
                  && r.p == m.c.p && r.h == m.c.h.(target := r.h.target, lastLink := r.h.lastLink)
                  && r.h.lastLink == (if m.autonomous && m.target > 0.0 then t.heater.now else m.c.h.lastLink)
                  && (m.c.h.latch.Faulted()
                      || -0.05 < r.h.target - m.target < 0.05 || r.h.target == r.h.settings.maxTarget <= m.target))
  {
  }

  /** What follows the mode decision moves neither target nor link, nor the mode, unless the heater faults. */
  lemma BackObeys(c: Core, t: TickInput, tripped: bool)
    ensures var r := TickBack(c, t, tripped);
            && r.p.printer == c.p.printer && r.p.params == c.p.params && r.p.dirty == c.p.dirty
            && r.p.controlSource == c.p.controlSource && r.h.settings == c.h.settings
            && r.h.lastLink == c.h.lastLink && (c.h.latch.latched ==> r.h.latch.latched)
            && (c.h.latch.inhibited ==> r.h.latch.inhibited)
            && (!r.h.latch.Faulted() ==> r.p.session == c.p.session && r.h.target == c.h.target)
            && (r.h.latch.Faulted() ==> c.h.latch.Faulted() || r.h.latch.latched)
  {
    hide Control, WriteFault, Filtering, PurgeDecide;
    var h := SetControlChamber(c.h, ControlChamber(c.p));
    var r := Tick(h, t.heater);
    assert r.settings == c.h.settings && r.lastLink == c.h.lastLink && (c.h.latch.latched ==> r.latch.latched);
    assert r.latch.inhibited == c.h.latch.inhibited;
    assert !r.latch.Faulted() ==> r.target == c.h.target;
    assert r.latch.Faulted() ==> c.h.latch.Faulted() || r.latch.latched;
    hide Tick;
  }

  /** Every tick, from any state: while the heater is unfaulted the mode goes on until it is over, the target is what
      the mode asks for, and a run that answers to no remote controller keeps the link fresh by itself. A lease that is
      over latches the heater off. The printer, the parameters and the settings are no business of a tick. */
  lemma TickObeys(c: Core, clock: int, t: TickInput)
    requires CoreInv(c, clock) && clock <= t.heater.now
    ensures var r := TickLocked(c, t).0;
            && (LeaseOver(c.p.session, t.entry) ==> r.h.latch.latched)
            && (!r.h.latch.Faulted() ==>
                  && ModeAfter(c.p, r.p, t.entry) && Follows(r)
                  && r.h.lastLink == if r.p.session.lease.None? && Asked(r.p) > 0.0 then t.heater.now else c.h.lastLink)
            && (r.h.latch.Faulted() ==> r.p.session.mode == Off && r.h.target == 0.0)
            && r.p.printer == c.p.printer && r.p.params == c.p.params && r.p.dirty == c.p.dirty
            && r.p.controlSource == c.p.controlSource && r.h.settings == c.h.settings
  {
    hide ModeStep, ApplyDemand, TickBack;
    TickKeepsInv(c, clock, t);
    ConsumeKeepsInv(c, clock, t.entry);
    var c1 := ConsumeClicks(c, t.entry).0;
    assert c1 == c.(p := c.p.(clicks := c1.p.clicks));
    ModeStepModes(c1, clock, t.entry);
    var m := ModeStep(c1, t.entry);
    ModeStepKeepsInv(c1, clock, t.entry);
    ApplyObeys(m, t);
    BackObeys(ApplyDemand(m, t), t, m.trip);
    hide ConsumeClicks, Bookkeeping, Deadlines;
  }

  // --- Revision and air of a tick ------------------------------------------------------------------

  /** Filtration as the tick finds it: a run that gives way to AUTO forgets it. */
  predicate WasFiltering(p: Policy, entry: int) {
    p.air.filtering && !(TimeOver(p.session, entry) && p.session.mode == PowerOn && p.session.resume == Auto)
  }

  /** The fan-only filtration band: on from the bed temperature asked for up, off again 3 C below. */
  predicate Filters(p: Policy, was: bool) {
    && p.printer.connected && p.params.filterEnable
    && p.printer.bedTarget >= if was then p.params.filterTemp - 3.0 else p.params.filterTemp
  }

  lemma FrontMoves(c: Core, clock: int, t: TickInput)
    requires CoreInv(c, clock)
    ensures var s, m := c.p.session, ModeStep(ConsumeClicks(c, t.entry).0, t.entry);
            var p := ApplyDemand(m, t).p;
            && p.stamp.epoch == c.p.stamp.epoch
                 + (if Over(s, t.entry) || (s.mode == Auto && s.autoEngaged != Engages(c.p)) then 1 else 0)
            && p.stamp.source == (if Over(s, t.entry) then Watchdog else c.p.stamp.source)
            && p.air == c.p.air.(filtering := WasFiltering(c.p, t.entry))
            && p.lastFaulted == c.p.lastFaulted && p.printer == c.p.printer && p.params == c.p.params
            && (m.trip <==> LeaseOver(s, t.entry))
  {
    var c1 := ConsumeClicks(c, t.entry).0;
    assert c1 == c.(p := c.p.(clicks := c1.p.clicks));
    hide ConsumeClicks, Safe, Deadlines, SetTarget, EmergencyOff;
  }

  lemma BackMoves(c: Core, t: TickInput, tripped: bool)
    ensures var r := TickBack(c, t, tripped);
            var faults := r.h.latch.Faulted() && !c.p.lastFaulted && !tripped;
            && r.p.air.filtering == Filters(c.p, c.p.air.filtering) && r.p.air.requested == c.p.air.requested
            && r.p.stamp.epoch == c.p.stamp.epoch
                 + (if faults then 1 else 0) + (if r.p.air.filtering != c.p.air.filtering then 1 else 0)
            && r.p.stamp.source == (if faults then Safety else c.p.stamp.source)
            && r.p.lastFaulted == r.h.latch.Faulted()
            && r.p.air.level == (if (r.h.HeatMode() || r.h.latch.Faulted() || r.p.air.cooldown || r.p.air.filtering)
                                    && r.p.air.requested < 30
                                 then 30 else r.p.air.requested)
  {
    hide Tick, PurgeDecide;
  }

  /** A tick moves the revision once for each of what observers see change: a mode that is over or an AUTO that engages
      or lets go, a fault found by the heater, and filtration switched. The author is the watchdog for a mode that is
      over and the safety logic for a fault. The blower runs as asked, and at least at 30 percent whenever heat, a
      fault, a purge or filtration wants air. */
  lemma TickMovesRevision(c: Core, clock: int, t: TickInput)
    requires CoreInv(c, clock) && clock <= t.heater.now
    ensures var r, s := TickLocked(c, t).0, c.p.session;
            var was := WasFiltering(c.p, t.entry);
            var faults := r.h.latch.Faulted() && !c.p.lastFaulted && !LeaseOver(s, t.entry);
            && r.p.air.filtering == Filters(c.p, was) && r.p.air.requested == c.p.air.requested
            && r.p.stamp.epoch == c.p.stamp.epoch
                 + (if Over(s, t.entry) || (s.mode == Auto && s.autoEngaged != Engages(c.p)) then 1 else 0)
                 + (if faults then 1 else 0) + (if r.p.air.filtering != was then 1 else 0)
            && r.p.stamp.source == (if faults then Safety else if Over(s, t.entry) then Watchdog else c.p.stamp.source)
            && r.p.lastFaulted == r.h.latch.Faulted()
            && r.p.air.level == (if (r.h.HeatMode() || r.h.latch.Faulted() || r.p.air.cooldown || r.p.air.filtering)
                                    && r.p.air.requested < 30
                                 then 30 else r.p.air.requested)
  {
    FrontMoves(c, clock, t);
    var m := ModeStep(ConsumeClicks(c, t.entry).0, t.entry);
    var c2 := ApplyDemand(m, t);
    BackMoves(c2, t, m.trip);
    assert TickLocked(c, t).0 == TickBack(c2, t, m.trip);
    hide TickLocked, TickBack, ModeStep, ConsumeClicks, ApplyDemand, CoreInv;
  }

  // --- A command over a run -------------------------------------------------------------------------

  /** The steps that end what is in force: a new command, a stop, a clear, a panic, a boot, or a tick that finds it
      over or the heater faulted. */
  ghost predicate Ends(d: Device, s: Step) {
    || AcceptedCommand(d, s) || s.OffCmd? || s.StopRun? || s.ClearRest? || s.Panic? || s.Reboot?
    || (s.TickStep? && (Over(d.core.p.session, s.t.entry) || Apply(d, s).core.h.latch.Faulted()))
  }

  ghost predicate Undisturbed(states: seq<Device>, steps: seq<Step>, i: nat, k: nat)
    requires Run(states, steps) && i < k <= |steps|
  {
    forall m :: i < m < k ==> !Ends(states[m], steps[m])
  }

  /** Only engagement and the lease's deadline move while nothing ends the mode: engagement at a tick, the deadline at
      an accepted heartbeat. */
  lemma QuietStep(d: Device, s: Step)
    requires Inv(d) && Enabled(d, s) && !Ends(d, s)
    ensures var p, q := d.core.p.session, Apply(d, s).core.p.session;
            && q == p.(autoEngaged := q.autoEngaged, lease := q.lease, refreshedAt := q.refreshedAt)
            && q.lease == if Refresh(d, s) && p.lease.Some?
                          then Some(Lease(p.lease.value.id, TimeOf(d, s) + d.core.h.settings.commsMs * 1000))
                          else p.lease
  {
    hide TickLocked, CoreInv;
    if HeatCommand(s) {
      AcceptedExactly(d, s);
    } else if s.TickStep? {
      TickObeys(d.core, d.clock, s.t);
    } else if s.Beat? {
      HeartbeatAnswers(d, s.now, s.id);
    } else {
      OtherQuietStep(d, s);
    }
    hide Section;
  }

  lemma OtherQuietStep(d: Device, s: Step)
    requires !Ends(d, s) && !HeatCommand(s) && !s.TickStep? && !s.Beat?
    ensures Apply(d, s).core.p.session == d.core.p.session
  {
    hide TickLocked;
  }

  predicate OnLease(s: Step) {
    s.PowerOnCmd? && (s.src == Web || s.src == Klipper)
  }

  /** When what the command put in force is over, if nothing ends it before: one comms timeout after the command or
      the last heartbeat accepted since, so many hours after the command, or never. */
  ghost function OverAt(states: seq<Device>, steps: seq<Step>, i: nat, k: nat): Option<int>
    requires Run(states, steps) && i < k <= |steps| && HeatCommand(steps[i])
  {
    var d, s := states[k - 1], steps[k - 1];
    if steps[i].AutoCmd? then None
    else if !OnLease(steps[i]) then Some(TimeOf(states[i], steps[i]) + HoursOf(states[i], steps[i]) * 3_600_000_000)
    else if k == i + 1 || Refresh(d, s) then Some(TimeOf(d, s) + d.core.h.settings.commsMs * 1000)
    else OverAt(states, steps, i, k - 1)
  }

  /** The session holds what the command asked for. */
  ghost predicate InForce(d: Device, s: Step, over: Option<int>, q: Session)
    requires HeatCommand(s)
  {
    && q.mode == (if s.AutoCmd? then Auto else if s.DryCmd? then Drying else PowerOn)
    && Named(d, s).Finite? && q.requested == Min(Named(d, s).c, d.core.h.settings.maxTarget)
    && (s.AutoCmd? ==> over.None? && s.bed.Finite? && q.bedThreshold == s.bed.c)
    && (if OnLease(s) then over.Some? && q.lease == Some(Lease(d.core.p.session.issued + 1, over.value))
        else q.lease.None?)
    && (s.DryCmd? ==> over == Some(q.dryingDeadline))
    && (q.mode == PowerOn && !OnLease(s) ==> over == Some(q.localDeadline))
  }

  lemma CommandTakesForce(d: Device, s: Step)
    requires Inv(d) && Enabled(d, s) && AcceptedCommand(d, s)
    ensures var over := if s.AutoCmd? then None
                        else if OnLease(s) then Some(TimeOf(d, s) + d.core.h.settings.commsMs * 1000)
                        else Some(TimeOf(d, s) + HoursOf(d, s) * 3_600_000_000);
            InForce(d, s, over, Apply(d, s).core.p.session)
  {
    hide Section, Apply, Elsewhere, Moved, Inv, NamesCurrent, Enabled;
    AcceptedCommandLeaves(d, s);
    AcceptedExactly(d, s);
  }

  /** An accepted command stays in force, with its own target and the end it set, until something ends it. Heartbeats
      move the end of a remote run and nothing else. */
  lemma {:induction false} CommandHolds(states: seq<Device>, steps: seq<Step>, i: nat, k: nat)
    requires Run(states, steps) && i < k <= |steps| && AcceptedCommand(states[i], steps[i])
    requires Undisturbed(states, steps, i, k)
    ensures InForce(states[i], steps[i], OverAt(states, steps, i, k), states[k].core.p.session)
  {
    hide Section, Apply, Enabled, BootDevice, Inv, Ends;
    RunKeepsInv(states, steps, k - 1);
    if k == i + 1 {
      CommandTakesForce(states[i], steps[i]);
    } else {
      CommandHolds(states, steps, i, k - 1);
      QuietStep(states[k - 1], steps[k - 1]);
      if Refresh(states[k - 1], steps[k - 1]) {
        RefreshNeedsLease(states[k - 1], steps[k - 1]);
      }
    }
  }

  lemma RefreshNeedsLease(d: Device, s: Step)
    requires Enabled(d, s) && !Ends(d, s) && Refresh(d, s)
    ensures s.Beat? && d.core.p.session.lease.Some?
  {
    hide TickLocked, Apply;
    if s.Beat? {
      HeartbeatAnswers(d, s.now, s.id);
    }
  }

  /** What an undisturbed command makes of a tick: until it is over the tick leaves its mode in force and the heater
      at its target, or for AUTO at the zone the printer asks for; the first tick that finds it over ends it, and a
      remote one latches the heater off. Only a fault ends it sooner. */
  lemma CommandIsObeyed(states: seq<Device>, steps: seq<Step>, i: nat, k: nat)
    requires Run(states, steps) && i < k < |steps| && AcceptedCommand(states[i], steps[i])
    requires Undisturbed(states, steps, i, k) && steps[k].TickStep?
    ensures var s, c, t := steps[i], states[k + 1].core, steps[k].t;
            var over, before := OverAt(states, steps, i, k), states[k].core.p.session;
            var wanted := if !s.AutoCmd? then before.requested
                          else if c.p.printer.connected && !c.p.printer.helper then c.p.printer.zone else 0.0;
            && InForce(states[i], s, over, before)
            && (over.Some? && t.entry >= over.value ==>
                  && (c.p.session.mode == Off || (c.p.session.mode == Auto && !c.p.session.autoEngaged))
                  && c.h.target < 0.05 && (OnLease(s) ==> c.h.latch.latched))
            && (over.None? || t.entry < over.value ==>
                  c.h.latch.Faulted()
                  || (InForce(states[i], s, over, c.p.session)
                      && (-0.05 < c.h.target - wanted < 0.05 || c.h.target == c.h.settings.maxTarget <= wanted)))
  {
    hide Section, TickLocked, BootDevice, Ends, OverAt;
    CommandHolds(states, steps, i, k);
    RunKeepsInv(states, steps, k);
    SectionOfTick(states[k], steps[k].t);
    TickObeys(states[k].core, states[k].clock, steps[k].t);
    assert states[k + 1].core == TickLocked(states[k].core, steps[k].t).0;
    hide Run, Undisturbed, CoreInv;
    var over, q, entry := OverAt(states, steps, i, k), states[k].core.p.session, steps[k].t.entry;
    assert TimeOver(q, entry) <==> over.Some? && !OnLease(steps[i]) && entry >= over.value;
  }
}
