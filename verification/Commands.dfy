/** What every command answers and leaves behind, told from the state before and after it. */
module Commands {
  import opened Values
  import opened SafetyRules
  import opened HeaterSpec
  import opened PolicySpec
  import opened System
  import opened Authority
  import opened Revision

  // --- The answer to a heat command ---------------------------------------------------------------

  /** The target a heat command names; a delayed start names the remembered one it read. */
  function Named(d: Device, s: Step): Float
    requires HeatCommand(s)
  {
    match s
    case PowerOnCmd(_, t, _, _) => t
    case ButtonPowerOnCmd(_, t, _, _) => t
    case AutoCmd(_, t, _, _, _) => t
    case DryCmd(_, t, _, _, _) => t
    case DelayedStart(_) => if d.startTarget.Some? then Finite(d.startTarget.value) else NonFinite
  }

  /** How long a heat command asks for, in hours; zero where it sets no deadline of its own. */
  function HoursOf(d: Device, s: Step): nat
    requires HeatCommand(s)
  {
    match s
    case PowerOnCmd(_, _, src, _) => if src == Web || src == Klipper then 0 else 12
    case ButtonPowerOnCmd(_, _, hours, _) => hours
    case DryCmd(_, _, hours, _, _) => hours
    case DelayedStart(_) => if d.start.Some? then d.start.value.hours else 0
    case AutoCmd(_, _, _, _, _) => 0
  }

  /** The argument besides target and revision is out of its range. */
  ghost predicate Malformed(d: Device, s: Step)
    requires HeatCommand(s)
  {
    match s
    case AutoCmd(_, _, bed, _, _) => bed.NonFinite? || bed.c < 40.0 || bed.c > 120.0
    case DryCmd(_, _, hours, _, _) => hours == 0 || hours > 12
    case PowerOnCmd(_, _, _, _) => false
    case _ => HoursOf(d, s) !in {6, 12, 18, 24}
  }

  /** Only an unbound device may be started from the panel for some hours. */
  ghost predicate NotUnbound(d: Device, s: Step) {
    (s.ButtonPowerOnCmd? || s.DelayedStart?) && d.core.p.controlSource != Unbound
  }

  ghost predicate NamesCurrent(d: Device, s: Step)
    requires Gated(d, s)
  {
    Expected(d, s) == 0xFFFF_FFFF || Expected(d, s) == d.core.p.stamp.revision
  }

  ghost predicate TooCold(d: Device, s: Step)
    requires HeatCommand(s)
  {
    Named(d, s).NonFinite? || Named(d, s).c < 30.0
  }

  /** The reason to refuse a heat command, if any: the first of six that applies. */
  ghost predicate Reason(d: Device, s: Step, k: nat)
    requires HeatCommand(s) && Gated(d, s)
  {
    match k
    case 0 => Malformed(d, s)
    case 1 => NotUnbound(d, s)
    case 2 => !NamesCurrent(d, s)
    case 3 => TooCold(d, s)
    case 4 => d.core.h.latch.inhibited
    case 5 => d.core.h.latch.latched
    case _ => false
  }

  lemma AnswerIs(d: Device, s: Step)
    requires Enabled(d, s) && HeatCommand(s)
    ensures Section(d, s).1 == (if Malformed(d, s) then InvalidCommand
                                else if NotUnbound(d, s) then Busy
                                else if !NamesCurrent(d, s) then RevisionConflict
                                else if TooCold(d, s) then InvalidCommand
                                else if d.core.h.latch.inhibited then Inhibited
                                else if d.core.h.latch.latched then FaultLatched
                                else Accepted)
    ensures Section(d, s).1 != Accepted ==> Apply(d, s).core == d.core
  {
    hide TickLocked, BootCore, EnterPowerOn, EnterAuto, EnterDrying, SetOff, RestoreOrOff;
  }

  const REFUSALS := [InvalidCommand, Busy, RevisionConflict, InvalidCommand, Inhibited, FaultLatched]

  /** A heat command is accepted exactly when nothing speaks against it; otherwise the answer is that of the first
      reason and nothing changes. */
  lemma HeatCommandAnswers(d: Device, s: Step, k: nat)
    requires Enabled(d, s) && HeatCommand(s)
    ensures var r := Section(d, s).1;
            && (r == Accepted <==> forall j: nat :: !Reason(d, s, j))
            && (Reason(d, s, k) && (forall j :: 0 <= j < k ==> !Reason(d, s, j)) ==> r == REFUSALS[k])
            && (r != Accepted ==> Apply(d, s).core == d.core)
  {
    hide TickLocked, BootCore, EnterPowerOn, EnterAuto, EnterDrying, SetOff, RestoreOrOff;
    AnswerIs(d, s);
    hide Section, Apply;
    assert Reason(d, s, 0) <==> Malformed(d, s);
    assert Reason(d, s, 1) <==> NotUnbound(d, s);
    assert Reason(d, s, 2) <==> !NamesCurrent(d, s);
    assert Reason(d, s, 3) <==> TooCold(d, s);
    assert Reason(d, s, 4) <==> d.core.h.latch.inhibited;
    assert Reason(d, s, 5) <==> d.core.h.latch.latched;
  }

  lemma AcceptedExactly(d: Device, s: Step)
    requires Enabled(d, s) && HeatCommand(s)
    ensures Section(d, s).1 == Accepted <==>
              && !Malformed(d, s) && !NotUnbound(d, s) && NamesCurrent(d, s) && !TooCold(d, s)
              && !d.core.h.latch.inhibited && !d.core.h.latch.latched
    ensures Section(d, s).1 != Accepted ==> Apply(d, s).core == d.core
  {
    hide Section, Apply;
    HeatCommandAnswers(d, s, 0);
    assert forall j: nat :: Reason(d, s, j) ==> j <= 5;
    assert Reason(d, s, 0) <==> Malformed(d, s);
    assert Reason(d, s, 1) <==> NotUnbound(d, s);
    assert Reason(d, s, 2) <==> !NamesCurrent(d, s);
    assert Reason(d, s, 3) <==> TooCold(d, s);
    assert Reason(d, s, 4) <==> d.core.h.latch.inhibited;
    assert Reason(d, s, 5) <==> d.core.h.latch.latched;
  }

  // --- What an accepted one leaves ------------------------------------------------------------------

  /** Latch, settings and loop of the heater, the printer, the fault memory and the selected source stay. */
  ghost predicate Elsewhere(c: Core, r: Core) {
    && r.h.latch == c.h.latch && r.h.settings == c.h.settings && r.h.loop == c.h.loop && r.h.control == c.h.control
    && r.p.printer == c.p.printer && r.p.lastFaulted == c.p.lastFaulted && r.p.controlSource == c.p.controlSource
    && r.p.air == c.p.air.(filtering := r.p.air.filtering)
  }

  /** One advance of the revision in the source's name, and no selection pending. */
  ghost predicate Moved(c: Core, r: Core, src: Source) {
    r.p.stamp.epoch == c.p.stamp.epoch + 1 && r.p.stamp.source == src && r.p.clicks.count == 0
  }

  /** POWER_ON at the named target under the ceiling: on a lease of one comms timeout for a remote controller, until
      a deadline of its own for a local one. */
  ghost predicate PowerOnLeft(c: Core, r: Core, now: int, target: real, src: Source, hours: nat) {
    var s := r.p.session;
    && s.mode == PowerOn && s.requested == r.h.target == Min(target, c.h.settings.maxTarget)
    && !s.autoEngaged && s.dryingDeadline == 0 && s.bedThreshold == c.p.session.bedThreshold
    && (if src == Web || src == Klipper
        then && s.lease == Some(Lease(c.p.session.issued + 1, now + c.h.settings.commsMs * 1000))
             && s.issued == c.p.session.issued + 1 && s.localDeadline == 0 && r.h.lastLink == now
        else && s.lease.None? && s.localDeadline == now + hours * 3_600_000_000
             && s.issued == c.p.session.issued && r.h.lastLink == c.h.lastLink)
    && r.p.params == c.p.params.(manual := r.h.target) && r.p.dirty
    && r.p.air == c.p.air && Elsewhere(c, r) && Moved(c, r, src)
  }

  /** AUTO, waiting: its target and bed threshold are kept, and no heat is asked for before the next tick. */
  ghost predicate AutoLeft(c: Core, r: Core, target: real, bed: real, src: Source) {
    var s := r.p.session;
    && s.mode == Auto && s.requested == Min(target, c.h.settings.maxTarget) && s.bedThreshold == bed
    && r.h.target == 0.0 && !s.autoEngaged && s.lease.None? && s.localDeadline == 0 && s.dryingDeadline == 0
    && r.p.params == c.p.params.(autoTarget := s.requested, autoBed := bed) && r.p.dirty
    && !r.p.air.filtering && r.h.lastLink == c.h.lastLink && Elsewhere(c, r) && Moved(c, r, src)
  }

  /** DRYING at the named target under the ceiling, until so many hours from now. */
  ghost predicate DryLeft(c: Core, r: Core, now: int, target: real, hours: nat, src: Source) {
    var s := r.p.session;
    && s.mode == Drying && s.requested == r.h.target == Min(target, c.h.settings.maxTarget)
    && s.dryingDeadline == now + hours * 3_600_000_000
    && !s.autoEngaged && s.lease.None? && s.localDeadline == 0 && s.bedThreshold == c.p.session.bedThreshold
    && r.p.params == c.p.params.(dryTarget := r.h.target, dryHours := hours) && r.p.dirty
    && r.p.air == c.p.air && r.h.lastLink == c.h.lastLink && Elsewhere(c, r) && Moved(c, r, src)
  }

  /** No mode, no authority, no heat; the remembered parameters stay. */
  ghost predicate OffLeft(c: Core, r: Core, src: Source) {
    var s := r.p.session;
    && s.mode == PolicySpec.Off && r.h.target == 0.0 && s.requested == 0.0
    && !s.autoEngaged && s.lease.None? && s.localDeadline == 0 && s.dryingDeadline == 0
    && r.p.params == c.p.params && r.p.dirty == c.p.dirty
    && r.p.air == c.p.air && r.h.lastLink == c.h.lastLink && Elsewhere(c, r) && Moved(c, r, src)
  }

  lemma AcceptedCommandLeaves(d: Device, s: Step)
    requires Inv(d) && Enabled(d, s) && AcceptedCommand(d, s)
    ensures var c, r, t, now := d.core, Apply(d, s).core, Named(d, s).c, TimeOf(d, s);
            match s
            case PowerOnCmd(_, _, src, _) => PowerOnLeft(c, r, now, t, src, HoursOf(d, s))
            case AutoCmd(_, _, bed, src, _) => AutoLeft(c, r, t, bed.c, src)
            case DryCmd(_, _, hours, src, _) => DryLeft(c, r, now, t, hours, src)
            case _ => PowerOnLeft(c, r, now, t, Button, HoursOf(d, s))
  {
    hide TickLocked, BootCore, Bookkeeping, Deadlines, Latching;
  }

  // --- Commands that end heat ------------------------------------------------------------------------

  /** AUTO as it was remembered, waiting. */
  ghost predicate RestoredLeft(c: Core, r: Core, src: Source) {
    var s := r.p.session;
    && s.mode == Auto && s.requested == c.p.params.autoTarget && s.bedThreshold == c.p.params.autoBed
    && r.h.target == 0.0 && !s.autoEngaged && s.lease.None? && s.localDeadline == 0 && s.dryingDeadline == 0
    && r.p.params == c.p.params && r.p.dirty == c.p.dirty && r.p.clicks == c.p.clicks
    && !r.p.air.filtering && r.h.lastLink == c.h.lastLink && Elsewhere(c, r)
    && r.p.stamp.epoch == c.p.stamp.epoch + 1 && r.p.stamp.source == src
  }

  /** "off" always leads to OFF; stopping a POWER_ON run that replaced AUTO leads back to AUTO. */
  lemma OffAndStopLeave(d: Device, s: Step)
    requires Inv(d) && Enabled(d, s) && (s.OffCmd? || s.StopRun?)
    ensures Section(d, s).1 == Accepted
    ensures var c, r := d.core, Apply(d, s).core;
            if s.StopRun? && c.p.session.resume == Auto then RestoredLeft(c, r, s.src) else OffLeft(c, r, s.src)
  {
    hide TickLocked, BootCore, Bookkeeping, Deadlines, Latching;
  }

  /** A panic-off latches in RAM alone and drops everything the policy holds; the SSR follows at the next tick. */
  lemma PanicLeaves(d: Device, src: Source)
    requires Inv(d) && Enabled(d, Panic(src))
    ensures var c, r := d.core, Apply(d, Panic(src)).core;
            && r.h == c.h.(target := 0.0, latch := c.h.latch.(latched := true, code := PanicOff))
            && r.p.session.mode == PolicySpec.Off && r.p.session.lease.None? && r.p.session.requested == 0.0
            && r.p.session.localDeadline == 0 && r.p.session.dryingDeadline == 0 && !r.p.session.autoEngaged
            && r.p.stamp.epoch == c.p.stamp.epoch + 1 && r.p.stamp.source == src && r.p.lastFaulted
            && r.p.printer == c.p.printer && r.p.air == c.p.air && r.p.params == c.p.params
            && r.p.clicks == c.p.clicks && r.p.dirty == c.p.dirty && r.p.controlSource == c.p.controlSource
  {
    hide TickLocked, BootCore;
  }

  // --- Clearing a fault ------------------------------------------------------------------------------

  /** The flash half of a clear: refused for another revision, under an inhibit, or when flash fails; and nothing but
      the flash copy of the latch is touched. */
  lemma ClearAnswers(d: Device, src: Source, expected: int, storeOk: bool)
    requires Enabled(d, ClearCmd(src, expected, storeOk))
    ensures var s := ClearCmd(src, expected, storeOk);
            var e, r, l := Apply(d, s), Section(d, s).1, d.core.h.latch;
            var named := expected == 0xFFFF_FFFF || expected == d.core.p.stamp.revision;
            && (r == RevisionConflict <==> !named)
            && (r == Inhibited <==> named && l.inhibited)
            && (r == PersistFailed <==> named && !l.inhibited && !storeOk)
            && (r == Accepted <==> named && !l.inhibited && storeOk)
            && (r == Accepted ==>
                  && e.clearing == Some(src)
                  && e.core == d.core.(h := d.core.h.(latch := l.(store := FaultStore(Some(0), Some(0))))))
            && (r != Accepted ==> e.core == d.core && e.clearing == d.clearing)
  {
    hide TickLocked, BootCore;
  }

  /** The rest of a clear: the latch is gone from RAM with its cause and its debt, an inhibit stays, and the policy is
      OFF. */
  lemma ClearRestLeaves(d: Device)
    requires Inv(d) && Enabled(d, ClearRest)
    ensures var c, r := d.core, Apply(d, ClearRest).core;
            && r.h == c.h.(target := 0.0, latch := c.h.latch.(latched := false, code := NoFault, pending := false))
            && r.p.session.mode == PolicySpec.Off && r.p.session.lease.None? && !r.p.lastFaulted
            && r.p.clicks.count == 0 && r.p.params == c.p.params && r.p.printer == c.p.printer && r.p.air == c.p.air
            && r.p.stamp.epoch == c.p.stamp.epoch + 1 && r.p.stamp.source == d.clearing.value
            && Apply(d, ClearRest).clearing.None?
  {
    hide TickLocked, BootCore, Bookkeeping, Deadlines;
  }

  // --- Leases, the fan, observations ------------------------------------------------------------------

  /** A heartbeat counts exactly for the live lease of a POWER_ON run before its deadline. It moves the deadline to
      one comms timeout from now and refreshes the link; nothing else changes. */
  lemma HeartbeatAnswers(d: Device, now: int, id: nat)
    requires Enabled(d, Beat(now, id))
    ensures var c, r, a := d.core, Apply(d, Beat(now, id)).core, Section(d, Beat(now, id)).1;
            var s := c.p.session;
            && (a == Accepted <==>
                  s.mode == PowerOn && s.lease.Some? && s.lease.value.id == id && now < s.lease.value.deadline)
            && (a != Accepted ==> a == StaleLease && r == c)
            && (a == Accepted ==>
                  && r.h == c.h.(lastLink := now)
                  && r.p == c.p.(session := s.(lease := Some(Lease(id, now + c.h.settings.commsMs * 1000)),
                                               refreshedAt := now)))
  {
    hide TickLocked, BootCore;
  }

  /** More air than none is refused while heat is on or a purge runs; a request that changes the level moves the
      revision once, and one that does not changes nothing. */
  lemma FanAnswers(d: Device, percent: nat, src: Source)
    requires Enabled(d, FanCmd(percent, src))
    ensures var c, r, a := d.core, Apply(d, FanCmd(percent, src)).core, Section(d, FanCmd(percent, src)).1;
            var level := if percent > 100 then 100 else percent;
            && (a == Busy <==> percent > 0 && ((c.h.target > 0.0 && !c.h.latch.latched) || c.p.air.cooldown))
            && (a == Busy || a == Accepted) && (a == Busy ==> r == c)
            && r.h == c.h && r.p == c.p.(air := r.p.air, stamp := r.p.stamp)
            && r.p.air == (if a == Accepted then c.p.air.(requested := level) else c.p.air)
            && r.p.stamp.epoch == c.p.stamp.epoch + (if r.p.air.requested != c.p.air.requested then 1 else 0)
            && (r.p.air.requested != c.p.air.requested ==> r.p.stamp.source == src)
            && (r.p.air.requested == c.p.air.requested ==> r.p.stamp == c.p.stamp)
  {
    hide TickLocked, BootCore;
  }

  lemma FilterAnswers(d: Device, temp: Float, enable: bool)
    requires Enabled(d, FilterCmd(temp, enable))
    ensures var c, r, a := d.core, Apply(d, FilterCmd(temp, enable)).core, Section(d, FilterCmd(temp, enable)).1;
            && (a == Accepted <==> temp.Finite? && 20.0 <= temp.c <= 60.0)
            && (a != Accepted ==> a == InvalidCommand && r == c)
            && (a == Accepted ==>
                  && r == c.(p := c.p.(params := r.p.params, dirty := true))
                  && r.p.params == c.p.params.(filterTemp := temp.c, filterEnable := enable))
  {
    hide TickLocked, BootCore;
  }

  /** A report of the printer replaces the one before: what is not a number counts as zero, a zone is cut to
      0 .. 70 C, and the helper's presence is its own report. Neither moves the revision or the heater. */
  lemma ReportsLeave(d: Device, bed: Float, connected: bool, zone: Float, chamber: Float, helper: bool)
    requires Enabled(d, Helper(helper))
    ensures var c := d.core;
            var r := Apply(d, Env(bed, connected, zone, chamber)).core;
            && r == c.(p := c.p.(printer := r.p.printer)) && r.p.printer.helper == c.p.printer.helper
            && r.p.printer.connected == connected && r.p.printer.chamber == chamber
            && r.p.printer.bedTarget == (if bed.Finite? then bed.c else 0.0)
            && (zone.Finite? && 0.0 <= zone.c <= 70.0 ==> r.p.printer.zone == zone.c)
            && (zone.Finite? && zone.c > 70.0 ==> r.p.printer.zone == 70.0)
            && (zone.NonFinite? || zone.c < 0.0 ==> r.p.printer.zone == 0.0)
            && Apply(d, Helper(helper)).core == c.(p := c.p.(printer := c.p.printer.(helper := helper)))
  {
    hide TickLocked, BootCore;
  }

  // --- Settings and the inhibit ------------------------------------------------------------------------

  /** What a number sent as a setting within these bounds leaves of it. */
  ghost predicate Bounded(v: real, lo: real, hi: real, r: real) {
    lo <= r <= hi && (lo <= v <= hi ==> r == v) && (v < lo ==> r == lo) && (v > hi ==> r == hi)
  }

  /** The ceiling lies in 30 .. 70 C and pulls a live target down; the comms timeout lies in 10 .. 300 s; the cool
      release in 30 .. 65 C; the element cut is 90 .. 104 C, or zero for the board's own. No setting touches the
      policy, and what is not a number is refused. */
  lemma SettingsLeave(d: Device, c: Float, ms: nat, m: ControlMethod)
    requires Inv(d)
    ensures var h := d.core.h;
            var r1 := Apply(d, MaxTarget(c)).core.h;
            var r2 := Apply(d, CommsTimeout(ms)).core.h;
            var r3 := Apply(d, CoolRelease(c)).core.h;
            var r4 := Apply(d, FbCut(c)).core.h;
            && (c.NonFinite? ==> r1 == r3 == r4 == h)
            && r1 == h.(target := r1.target, settings := h.settings.(maxTarget := r1.settings.maxTarget))
            && (c.Finite? ==>
                  && Bounded(c.c, 30.0, 70.0, r1.settings.maxTarget)
                  && r1.target == if h.target <= r1.settings.maxTarget then h.target else r1.settings.maxTarget)
            && r2 == h.(settings := h.settings.(commsMs := r2.settings.commsMs))
            && Bounded(ms as real, 10_000.0, 300_000.0, r2.settings.commsMs as real)
            && r3 == h.(settings := h.settings.(coolRelease := r3.settings.coolRelease))
            && (c.Finite? ==> Bounded(c.c, 30.0, 65.0, r3.settings.coolRelease))
            && r4 == h.(settings := h.settings.(userCut := r4.settings.userCut))
            && (c.Finite? ==> if c.c <= 0.0 then r4.settings.userCut == 0.0
                              else Bounded(c.c, 90.0, 104.0, r4.settings.userCut))
            && Apply(d, ChooseMethod(m)).core.h == h.(settings := h.settings.(controlMethod := m))
  {
    hide TickLocked, BootCore, CoreInv;
  }

  /** A stored setting that is absent leaves the default; one that is there counts within its bounds. */
  ghost predicate Reads(stored: Option<nat>, unit: real, default: real, lo: real, hi: real, r: real)
    requires unit > 0.0
  {
    if stored.None? then r == default else Bounded(stored.value as real / unit, lo, hi, r)
  }

  /** A boot leads to OFF at revision 1 with nothing pending, whatever was going on, with the parameters it loaded, the
      settings on flash within their bounds, and the loop at rest. */
  lemma BootLeaves(d: Device, b: BootInput)
    ensures var e := Apply(d, Reboot(b));
            var p, h, t := e.core.p, e.core.h, e.core.h.settings;
            && p.session.mode == PolicySpec.Off && p.session.resume == PolicySpec.Off && p.session.lease.None?
            && p.session.requested == 0.0 && p.session.localDeadline == 0 && p.session.dryingDeadline == 0
            && p.stamp == Stamp(1, Boot, 0) && p.clicks.count == 0 && !p.lastFaulted
            && !p.printer.connected && !p.printer.helper && p.printer.zone == 0.0 && p.printer.bedTarget == 0.0
            && p.air == Air(0, 0, false, false, false)
            && p.params == b.params && !p.dirty && p.controlSource == b.src
            && h.loop == Loop(false, false, false, false, None, None, None)
            && h.target == 0.0 && h.control.NonFinite? && h.lastLink == b.now
            && Reads(b.stored.maxCenti, 100.0, 70.0, 30.0, 70.0, t.maxTarget)
            && Reads(b.stored.commsMs, 1.0, 300_000.0, 10_000.0, 300_000.0, t.commsMs as real)
            && Reads(b.stored.coolCenti, 100.0, 40.0, 30.0, 65.0, t.coolRelease)
            && (if b.stored.fbCenti in {None, Some(0)} then t.userCut == 0.0
                else Reads(b.stored.fbCenti, 100.0, 0.0, 90.0, 104.0, t.userCut))
            && (t.controlMethod == Pid <==> b.stored.controlMethod == Some(1))
            && e.clearing.None? && e.start.None? && e.startTarget.None? && e.clock == b.now
  {
    hide TickLocked, Restore;
  }

  /** A setting or an inhibit leaves the policy alone, also inside a clear. */
  lemma LocklessLeavePolicy(d: Device, s: Step)
    requires Lockless(s)
    ensures var e := Apply(d, s); e.core.p == d.core.p && e == d.(core := e.core)
    ensures s.InhibitNow? ==>
              Apply(d, s).core.h == d.core.h.(
                loop := d.core.h.loop.(on := false), target := 0.0,
                latch := d.core.h.latch.(latched := true, inhibited := true, code := InhibitedFault))
  {
    hide TickLocked, BootCore;
  }
}
