/** pb_policy.c in its own form: one static struct that every command and the tick update in place under a lock.
    Every method is tied to the locked section of PolicySpec that it runs. */
module PolicyDevice {
  import opened Values
  import opened SafetyRules
  import opened HeaterSpec
  import opened PolicySpec
  import opened HeaterDevice
  import opened System
  import opened FrontPanel

  class PolicyUnit {
    const heater: HeaterUnit

    var mode: Mode
    var resumeMode: Mode
    var requestedTarget: real
    var autoBedThreshold: real
    var autoEngaged: bool
    var dryingDeadlineUs: int
    var localDeadlineUs: int
    var leaseActive: bool
    var leaseId: nat
    var leaseDeadlineUs: int
    ghost var issued: nat
    ghost var acceptedAt: int
    ghost var refreshedAt: int

    var revision: int
    var source: Source
    ghost var epoch: nat

    var connected: bool
    var helperPresent: bool
    var bedTarget: real
    var zoneTarget: real
    var chamberSrc: Float

    var clickCount: nat
    var clickDeadlineUs: int

    var fanPercent: nat
    var fanLevel: nat
    var autoFiltering: bool
    var heatedThisSession: bool
    var lastCooldown: bool
    var lastFaulted: bool

    var params: Params
    var paramsDirty: bool
    var controlSource: ControlSource

    ghost predicate Valid()
      reads this, heater
    {
      0 <= revision < UINT32 && heater.Valid()
    }

    ghost function SessionState(): Session
      reads this
    {
      Session(mode, resumeMode, requestedTarget, autoBedThreshold, autoEngaged, dryingDeadlineUs, localDeadlineUs,
              if leaseActive then Some(Lease(leaseId, leaseDeadlineUs)) else None, issued, acceptedAt, refreshedAt)
    }

    ghost function StampState(): Stamp
      reads this
    {
      Stamp(revision, source, epoch)
    }

    ghost function PrinterState(): Printer
      reads this
    {
      Printer(connected, helperPresent, bedTarget, zoneTarget, chamberSrc)
    }

    ghost function ClickState(): Clicks
      reads this
    {
      Clicks(clickCount, clickDeadlineUs)
    }

    ghost function AirState(): Air
      reads this
    {
      Air(fanPercent, fanLevel, autoFiltering, heatedThisSession, lastCooldown)
    }

    ghost function PolicyState(): Policy
      reads this
    {
      Policy(SessionState(), StampState(), PrinterState(), ClickState(), AirState(), lastFaulted, params, paramsDirty,
             controlSource)
    }

    ghost function State(): Core
      reads this, heater, heater.pid
    {
      Core(PolicyState(), heater.State())
    }

    /** Boot: the policy comes up OFF, with the remembered parameters and the selected control source; the heater
        is a freshly booted one. */
    constructor (h: HeaterUnit, src: ControlSource, loaded: Params, ghost everIssued: nat)
      requires h.Valid()
      ensures heater == h && Valid() && PolicyState() == InitPolicy(src, loaded, everIssued)
    {
      heater := h;
      mode, resumeMode, requestedTarget := PolicySpec.Off, PolicySpec.Off, 0.0;
      autoBedThreshold, autoEngaged := DEFAULT_PARAMS.autoBed, false;
      dryingDeadlineUs, localDeadlineUs := 0, 0;
      leaseActive, leaseId, leaseDeadlineUs := false, 0, 0;
      issued, acceptedAt, refreshedAt, epoch := everIssued, 0, 0, 0;
      revision, source := 1, Boot;
      connected, helperPresent, bedTarget, zoneTarget, chamberSrc := false, false, 0.0, 0.0, Finite(0.0);
      clickCount, clickDeadlineUs := 0, 0;
      fanPercent, fanLevel, autoFiltering, heatedThisSession, lastCooldown := 0, 0, false, false, false;
      lastFaulted, params, paramsDirty, controlSource := false, loaded, false, src;
    }

    // --- Helpers -----------------------------------------------------------------------------------

    method AdvanceRevision(src: Source)
      requires Valid()
      modifies `revision, `source, `epoch
      ensures Valid() && PolicyState() == old(PolicyState()).(stamp := Advance(old(StampState()), src))
    {
      var next := (revision + 1) % UINT32;
      if next == 0 {
        next := 1;
      }
      revision, source := next, src;
      epoch := epoch + 1;
      assert StampState() == Advance(old(StampState()), src);
      assert SessionState() == old(SessionState()) && PrinterState() == old(PrinterState());
      assert ClickState() == old(ClickState()) && AirState() == old(AirState());
      hide SessionState, StampState, PrinterState, ClickState, AirState;
    }

    method CancelSelection()
      requires Valid()
      modifies `clickCount, `clickDeadlineUs
      ensures Valid() && PolicyState() == old(PolicyState()).(clicks := NO_CLICKS)
    {
      clickCount, clickDeadlineUs := 0, 0;
    }

    method DropFields()
      modifies `mode, `requestedTarget, `autoEngaged, `dryingDeadlineUs, `localDeadlineUs, `resumeMode,
               `leaseActive, `leaseId, `leaseDeadlineUs
      ensures mode == PolicySpec.Off && requestedTarget == 0.0 && !autoEngaged
      ensures dryingDeadlineUs == localDeadlineUs == 0 && resumeMode == PolicySpec.Off && !leaseActive
    {
      mode, requestedTarget, autoEngaged := PolicySpec.Off, 0.0, false;
      dryingDeadlineUs, localDeadlineUs, resumeMode := 0, 0, PolicySpec.Off;
      leaseActive, leaseId, leaseDeadlineUs := false, 0, 0;
    }

    method DropSession()
      requires Valid()
      modifies `mode, `requestedTarget, `autoEngaged, `dryingDeadlineUs, `localDeadlineUs, `resumeMode,
               `leaseActive, `leaseId, `leaseDeadlineUs
      ensures Valid() && PolicyState() == old(PolicyState()).(session := Dropped(old(SessionState())))
    {
      DropFields();
      assert SessionState() == Dropped(old(SessionState()));
      assert StampState() == old(StampState()) && PrinterState() == old(PrinterState());
      assert ClickState() == old(ClickState()) && AirState() == old(AirState());
      hide SessionState, StampState, PrinterState, ClickState, AirState, Dropped;
    }

    method WriteMode(m: Mode, requested: real, threshold: real, drying: int, ghost now: int)
      modifies `mode, `requestedTarget, `autoBedThreshold, `dryingDeadlineUs, `acceptedAt
      ensures mode == m && requestedTarget == requested && autoBedThreshold == threshold
      ensures dryingDeadlineUs == drying && acceptedAt == now
    {
      mode, requestedTarget, autoBedThreshold, dryingDeadlineUs := m, requested, threshold, drying;
      acceptedAt := now;
    }

    method BeginMode(m: Mode, requested: real, threshold: real, drying: int, ghost now: int)
      requires Valid()
      modifies `mode, `requestedTarget, `autoBedThreshold, `dryingDeadlineUs, `acceptedAt
      ensures Valid()
      ensures PolicyState() == old(PolicyState()).(
                session := old(SessionState()).(mode := m, requested := requested, bedThreshold := threshold,
                                                dryingDeadline := drying, acceptedAt := now))
    {
      WriteMode(m, requested, threshold, drying, now);
      assert SessionState() == old(SessionState()).(mode := m, requested := requested, bedThreshold := threshold,
                                                    dryingDeadline := drying, acceptedAt := now);
      assert StampState() == old(StampState()) && PrinterState() == old(PrinterState());
      assert ClickState() == old(ClickState()) && AirState() == old(AirState());
      hide SessionState, StampState, PrinterState, ClickState, AirState;
    }

    method StopFiltering()
      requires Valid()
      modifies `autoFiltering
      ensures Valid() && PolicyState() == old(PolicyState()).(air := old(AirState()).(filtering := false))
    {
      autoFiltering := false;
    }

    /** AUTO waiting: nothing engaged, no deadline, no lease. */
    method ArmAuto(requested: real, threshold: real, ghost now: int)
      requires Valid()
      modifies this
      ensures Valid()
      ensures PolicyState() == old(PolicyState()).(
                session := Dropped(old(SessionState())).(mode := Auto, requested := requested,
                                                         bedThreshold := threshold, acceptedAt := now),
                air := old(AirState()).(filtering := false))
    {
      DropSession();
      BeginMode(Auto, requested, threshold, 0, now);
      StopFiltering();
    }

    method Remember(p: Params)
      requires Valid()
      modifies `params, `paramsDirty
      ensures Valid() && PolicyState() == old(PolicyState()).(params := p, dirty := true)
    {
      params, paramsDirty := p, true;
    }

    method HeaterTargetOff()
      requires Valid()
      modifies heater`target
      ensures Valid() && heater.State() == TargetOff(old(heater.State()))
    {
      var st := heater.SetTargetC(Finite(0.0));
    }

    method SetOffLocked(src: Source)
      requires Valid()
      modifies this, heater`target
      ensures Valid() && State() == SetOff(old(State()), src)
    {
      hide TargetOff, Dropped, Advance;
      CancelSelection();
      HeaterTargetOff();
      DropSession();
      AdvanceRevision(src);
    }

    method RestoreOrOffLocked(src: Source)
      requires Valid()
      modifies this, heater`target
      ensures Valid() && State() == RestoreOrOff(old(State()), src)
    {
      hide TargetOff, Advance, SetOff;
      if resumeMode != Auto {
        SetOffLocked(src);
        return;
      }
      HeaterTargetOff();
      ArmAuto(params.autoTarget, params.autoBed, acceptedAt);
      AdvanceRevision(src);
    }

    method PrecheckLocked(t: Float, expected: int) returns (r: Result)
      requires Valid()
      ensures r == Precheck(State(), t, expected)
    {
      if expected != REVISION_ANY && expected != revision {
        return RevisionConflict;
      }
      if t.NonFinite? || t.c < MIN_MODE_TARGET_C {
        return InvalidCommand;
      }
      if heater.inhibited {
        return Inhibited;
      }
      return if heater.latchedOff || heater.inhibited then FaultLatched else Accepted;
    }

    // --- Mode commands -------------------------------------------------------------------------------

    method LeaseFields(id: nat, deadline: int, ghost now: int)
      modifies `leaseActive, `leaseId, `leaseDeadlineUs, `issued, `refreshedAt
      ensures leaseActive && leaseId == issued == id && leaseDeadlineUs == deadline && refreshedAt == now
    {
      leaseActive, leaseId, leaseDeadlineUs := true, id, deadline;
      issued, refreshedAt := id, now;
    }

    method WriteLease(id: nat, deadline: int, ghost now: int)
      requires Valid()
      modifies `leaseActive, `leaseId, `leaseDeadlineUs, `issued, `refreshedAt
      ensures Valid()
      ensures PolicyState() == old(PolicyState()).(
                session := old(SessionState()).(lease := Some(Lease(id, deadline)), issued := id, refreshedAt := now))
    {
      LeaseFields(id, deadline, now);
      assert SessionState()
          == old(SessionState()).(lease := Some(Lease(id, deadline)), issued := id, refreshedAt := now);
      assert StampState() == old(StampState()) && PrinterState() == old(PrinterState());
      assert ClickState() == old(ClickState()) && AirState() == old(AirState());
      hide SessionState, StampState, PrinterState, ClickState, AirState;
    }

    /** `draw` stands for a fresh random lease id. */
    method IssueLease(now: int, draw: nat)
      requires Valid() && draw == issued + 1
      modifies `leaseActive, `leaseId, `leaseDeadlineUs, `issued, `refreshedAt
      ensures Valid()
      ensures PolicyState() == old(PolicyState()).(
                session := old(SessionState()).(lease := Some(Lease(draw, now + LeaseTtl(old(heater.State())))),
                                                issued := draw, refreshedAt := now))
    {
      var ttl := heater.commsTimeoutUs / 1000 * 1000;
      assert ttl == LeaseTtl(heater.State());
      hide HeaterUnit.State, LeaseTtl;
      hide SessionState, StampState, PrinterState, ClickState, AirState;
      WriteLease(draw, now + ttl, now);
    }

    method BeginPowerOn(now: int)
      requires Valid()
      modifies `mode, `requestedTarget, `autoBedThreshold, `autoEngaged, `dryingDeadlineUs, `localDeadlineUs,
               `resumeMode, `leaseActive, `leaseId, `leaseDeadlineUs, `acceptedAt
      ensures Valid()
      ensures var s := old(SessionState());
              PolicyState() == old(PolicyState()).(session := Dropped(s).(
                mode := PowerOn, requested := heater.target, acceptedAt := now,
                resume := if s.mode == PowerOn then s.resume else if s.mode == Auto then Auto else PolicySpec.Off))
    {
      var previous, resume := mode, resumeMode;
      DropSession();
      BeginMode(PowerOn, heater.target, autoBedThreshold, 0, now);
      resumeMode := if previous == PowerOn then resume else if previous == Auto then Auto else PolicySpec.Off;
    }

    method StartPowerOn(now: int, remote: bool, durationMs: nat, draw: nat)
      requires Valid() && (remote ==> draw == issued + 1)
      modifies `mode, `requestedTarget, `autoBedThreshold, `autoEngaged, `dryingDeadlineUs, `localDeadlineUs,
               `resumeMode, `leaseActive, `leaseId, `leaseDeadlineUs, `issued, `acceptedAt, `refreshedAt,
               heater`lastLinkUs
      ensures Valid()
      ensures var h := old(heater.State());
              && heater.State() == (if remote then NotifyLink(h, now) else h)
              && PolicyState() == old(PolicyState()).(
                   session := PowerOnSession(old(SessionState()), now, h.target, remote, LeaseTtl(h), durationMs))
      ensures remote ==> leaseId == issued == draw
    {
      BeginPowerOn(now);
      if remote {
        IssueLease(now, draw);
        heater.NotifyLinkAlive(now);
      } else {
        localDeadlineUs := now + durationMs * 1000;
      }
    }

    method EnterPowerOnLocked(now: int, target: real, src: Source, durationMs: nat, draw: nat)
      requires Valid() && (Remote(src) ==> draw == issued + 1)
      modifies this, heater`target, heater`lastLinkUs
      ensures Valid() && State() == EnterPowerOn(old(State()), now, target, src, durationMs)
      ensures Remote(src) ==> leaseId == issued == draw
    {
      hide PowerOnSession, Advance, SetTarget;
      var st := heater.SetTargetC(Finite(target));
      CancelSelection();
      StartPowerOn(now, Remote(src), durationMs, draw);
      AdvanceRevision(src);
      Remember(params.(manual := heater.target));
    }

    method SetPowerOnMode(now: int, t: Float, src: Source, expected: int, durationMs: nat, requireUnbound: bool,
                          draw: nat) returns (r: Result)
      requires Valid() && (Remote(src) ==> draw == issued + 1)
      modifies this, heater`target, heater`lastLinkUs
      ensures Valid() && (State(), r) == SetPowerOn(old(State()), now, t, src, expected, durationMs, requireUnbound)
      ensures r == Accepted && Remote(src) ==> leaseId == issued == draw
    {
      hide EnterPowerOn;
      if !Remote(src) && (durationMs == 0 || durationMs > LOCAL_MAX_MS) {
        return InvalidCommand;
      }
      if requireUnbound && controlSource != Unbound {
        return Busy;
      }
      r := PrecheckLocked(t, expected);
      if r != Accepted {
        return;
      }
      EnterPowerOnLocked(now, t.c, src, durationMs, draw);
    }

    method SetButtonPowerOnMode(now: int, t: Float, hours: nat, expected: int) returns (r: Result)
      requires Valid()
      modifies this, heater`target, heater`lastLinkUs
      ensures Valid() && (State(), r) == SetButtonPowerOn(old(State()), now, t, hours, expected)
    {
      hide SetPowerOn;
      if hours < 6 || hours > 24 || hours % 6 != 0 {
        return InvalidCommand;
      }
      r := SetPowerOnMode(now, t, Button, expected, hours * 3_600_000, true, 0);
    }

    method EnterAutoLocked(now: int, target: real, bed: real, src: Source)
      requires Valid()
      modifies this, heater`target
      ensures Valid() && State() == EnterAuto(old(State()), now, target, bed, src)
    {
      hide TargetOff, Advance, Dropped, Min;
      var requested := Min(target, heater.maxTarget);
      CancelSelection();
      ArmAuto(requested, bed, now);
      HeaterTargetOff();
      AdvanceRevision(src);
      Remember(params.(autoTarget := requested, autoBed := bed));
    }

    method SetAutoMode(now: int, t: Float, bed: Float, src: Source, expected: int) returns (r: Result)
      requires Valid()
      modifies this, heater`target
      ensures Valid() && (State(), r) == SetAuto(old(State()), now, t, bed, src, expected)
    {
      hide EnterAuto;
      if bed.NonFinite? || bed.c < BED_MIN_C || bed.c > BED_MAX_C {
        return InvalidCommand;
      }
      r := PrecheckLocked(t, expected);
      if r != Accepted {
        return;
      }
      EnterAutoLocked(now, t.c, bed.c, src);
    }

    method EnterDryingLocked(now: int, target: real, hours: nat, src: Source)
      requires Valid()
      modifies this, heater`target
      ensures Valid() && State() == EnterDrying(old(State()), now, target, hours, src)
    {
      hide SetTarget, Advance;
      var st := heater.SetTargetC(Finite(target));
      CancelSelection();
      DropSession();
      BeginMode(Drying, heater.target, autoBedThreshold, now + hours * HOUR_US, now);
      AdvanceRevision(src);
      Remember(params.(dryTarget := heater.target, dryHours := hours));
    }

    method StartDryingMode(now: int, t: Float, hours: nat, src: Source, expected: int) returns (r: Result)
      requires Valid()
      modifies this, heater`target
      ensures Valid() && (State(), r) == StartDrying(old(State()), now, t, hours, src, expected)
    {
      hide EnterDrying;
      if hours == 0 || hours > DRYING_MAX_HOURS {
        return InvalidCommand;
      }
      r := PrecheckLocked(t, expected);
      if r != Accepted {
        return;
      }
      EnterDryingLocked(now, t.c, hours, src);
    }

    method SetFanLevel(percent: nat, src: Source) returns (r: Result)
      requires Valid()
      modifies this
      ensures Valid() && (State(), r) == SetFan(old(State()), percent, src)
    {
      hide Advance;
      var pc := if percent > 100 then 100 else percent;
      var busy := (heater.target > 0.0 && !heater.latchedOff) || lastCooldown;
      var moved := fanPercent != pc;
      assert busy == (State().h.HeatMode() || AirState().cooldown) && moved == (AirState().requested != pc);
      hide HeaterUnit.State, SessionState, StampState, PrinterState, ClickState, AirState;
      if pc > 0 && busy {
        return Busy;
      }
      if moved {
        WriteFan(pc);
        AdvanceRevision(src);
      }
      return Accepted;
    }

    method WriteFan(percent: nat)
      requires Valid()
      modifies `fanPercent
      ensures Valid() && PolicyState() == old(PolicyState()).(air := old(AirState()).(requested := percent))
    {
      fanPercent := percent;
    }

    method SetFilter(temp: Float, enable: bool) returns (r: Result)
      requires Valid()
      modifies `params, `paramsDirty
      ensures Valid() && (State(), r) == SetFilterConfig(old(State()), temp, enable)
    {
      if temp.NonFinite? || temp.c < FILTER_MIN_C || temp.c > FILTER_MAX_C {
        return InvalidCommand;
      }
      params := params.(filterTemp := temp.c, filterEnable := enable);
      paramsDirty := true;
      return Accepted;
    }

    // --- Observations, heartbeat, faults, buttons ------------------------------------------------------

    method PrinterFields(bed: real, isConnected: bool, zone: real, chamber: Float)
      modifies `connected, `bedTarget, `zoneTarget, `chamberSrc
      ensures connected == isConnected && bedTarget == bed && zoneTarget == zone && chamberSrc == chamber
    {
      bedTarget, connected, zoneTarget, chamberSrc := bed, isConnected, zone, chamber;
    }

    method WritePrinter(bed: real, isConnected: bool, zone: real, chamber: Float)
      requires Valid()
      modifies `connected, `bedTarget, `zoneTarget, `chamberSrc
      ensures Valid()
      ensures PolicyState() == old(PolicyState()).(
                printer := Printer(isConnected, old(helperPresent), bed, zone, chamber))
    {
      PrinterFields(bed, isConnected, zone, chamber);
      assert PrinterState() == Printer(isConnected, old(helperPresent), bed, zone, chamber);
      assert SessionState() == old(SessionState()) && StampState() == old(StampState());
      assert ClickState() == old(ClickState()) && AirState() == old(AirState());
      hide SessionState, StampState, PrinterState, ClickState, AirState;
    }

    method SetEnvironment(bed: Float, isConnected: bool, zone: Float, chamber: Float)
      requires Valid()
      modifies `connected, `bedTarget, `zoneTarget, `chamberSrc
      ensures Valid() && State() == SetEnv(old(State()), bed, isConnected, zone, chamber)
    {
      var z := if zone.NonFinite? || zone.c < 0.0 then 0.0 else zone.c;
      if z > ABS_MAX_TARGET_C {
        z := ABS_MAX_TARGET_C;
      }
      assert z == Zone(zone);
      hide Zone, HeaterUnit.State, SessionState, StampState, ClickState, AirState;
      WritePrinter(if bed.Finite? then bed.c else 0.0, isConnected, z, chamber);
    }

    method SetHelperPresent(present: bool)
      requires Valid()
      modifies `helperPresent
      ensures Valid() && State() == SetHelper(old(State()), present)
    {
      helperPresent := present;
    }

    method Heartbeat(now: int, id: nat) returns (r: Result)
      requires Valid()
      modifies `leaseDeadlineUs, `refreshedAt, heater`lastLinkUs
      ensures Valid() && (State(), r) == PolicySpec.Heartbeat(old(State()), now, id)
    {
      if !leaseActive || leaseId != id || mode != PowerOn {
        return StaleLease;
      }
      if now >= leaseDeadlineUs {
        return StaleLease;
      }
      assert LeaseTtl(old(heater.State())) == heater.commsTimeoutUs / 1000 * 1000;
      hide HeaterUnit.State, LeaseTtl, NotifyLink;
      ExtendLease(now, now + heater.commsTimeoutUs / 1000 * 1000);
      hide SessionState, StampState, PrinterState, ClickState, AirState;
      heater.NotifyLinkAlive(now);
      return Accepted;
    }

    method ExtendLease(now: int, deadline: int)
      requires Valid() && leaseActive
      modifies `leaseDeadlineUs, `refreshedAt
      ensures Valid()
      ensures PolicyState() == old(PolicyState()).(
                session := old(SessionState()).(lease := Some(Lease(old(leaseId), deadline)), refreshedAt := now))
    {
      leaseDeadlineUs, refreshedAt := deadline, now;
    }

    /** A clear up to the heater's flash write. */
    method ClearFaultBegin(expected: int, storeOk: bool) returns (r: Result)
      requires Valid()
      modifies heater`flash
      ensures Valid() && (State(), r) == ClearBegin(old(State()), expected, storeOk)
    {
      hide ClearStore;
      if expected != REVISION_ANY && expected != revision {
        return RevisionConflict;
      }
      if heater.inhibited {
        return Inhibited;
      }
      var st := heater.ClearFlash(storeOk);
      return if st == Ok then Accepted else PersistFailed;
    }

    method ClearFaultFinish(src: Source)
      requires Valid()
      modifies this, heater
      ensures Valid() && State() == ClearFinish(old(State()), src)
    {
      hide SetOff, ClearRam;
      heater.ClearLatch();
      lastFaulted := false;
      SetOffLocked(src);
    }

    method RequestPanicOff(src: Source)
      requires Valid()
      modifies this, heater
      ensures Valid() && State() == PanicOffNow(old(State()), src)
    {
      hide HeaterSpec.RequestPanicOff, Dropped, Advance;
      heater.PanicStop();
      DropSession();
      AdvanceRevision(src);
      lastFaulted := true;
    }

    /** A short press of On, as far as the multi-click selection goes. */
    method TapOn(now: int) returns (unbound: bool)
      requires Valid()
      modifies `clickCount, `clickDeadlineUs
      ensures Valid() && State() == Tap(old(State()), now) && unbound == (controlSource == Unbound)
    {
      hide HeaterUnit.State, SessionState, StampState, PrinterState, AirState;
      unbound := controlSource == Unbound;
      if unbound {
        var count := clickCount;
        if count == 0 || now >= clickDeadlineUs {
          count := 0;
        }
        if count < 4 {
          count := count + 1;
        }
        WriteClicks(count, now + CLICK_US);
      }
    }

    method WriteClicks(count: nat, deadline: int)
      requires Valid()
      modifies `clickCount, `clickDeadlineUs
      ensures Valid() && PolicyState() == old(PolicyState()).(clicks := Clicks(count, deadline))
    {
      clickCount, clickDeadlineUs := count, deadline;
    }

    // --- Button presses ------------------------------------------------------------------------------

    method ToggleMode(m: Mode, now: int) returns (r: Result)
      requires Valid()
      modifies this, heater`target, heater`lastLinkUs
      ensures Valid() && (State(), r) == Toggle(old(State()), m, now)
    {
      hide SetPowerOn, SetAuto, StartDrying, SetOff, RestoreOrOff;
      if mode == m {
        if m == PowerOn {
          RestoreOrOffLocked(Button);
        } else {
          SetOffLocked(Button);
        }
        return Accepted;
      }
      match m
      case PowerOn =>
        r := SetPowerOnMode(now, Finite(params.manual), Button, REVISION_ANY, LOCAL_DEFAULT_MS, false, 0);
      case Auto => r := SetAutoMode(now, Finite(params.autoTarget), Finite(params.autoBed), Button, REVISION_ANY);
      case Drying => r := StartDryingMode(now, Finite(params.dryTarget), params.dryHours, Button, REVISION_ANY);
      case Off => r := InvalidCommand;
    }

    method OnLongPress(b: PanelButton, storeOk: bool)
      requires Valid()
      modifies this, heater
      ensures Valid() && State() == LongPress(old(State()), b, storeOk)
    {
      hide ClearBegin, ClearFinish, PanicOffNow;
      if b == PowerKey && (heater.latchedOff || heater.inhibited) {
        var r := ClearFaultBegin(REVISION_ANY, storeOk);
        if r == Accepted {
          ClearFaultFinish(Button);
        }
        return;
      }
      RequestPanicOff(Button);
    }

    method OnButton(b: PanelButton, long: bool, now: int, storeOk: bool)
      requires Valid()
      modifies this, heater
      ensures Valid() && State() == Press(old(State()), b, long, now, storeOk)
    {
      hide Toggle, LongPress, SetOff, Tap;
      if b == OnKey && !long {
        var unbound := TapOn(now);
        if unbound {
          return;
        }
        BoundTapIsNothing(old(State()), now);
      }
      CancelSelection();
      assert State() == CancelClicks(old(State()));
      if long {
        OnLongPress(b, storeOk);
        return;
      }
      match b
      case OnKey => var r := ToggleMode(PowerOn, now);
      case AutoKey => var r := ToggleMode(Auto, now);
      case DryKey => var r := ToggleMode(Drying, now);
      case PowerKey =>
        if mode != PolicySpec.Off {
          SetOffLocked(Button);
        }
    }

    /** The call a press ends in, with the parameters it read some sections before. */
    method ButtonCall(call: PanelCall, now: int, storeOk: bool, ghost d: Device) returns (r: Result)
      requires Valid() && d.core == State()
      modifies this, heater
      ensures Valid() && (State(), r) == Section(d, StepOfCall(call, now, storeOk))
    {
      hide SetOff, RestoreOrOff, SetPowerOn, SetAuto, StartDrying, ClearBegin, PanicOffNow, TickLocked, BootCore;
      r := Accepted;
      match call
      case CallOff => SetOffLocked(Button);
      case CallStop => RestoreOrOffLocked(Button);
      case CallPanic => RequestPanicOff(Button);
      case CallClear => r := ClearFaultBegin(REVISION_ANY, storeOk);
      case CallOn(t) =>
        r := SetPowerOnMode(now, Finite(t), Button, REVISION_ANY, LOCAL_DEFAULT_MS, false, 0);
      case CallAuto(t, bed) => r := SetAutoMode(now, Finite(t), Finite(bed), Button, REVISION_ANY);
      case CallDry(t, hours) => r := StartDryingMode(now, Finite(t), hours, Button, REVISION_ANY);
    }

    /** One section of a press, whatever other tasks did since the section before it. */
    method ButtonSection(at: PressAt, now: int, storeOk: bool, ghost d: Device) returns (next: PressAt)
      requires Valid() && d.core == State() && Can(World(d, at), Go(now, storeOk))
      requires at.Finishing? ==> d.clearing == Some(Button)
      modifies this, heater
      ensures Valid()
      ensures var w := Do(World(d, at), Go(now, storeOk)); w.dev.core == State() && w.at == next
    {
      hide Section, ClearFinish, Tap;
      match at
      case Tapping(b, long) =>
        var unbound := TapOn(now);
        TapSection(d, now);
        next := if unbound then Resting else Cancelling(b, long);
      case Cancelling(b, long) =>
        CancelSelection();
        CancelSection(d);
        next := Looking(b, long);
      case Looking(b, long) =>
        if long {
          var faulted := heater.latchedOff || heater.inhibited;
          return Calling(if b == PowerKey && faulted then CallClear else CallPanic);
        }
        if b == PowerKey {
          return if mode == PolicySpec.Off then Resting else Calling(CallOff);
        }
        var m := match b case OnKey => PowerOn case AutoKey => Auto case DryKey => Drying;
        next := if mode != m then Fetching(m) else Calling(if m == PowerOn then CallStop else CallOff);
      case Fetching(m) =>
        next := Calling(match m
                        case PowerOn => CallOn(params.manual)
                        case Auto => CallAuto(params.autoTarget, params.autoBed)
                        case Drying => CallDry(params.dryTarget, params.dryHours)
                        case Off => CallOff);
      case Calling(call) =>
        var r := ButtonCall(call, now, storeOk, d);
        next := if call.CallClear? && r == Accepted then Finishing else Resting;
      case Finishing =>
        ClearFaultFinish(Button);
        ClearRestFinishes(d, Button);
        next := Resting;
    }

    static lemma BoundTapIsNothing(c: Core, now: int)
      requires c.p.controlSource != Unbound
      ensures Tap(c, now) == c
    {
    }

    // --- The tick ------------------------------------------------------------------------------------

    method TakeClicks(entry: int) returns (taps: nat)
      requires Valid()
      modifies `clickCount, `clickDeadlineUs
      ensures Valid() && (State(), taps) == ConsumeClicks(old(State()), entry)
    {
      taps := 0;
      if clickCount != 0 && entry >= clickDeadlineUs {
        if controlSource == Unbound {
          taps := clickCount;
        }
        CancelSelection();
      }
    }

    method DecideMode(entry: int) returns (goal: real, autonomous: bool, trip: bool)
      requires Valid()
      modifies this, heater`target
      ensures Valid() && Demand(State(), goal, autonomous, trip) == ModeStep(old(State()), entry)
    {
      hide SetOff, RestoreOrOff, Advance;
      goal, autonomous, trip := 0.0, false, false;
      match mode
      case PowerOn =>
        if leaseActive && entry >= leaseDeadlineUs {
          trip := true;
        } else if !leaseActive && localDeadlineUs > 0 && entry >= localDeadlineUs {
          RestoreOrOffLocked(Watchdog);
        } else {
          goal, autonomous := requestedTarget, !leaseActive;
        }
      case Auto =>
        var wasEngaged := autoEngaged;
        autoEngaged := !helperPresent && connected && zoneTarget > 0.0;
        if autoEngaged != wasEngaged {
          AdvanceRevision(source);
        }
        if autoEngaged {
          goal, autonomous := zoneTarget, true;
        }
      case Drying =>
        if entry >= dryingDeadlineUs {
          SetOffLocked(Watchdog);
        } else {
          goal, autonomous := requestedTarget, true;
        }
      case Off =>
    }

    method ApplyGoal(goal: real, autonomous: bool, trip: bool, t: TickInput)
      requires Valid()
      modifies this, heater
      ensures Valid() && State() == ApplyDemand(Demand(old(State()), goal, autonomous, trip), t)
    {
      hide SetTarget, EmergencyOff, Dropped, Advance;
      if trip {
        DropSession();
        AdvanceRevision(Watchdog);
        heater.EmergencyShutdown(t.watchdogOk);
      } else {
        if Abs(heater.target - goal) >= APPLY_STEP_C {
          var st := heater.SetTargetC(Finite(goal));
        }
        if autonomous && goal > 0.0 {
          heater.NotifyLinkAlive(t.heater.now);
        }
      }
    }

    method TickHeater(t: TickInput)
      requires Valid()
      modifies heater, heater.pid
      ensures Valid() && State() == RunHeater(old(State()), t)
    {
      hide HeaterSpec.Tick;
      var control := if mode == Auto && connected && chamberSrc.Finite? then chamberSrc else NonFinite;
      heater.SetControlChamberC(control);
      heater.TickOnce(t.heater);
    }

    static method PurgeDecision(heat: bool, heated: bool, chamberOk: bool, chamber: real, ptcOk: bool, ptc: real,
                                cooldown: bool, release: real) returns (session: bool, purge: bool)
      ensures (session, purge) == PurgeDecide(heat, heated, if chamberOk then Reading.Valid(chamber) else Invalid,
                                              if ptcOk then Reading.Valid(ptc) else Invalid, cooldown, release)
    {
      if heat {
        return true, false;
      }
      if !heated {
        return false, false;
      }
      var latch := release + PURGE_BAND_C;
      var confirmedCool := chamberOk && chamber < latch && ptcOk && ptc < latch;
      var bothCool := chamberOk && chamber < release && ptcOk && ptc < release;
      purge := if cooldown then !bothCool else !confirmedCool;
      session := purge;
    }

    method DecidePurge(t: TickInput)
      requires Valid()
      modifies `heatedThisSession, `lastCooldown
      ensures Valid() && State() == Purge(old(State()), t)
    {
      hide PurgeDecide;
      var heat, release := heater.target > 0.0 && !heater.latchedOff, heater.coolRelease;
      assert heat == heater.State().HeatMode() && release == heater.State().settings.coolRelease;
      hide HeaterUnit.State, SessionState, StampState, PrinterState, ClickState;
      var heated, cooldown := PurgeDecision(heat, heatedThisSession, t.heater.chamber.Valid?, t.smoothChamber,
                                            t.heater.ptc.Valid?, t.smoothPtc, lastCooldown, release);
      WritePurge(heated, cooldown);
    }

    method WritePurge(heated: bool, cooldown: bool)
      requires Valid()
      modifies `heatedThisSession, `lastCooldown
      ensures Valid()
      ensures PolicyState() == old(PolicyState()).(air := old(AirState()).(heated := heated, cooldown := cooldown))
    {
      heatedThisSession, lastCooldown := heated, cooldown;
    }

    method SyncFaultLocked(tripped: bool)
      requires Valid()
      modifies this
      ensures Valid() && State() == SyncFault(old(State()), tripped)
    {
      hide Dropped, Advance;
      var faulted := heater.latchedOff || heater.inhibited;
      if faulted && !lastFaulted {
        DropSession();
        if !tripped {
          AdvanceRevision(Safety);
        }
      }
      lastFaulted := faulted;
    }

    method UpdateFiltering()
      requires Valid()
      modifies `autoFiltering
      ensures Valid()
      ensures PolicyState() == old(PolicyState()).(air := old(AirState()).(filtering := Filtering(old(PolicyState()))))
    {
      if !connected || !params.filterEnable {
        autoFiltering := false;
      } else if !autoFiltering && bedTarget >= params.filterTemp {
        autoFiltering := true;
      } else if autoFiltering && bedTarget < params.filterTemp - FILTER_BAND_C {
        autoFiltering := false;
      }
    }

    /** Heat, a fault, a purge or the filtration band raises the requested level to at least 30 percent. */
    method ChooseLevel()
      requires Valid()
      modifies `fanLevel
      ensures Valid()
      ensures var h, a := heater.State(), old(AirState());
              var raised := (h.HeatMode() || h.latch.Faulted() || a.cooldown || a.filtering) && a.requested < 30;
              PolicyState() == old(PolicyState()).(air := a.(level := if raised then 30 else a.requested))
    {
      var heat := heater.target > 0.0 && !heater.latchedOff;
      var air := heat || heater.latchedOff || heater.inhibited || lastCooldown || autoFiltering;
      fanLevel := if air && fanPercent < 30 then 30 else fanPercent;
    }

    method DecideFan()
      requires Valid()
      modifies this
      ensures Valid() && State() == Fan(old(State()))
    {
      hide Advance, Filtering;
      var was := autoFiltering;
      UpdateFiltering();
      if autoFiltering != was {
        AdvanceRevision(source);
      }
      ChooseLevel();
    }

    /** The locked part of a tick, and the start it leaves for afterwards. */
    method TickOnce(t: TickInput) returns (start: Option<Start>)
      requires Valid()
      modifies this, heater, heater.pid
      ensures Valid() && (State(), start) == TickLocked(old(State()), t)
    {
      hide ConsumeClicks, ModeStep, ApplyDemand, RunHeater, Purge, SyncFault, Fan;
      var taps := TakeClicks(t.entry);
      var goal, autonomous, trip := DecideMode(t.entry);
      ApplyGoal(goal, autonomous, trip, t);
      TickHeater(t);
      DecidePurge(t);
      SyncFaultLocked(trip);
      DecideFan();
      start := if taps != 0 then Some(Start(taps * 6, revision)) else None;
    }

    /** The unlocked tail: the parameters are read in one locked section and the start made in a later one, so the
        target handed over may be out of date by then. */
    method DelayedStart(now: int, start: Start, target: real) returns (r: Result)
      requires Valid()
      modifies this, heater`target, heater`lastLinkUs
      ensures Valid()
      ensures (State(), r) == SetButtonPowerOn(old(State()), now, Finite(target), start.hours, start.revision)
    {
      hide SetButtonPowerOn;
      r := SetButtonPowerOnMode(now, Finite(target), start.hours, start.revision);
    }
  }
}
