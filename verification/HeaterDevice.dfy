/** pb_heater.c in its own form: static fields that setters and the tick update step by step. Every method is tied
    to the transition of HeaterSpec that its critical section makes. */
module HeaterDevice {
  import opened Values
  import opened SafetyRules
  import opened SsrWindow
  import opened HeaterSpec

  class HeaterUnit {
    var target: real
    var control: Float
    var latchedOff: bool
    var inhibited: bool
    var lastLinkUs: int
    var faultCode: Fault
    var persistPending: bool
    var persistRetryUs: int
    var flash: FaultStore

    var maxTarget: real
    var commsTimeoutUs: int
    var coolRelease: real
    var fbCutUser: real
    var usePid: bool
    var stored: Stored           // the settings keys on flash

    var on: bool
    const pid: SsrDriver
    var fbCut: bool
    var localCut: bool
    var heatIntent: bool
    var tickMethodPrev: int      // -1 before the first armed tick, then 0 or 1

    ghost predicate Valid()
      reads this
    {
      -1 <= tickMethodPrev <= 1 && commsTimeoutUs % 1000 == 0
    }

    ghost function LatchState(): Latch
      reads this
    {
      Latch(latchedOff, inhibited, faultCode, persistPending, persistRetryUs, flash)
    }

    ghost function SettingsState(): Settings
      reads this
    {
      Settings(maxTarget, commsTimeoutUs / 1000, coolRelease, fbCutUser, if usePid then Pid else BangBang)
    }

    ghost function LoopState(): Loop
      reads this, pid
    {
      Loop(on, heatIntent, fbCut, localCut, pid.Source(), pid.State(),
           if tickMethodPrev == -1 then None else if tickMethodPrev == 1 then Some(Pid) else Some(BangBang))
    }

    ghost function State(): Heater
      reads this, pid
    {
      Heater(LoopState(), target, control, lastLinkUs, LatchState(), SettingsState())
    }

    constructor (now: int, faults: FaultStore, settings: Stored)
      ensures Valid() && fresh(pid) && State() == InitHeater(now, faults) && stored == settings
    {
      on, fbCut, localCut, heatIntent, tickMethodPrev := false, false, false, false, -1;
      pid := new SsrDriver();
      usePid, target, control, latchedOff, inhibited := false, 0.0, NonFinite, false, false;
      faultCode, persistPending, persistRetryUs, flash := NoFault, false, 0, faults;
      stored := settings;
      lastLinkUs := now;
      maxTarget, commsTimeoutUs := ABS_MAX_TARGET_C, COMMS_MAX_MS * 1000;
      coolRelease, fbCutUser := COOL_RELEASE_DEFAULT_C, 0.0;
    }

    // --- Commands and settings --------------------------------------------------------------------

    method SetTargetC(t: Float) returns (st: Status)
      requires Valid()
      modifies `target
      ensures Valid() && (State(), st) == SetTarget(old(State()), t)
    {
      if t.NonFinite? {
        return InvalidArg;
      }
      var c := if t.c < 0.0 then 0.0 else t.c;
      if c > maxTarget {
        c := maxTarget;
      }
      if (latchedOff || inhibited) && c > 0.0 {
        return InvalidState;
      }
      target := c;
      return Ok;
    }

    method SetControlChamberC(t: Float)
      requires Valid()
      modifies `control
      ensures Valid() && State() == SetControlChamber(old(State()), t)
    {
      control := t;
    }

    /** Each setting is written through, best effort: `storeOk` says whether flash took it. */
    method SetMaxTargetC(c: Float, storeOk: bool) returns (st: Status)
      requires Valid()
      modifies `maxTarget, `target, `stored
      ensures Valid() && (State(), st) == SetMaxTarget(old(State()), c)
      ensures stored == if st == Ok && storeOk then old(stored).(maxCenti := Some(StoredCenti(maxTarget)))
                        else old(stored)
    {
      if c.NonFinite? {
        return InvalidArg;
      }
      var m := c.c;
      if m < MIN_TARGET_C {
        m := MIN_TARGET_C;
      }
      if m > ABS_MAX_TARGET_C {
        m := ABS_MAX_TARGET_C;
      }
      maxTarget := m;
      if target > maxTarget {
        target := maxTarget;
      }
      if storeOk {
        stored := stored.(maxCenti := Some(StoredCenti(m)));
      }
      return Ok;
    }

    method SetCommsTimeoutMs(ms: nat, storeOk: bool)
      requires Valid()
      modifies `commsTimeoutUs, `stored
      ensures Valid() && State() == SetCommsTimeout(old(State()), ms)
      ensures stored == if storeOk then old(stored).(commsMs := Some(ClampInt(ms, COMMS_MIN_MS, COMMS_MAX_MS)))
                        else old(stored)
    {
      var v: nat := if ms < COMMS_MIN_MS then COMMS_MIN_MS else if ms > COMMS_MAX_MS then COMMS_MAX_MS else ms;
      assert v == ClampInt(ms, COMMS_MIN_MS, COMMS_MAX_MS);
      hide ClampInt;
      commsTimeoutUs := v * 1000;
      assert commsTimeoutUs / 1000 == v;
      if storeOk {
        stored := stored.(commsMs := Some(v));
      }
    }

    method SetCoolReleaseC(c: Float, storeOk: bool) returns (st: Status)
      requires Valid()
      modifies `coolRelease, `stored
      ensures Valid() && (State(), st) == SetCoolRelease(old(State()), c)
      ensures stored == if st == Ok && storeOk then old(stored).(coolCenti := Some(StoredCenti(coolRelease)))
                        else old(stored)
    {
      if c.NonFinite? {
        return InvalidArg;
      }
      var v := c.c;
      if v < COOL_RELEASE_MIN_C {
        v := COOL_RELEASE_MIN_C;
      }
      if v > COOL_RELEASE_MAX_C {
        v := COOL_RELEASE_MAX_C;
      }
      coolRelease := v;
      if storeOk {
        stored := stored.(coolCenti := Some(StoredCenti(v)));
      }
      return Ok;
    }

    method SetFbCutC(c: Float, storeOk: bool) returns (st: Status)
      requires Valid()
      modifies `fbCutUser, `stored
      ensures Valid() && (State(), st) == SetFbCut(old(State()), c)
      ensures stored == if st == Ok && storeOk then old(stored).(fbCenti := Some(StoredCenti(fbCutUser)))
                        else old(stored)
    {
      if c.NonFinite? {
        return InvalidArg;
      }
      var v := c.c;
      if v <= 0.0 {
        v := 0.0;
      } else {
        if v < FB_CUT_MIN_C {
          v := FB_CUT_MIN_C;
        }
        if v > FB_CUT_MAX_C {
          v := FB_CUT_MAX_C;
        }
      }
      fbCutUser := v;
      if storeOk {
        stored := stored.(fbCenti := Some(StoredCenti(v)));
      }
      return Ok;
    }

    /** Codes 0 and 1 are the two methods; any other is refused. */
    method ChooseMethod(code: int, storeOk: bool) returns (st: Status)
      requires Valid()
      modifies `usePid, `stored
      ensures Valid() && st == (if code in {0, 1} then Ok else InvalidArg)
      ensures State() == if st == Ok then SetMethod(old(State()), if code == 1 then Pid else BangBang)
                         else old(State())
      ensures stored == if st == Ok && storeOk then old(stored).(controlMethod := Some(code)) else old(stored)
    {
      if code != 0 && code != 1 {
        return InvalidArg;
      }
      usePid := code == 1;
      if storeOk {
        stored := stored.(controlMethod := Some(code));
      }
      return Ok;
    }

    method NotifyLinkAlive(now: int)
      requires Valid()
      modifies `lastLinkUs
      ensures Valid() && State() == NotifyLink(old(State()), now)
    {
      lastLinkUs := now;
    }

    method WriteSettings(maxC: real, commsMs: int, coolC: real, cut: real, m: ControlMethod)
      requires Valid()
      modifies `maxTarget, `commsTimeoutUs, `coolRelease, `fbCutUser, `usePid
      ensures Valid() && State() == old(State()).(settings := Settings(maxC, commsMs, coolC, cut, m))
    {
      maxTarget, commsTimeoutUs, coolRelease, fbCutUser, usePid := maxC, commsMs * 1000, coolC, cut, m == Pid;
    }

    /** Boot-time settings: defaults, then whatever keys flash holds if it can be read, then the clamps. */
    method LoadStoredConfig(readable: bool)
      requires Valid()
      modifies `maxTarget, `commsTimeoutUs, `coolRelease, `fbCutUser, `usePid, `target
      ensures Valid() && State() == LoadConfig(old(State()), if readable then stored else NO_SETTINGS)
    {
      hide ClampInt, Clamp;
      var s := if readable then stored else NO_SETTINGS;
      var maxC := OrElse(s.maxCenti, 7000) as real / 100.0;
      var coolC := OrElse(s.coolCenti, 4000) as real / 100.0;
      var cut := OrElse(s.fbCenti, 0) as real / 100.0;
      WriteSettings(Clamp(maxC, MIN_TARGET_C, ABS_MAX_TARGET_C),
                    ClampInt(OrElse(s.commsMs, COMMS_MAX_MS), COMMS_MIN_MS, COMMS_MAX_MS),
                    Clamp(coolC, COOL_RELEASE_MIN_C, COOL_RELEASE_MAX_C),
                    if cut > 0.0 then Clamp(cut, FB_CUT_MIN_C, FB_CUT_MAX_C) else cut,
                    if OrElse(s.controlMethod, 0) == 1 then Pid else BangBang);
      hide OrElse;
      if target > maxTarget {
        target := maxTarget;
      }
    }

    // --- Fault latch ---------------------------------------------------------------------------------

    /** One write of both fault keys; an error anywhere leaves flash as it was. */
    method PersistFault(latched: bool, code: Fault, storeOk: bool) returns (ok: bool)
      requires Valid()
      modifies `flash
      ensures Valid() && ok == storeOk && flash == WriteFault(old(flash), latched, code, storeOk)
    {
      if storeOk {
        flash := FaultStore(Some(if latched then 1 else 0), Some(FaultCode(code)));
      }
      return storeOk;
    }

    method LatchRam(code: Fault, inhibit: bool) returns (transition: bool)
      requires Valid()
      modifies `target, `latchedOff, `inhibited, `faultCode
      ensures Valid() && transition == !old(State()).latch.latched
      ensures var l := old(State()).latch;
              State() == old(State()).(target := 0.0, latch := l.(
                           latched := true, inhibited := l.inhibited || inhibit, code := code))
    {
      transition := !latchedOff;
      target := 0.0;
      latchedOff := true;
      if inhibit {
        inhibited := true;
      }
      faultCode := code;
    }

    /** A write that fails is owed to flash from then on. */
    method PersistLatch(code: Fault, storeOk: bool)
      requires Valid()
      modifies `flash, `persistPending
      ensures Valid()
      ensures var l := old(State()).latch;
              State() == old(State()).(latch := l.(store := WriteFault(l.store, true, code, storeOk),
                                                   pending := l.pending || !storeOk))
    {
      hide WriteFault;
      var ok := PersistFault(true, code, storeOk);
      if !ok {
        persistPending := true;
      }
    }

    method LatchOff(code: Fault, inhibit: bool, drive: bool, persist: bool, storeOk: bool)
      requires Valid()
      modifies this
      ensures Valid() && State() == DoLatch(old(State()), code, inhibit, drive, persist, storeOk)
    {
      hide WriteFault;
      if drive {
        on := false;
      }
      assert State() == old(State()).(loop := if drive then old(LoopState()).(on := false) else old(LoopState()));
      assert old(LoopState()) == old(State()).loop;
      hide LoopState, SettingsState, LatchState, State;
      var transition := LatchRam(code, inhibit);
      if persist && transition {
        PersistLatch(code, storeOk);
      }
    }

    method EmergencyShutdown(storeOk: bool)
      requires Valid()
      modifies this
      ensures Valid() && State() == EmergencyOff(old(State()), storeOk)
    {
      LatchOff(Emergency, false, true, true, storeOk);
    }

    method PanicStop()
      requires Valid()
      modifies this
      ensures Valid() && State() == HeaterSpec.RequestPanicOff(old(State()))
    {
      LatchOff(PanicOff, false, false, false, false);
    }

    method InhibitForever()
      requires Valid()
      modifies this
      ensures Valid() && State() == HeaterSpec.Inhibit(old(State()))
    {
      LatchOff(InhibitedFault, true, true, false, false);
    }

    /** A clear up to its flash write; RAM is only touched once that has succeeded. */
    method ClearFlash(storeOk: bool) returns (st: Status)
      requires Valid()
      modifies `flash
      ensures Valid() && (State(), st) == ClearStore(old(State()), storeOk)
    {
      if inhibited {
        return InvalidState;
      }
      var ok := PersistFault(false, NoFault, storeOk);
      return if ok then Ok else StoreFailed;
    }

    method ClearLatch()
      requires Valid()
      modifies `latchedOff, `target, `faultCode, `persistPending
      ensures Valid() && State() == ClearRam(old(State()))
    {
      latchedOff, target, faultCode, persistPending := false, 0.0, NoFault, false;
    }

    /** Boot-time restore of the latch from whatever the flash read gives. */
    method RestoreFault(read: BootRead)
      requires Valid()
      modifies this
      ensures Valid() && State() == LoadFault(old(State()), read)
    {
      var nsNotFound := !read.OpenFails? && flash.latch.None? && flash.code.None?;
      var openOk := !read.OpenFails? && !nsNotFound;
      var latchVal, codeVal := 0, 0;
      var latchReadOk, latchNotFound := false, false;
      if openOk {
        latchNotFound := read.ReadsBack? && flash.latch.None?;
        latchReadOk := read.ReadsBack? && flash.latch.Some?;
        if flash.latch.Some? {
          latchVal := flash.latch.value;
        }
        if read.ReadsBack? && read.codeReadable && flash.code.Some? {
          codeVal := flash.code.value;
        }
      }
      var decision := FaultDecide(openOk, nsNotFound, latchReadOk, latchNotFound, latchVal, codeVal);
      assert decision == Restore(flash, read);
      if decision.Some? {
        LatchOff(decision.value, false, false, false, false);
      }
    }

    method RetryPersist(now: int, lockFree: bool, storeOk: bool)
      requires Valid()
      modifies `persistRetryUs, `persistPending, `flash
      ensures Valid() && LatchState() == Retry(old(LatchState()), now, lockFree, storeOk)
    {
      if persistPending {
        var due := now - persistRetryUs >= 2_000_000;
        if due && lockFree {
          var still, code := latchedOff, faultCode;
          persistRetryUs := now;
          var ok := true;
          if still {
            ok := PersistFault(true, code, storeOk);
          }
          if ok {
            persistPending := false;
          }
        }
      }
    }

    // --- The tick --------------------------------------------------------------------------------------

    method Disarm()
      requires Valid()
      modifies this, pid
      ensures Valid() && LoopState() == Disarmed(old(LoopState()))
      ensures target == old(target) && control == old(control) && lastLinkUs == old(lastLinkUs)
      ensures LatchState() == old(LatchState()) && SettingsState() == old(SettingsState())
    {
      if on {
        on := false;
      }
      pid.Reset();
      heatIntent, fbCut, localCut := false, false, false;
    }

    /** The process variable and the two soft cuts. */
    method UpdateCuts(v: View)
      requires Valid() && v.Running()
      modifies `localCut, `fbCut, pid
      ensures Valid()
      ensures LoopState() == Cuts(old(LoopState()), v)
    {
      var external := v.control.Finite?;
      var changed := pid.SetSource(external);
      if external {
        localCut := LocalFoldbackCut(v.chamber, localCut);
      } else {
        localCut := false;
      }
      var (cut, resume) := EffectiveFoldback(v.userCut, v.rref);
      fbCut := FoldbackCut(v.ptc, fbCut, cut, resume);
    }

    /** On a change of method both paths start from clean history. */
    method SyncMethod()
      requires Valid()
      modifies `heatIntent, `tickMethodPrev, pid
      ensures Valid()
      ensures LoopState() == Synced(old(LoopState()), if usePid then Pid else BangBang)
    {
      var current := if usePid then 1 else 0;
      if tickMethodPrev != current {
        pid.Reset();
        heatIntent := false;
        tickMethodPrev := current;
      }
    }

    method DriveBangBang(regulation: real, goal: real)
      requires Valid()
      modifies `heatIntent, `on
      ensures Valid()
      ensures heatIntent == (regulation < goal - HYSTERESIS_C || (regulation < goal && old(heatIntent)))
      ensures on == (heatIntent && !localCut && !fbCut)
    {
      if regulation < goal - HYSTERESIS_C {
        heatIntent := true;
      } else if regulation >= goal {
        heatIntent := false;
      }
      on := heatIntent && !(localCut || fbCut);
    }

    method DrivePid(regulation: real, goal: real, step: PidResult, now: int)
      requires Valid()
      modifies `on, pid
      ensures Valid() && pid.Source() == old(pid.Source())
      ensures var duty := if step.PidFailed? || regulation >= goal || localCut || fbCut then 0.0 else step.duty;
              (pid.State(), on) == WindowOn(old(pid.State()), duty, now)
    {
      var duty := 0.0;
      if step.PidOutput? && regulation < goal {
        duty := step.duty;
      }
      on := pid.Drive(if localCut || fbCut then 0.0 else duty, now);
    }

    method RunLoop(v: View)
      requires Valid() && v.Running() && v.controlMethod == (if usePid then Pid else BangBang)
      modifies `localCut, `fbCut, `heatIntent, `tickMethodPrev, `on, pid
      ensures Valid() && LoopState() == DriveSsr(old(LoopState()), v)
    {
      hide WindowOn, Cuts, Synced, EvalTrip;
      UpdateCuts(v);
      SyncMethod();
      var regulation := v.Regulated();
      if !usePid {
        DriveBangBang(regulation, v.target);
      } else {
        DrivePid(regulation, v.target, v.pid, v.now);
      }
    }

    method TickOnce(e: Surroundings)
      requires Valid()
      modifies this, pid
      ensures Valid() && State() == HeaterSpec.Tick(old(State()), e)
    {
      hide Retry, EvalTrip, DoLatch, DriveSsr, Disarmed;
      RetryPersist(e.now, e.lockFree, e.retryOk);
      assert State() == old(State()).(latch := Retry(old(LatchState()), e.now, e.lockFree, e.retryOk));
      ghost var v := ViewOf(State(), e);
      var armed := target > 0.0;
      var trip := EvalTrip(e.ptc, e.chamber, armed, e.now - lastLinkUs > commsTimeoutUs);
      assert trip == v.Trip();
      if trip != NoFault {
        LatchOff(trip, false, true, true, e.tripOk);
        return;
      }
      if latchedOff || !armed {
        Disarm();
        return;
      }
      RunLoop(View(target, latchedOff, e.now - lastLinkUs > commsTimeoutUs, control, fbCutUser, e.rref,
                   if usePid then Pid else BangBang, e.ptc, e.chamber, e.pid, e.now));
    }
  }
}
