/** pb_policy_on_button: what one press of a front-panel button does when nothing else happens meanwhile, and the same
    press cut into its sections with the rest of the device in between. */
module FrontPanel {
  import opened Values
  import opened SafetyRules
  import opened PolicySpec
  import opened HeaterSpec
  import opened System
  import opened Commands

  datatype PanelButton = PowerKey | AutoKey | OnKey | DryKey

  function Toggle(c: Core, m: Mode, now: int): (Core, Result) {
    if c.p.session.mode == m then (if m == PowerOn then RestoreOrOff(c, Button) else SetOff(c, Button), Accepted)
    else
      match m
      case PowerOn =>
        SetPowerOn(c, now, Finite(c.p.params.manual), Button, REVISION_ANY, LOCAL_DEFAULT_MS, false)
      case Auto =>
        SetAuto(c, now, Finite(c.p.params.autoTarget), Finite(c.p.params.autoBed), Button, REVISION_ANY)
      case Drying =>
        StartDrying(c, now, Finite(c.p.params.dryTarget), c.p.params.dryHours, Button, REVISION_ANY)
      case Off => (c, InvalidCommand)
  }

  function LongPress(c: Core, b: PanelButton, storeOk: bool): Core {
    if b == PowerKey && c.h.latch.Faulted() then
      var (d, r) := ClearBegin(c, REVISION_ANY, storeOk);
      if r == Accepted then ClearFinish(d, Button) else d
    else PanicOffNow(c, Button)
  }

  function Press(c: Core, b: PanelButton, long: bool, now: int, storeOk: bool): Core {
    if b == OnKey && !long && c.p.controlSource == Unbound then Tap(c, now)
    else
      var k := CancelClicks(c);
      if long then LongPress(k, b, storeOk)
      else
        match b
        case OnKey => Toggle(k, PowerOn, now).0
        case AutoKey => Toggle(k, Auto, now).0
        case DryKey => Toggle(k, Drying, now).0
        case PowerKey => if k.p.session.mode == PolicySpec.Off then k else SetOff(k, Button)
  }

  lemma ToggleKeepsInv(c: Core, clock: int, m: Mode, now: int)
    requires CoreInv(c, clock) && 0 <= clock <= now
    ensures CoreInv(Toggle(c, m, now).0, now)
  {
    hide SetPowerOn, SetAuto, StartDrying, SetOff, RestoreOrOff;
    OffKeepsInv(c, clock, Button);
    PowerOnKeepsInv(c, clock, now, Finite(c.p.params.manual), Button, REVISION_ANY, LOCAL_DEFAULT_MS, false);
    AutoKeepsInv(c, clock, now, Finite(c.p.params.autoTarget), Finite(c.p.params.autoBed), Button, REVISION_ANY);
    DryKeepsInv(c, clock, now, Finite(c.p.params.dryTarget), c.p.params.dryHours, Button, REVISION_ANY);
  }

  lemma LongPressKeepsInv(c: Core, clock: int, b: PanelButton, storeOk: bool)
    requires CoreInv(c, clock)
    ensures CoreInv(LongPress(c, b, storeOk), clock)
  {
  }

  /** Any press keeps the policy's and the heater's invariants. */
  lemma PressKeepsInv(c: Core, clock: int, b: PanelButton, long: bool, now: int, storeOk: bool)
    requires CoreInv(c, clock) && 0 <= clock <= now
    ensures CoreInv(Press(c, b, long, now, storeOk), now)
  {
    ButtonsKeepInv(c, clock, now, NonFinite, 0, 0);
    var k := CancelClicks(c);
    hide Toggle, LongPress, SetOff, Tap, CancelClicks;
    LongPressKeepsInv(k, now, b, storeOk);
    OffKeepsInv(k, now, Button);
    ToggleKeepsInv(k, now, PowerOn, now);
    ToggleKeepsInv(k, now, Auto, now);
    ToggleKeepsInv(k, now, Drying, now);
  }

  /** Power is always the way to OFF with no heat asked for. Pressed while OFF already it drops a pending
      selection and changes nothing else, the revision included. */
  lemma PowerPressIsOff(c: Core, clock: int, now: int, storeOk: bool)
    requires CoreInv(c, clock)
    ensures var r := Press(c, PowerKey, false, now, storeOk);
            && r.p.session.mode == PolicySpec.Off && r.h.target == 0.0 && r.p.clicks == NO_CLICKS
            && (if c.p.session.mode == PolicySpec.Off then r == c.(p := c.p.(clicks := NO_CLICKS))
                else r.p.stamp == Advance(c.p.stamp, Button))
  {
  }

  /** On a bound device a second On press takes back the first: a manual run that replaced AUTO gives way to AUTO
      waiting on the remembered settings, and one from anywhere else to OFF. */
  lemma OnPressTakenBack(c: Core, clock: int, now: int, later: int, storeOk: bool)
    requires CoreInv(c, clock) && c.p.controlSource != Unbound && c.p.session.mode != PowerOn
    requires !c.h.latch.Faulted() && c.p.params.manual >= MIN_MODE_TARGET_C
    ensures var on := Press(c, OnKey, false, now, storeOk);
            var r := Press(on, OnKey, false, later, storeOk);
            && on.p.session.mode == PowerOn && on.p.session.lease.None?
            && on.h.target == on.p.session.requested == Min(c.p.params.manual, c.h.settings.maxTarget)
            && r.p.session.mode == (if c.p.session.mode == Auto then Auto else PolicySpec.Off)
            && r.h.target == 0.0 && !r.p.session.autoEngaged
            && (c.p.session.mode == Auto ==>
                  r.p.session.requested == c.p.params.autoTarget && r.p.session.bedThreshold == c.p.params.autoBed)
            && r.p.params == c.p.params.(manual := on.h.target)
  {
    hide CoreInv;
    assert c.h.settings.maxTarget >= MIN_TARGET_C by {
      CeilingOfInv(c, clock);
    }
    var k := CancelClicks(c);
    var on := Press(c, OnKey, false, now, storeOk);
    assert on == EnterPowerOn(k, now, c.p.params.manual, Button, LOCAL_DEFAULT_MS);
    assert on.p.session.mode == PowerOn;
    assert on.p.session.resume == if c.p.session.mode == Auto then Auto else PolicySpec.Off;
    hide EnterPowerOn;
  }

  lemma CeilingOfInv(c: Core, clock: int)
    requires CoreInv(c, clock)
    ensures c.h.settings.maxTarget >= MIN_TARGET_C
  {
  }

  /** A long press latches a panic-off, except Power on a faulted device, which clears the fault exactly when it is
      not an inhibit and flash can be written. Either way no heat is asked for afterwards. */
  lemma LongPressStopsHeat(c: Core, clock: int, b: PanelButton, now: int, storeOk: bool)
    requires CoreInv(c, clock)
    ensures var r := Press(c, b, true, now, storeOk);
            var clears := b == PowerKey && c.h.latch.Faulted();
            && r.h.target == 0.0
            && (!clears ==> r.p.session.mode == PolicySpec.Off && r.h.latch.latched && r.h.latch.code == PanicOff)
            && (clears ==> (r.h.latch.Faulted() <==> c.h.latch.inhibited || !storeOk))
  {
  }

  /** No press of any button asks a faulted heater for heat. */
  lemma FaultedPressNeverHeats(c: Core, clock: int, b: PanelButton, long: bool, now: int, storeOk: bool)
    requires CoreInv(c, clock) && c.h.latch.Faulted()
    ensures Press(c, b, long, now, storeOk).h.target == 0.0
  {
  }

  // --- The same press cut into its sections, with the rest of the device in between ----------------------

  /** The call a press ends in, with the parameters it read earlier. */
  datatype PanelCall =
    | CallOff
    | CallStop
    | CallPanic
    | CallClear
    | CallOn(target: real)
    | CallAuto(target: real, bed: real)
    | CallDry(target: real, hours: nat)

  /** Where the button task is inside pb_policy_on_button. */
  datatype PressAt =
    | Resting
    | Tapping(b: PanelButton, long: bool)     // a short On press: the tap is not counted yet
    | Cancelling(b: PanelButton, long: bool)
    | Looking(b: PanelButton, long: bool)     // fault or mode not read yet
    | Fetching(m: Mode)                       // parameters not read yet
    | Calling(call: PanelCall)
    | Finishing                               // a clear past its flash half

  datatype World = World(dev: Device, at: PressAt)

  datatype Act = Begin(b: PanelButton, long: bool) | Go(now: int, storeOk: bool) | Other(s: Step)

  function Began(b: PanelButton, long: bool): PressAt {
    if b == OnKey && !long then Tapping(b, long) else Cancelling(b, long)
  }

  function ModeOfKey(b: PanelButton): Mode {
    match b
    case OnKey => PowerOn
    case AutoKey => Auto
    case DryKey => Drying
    case PowerKey => PolicySpec.Off
  }

  function StepOfCall(call: PanelCall, now: int, storeOk: bool): Step {
    match call
    case CallOff => OffCmd(Button)
    case CallStop => StopRun(Button)
    case CallPanic => Panic(Button)
    case CallClear => ClearCmd(Button, REVISION_ANY, storeOk)
    case CallOn(target) => PowerOnCmd(now, Finite(target), Button, REVISION_ANY)
    case CallAuto(target, bed) => AutoCmd(now, Finite(target), Finite(bed), Button, REVISION_ANY)
    case CallDry(target, hours) => DryCmd(now, Finite(target), hours, Button, REVISION_ANY)
  }

  /** What an act does to the device, if anything. */
  function StepOf(w: World, a: Act): Option<Step> {
    match a
    case Begin(_, _) => None
    case Other(s) => Some(s)
    case Go(now, storeOk) =>
      match w.at
      case Tapping(_, _) => Some(TapOn(now))
      case Cancelling(_, _) => Some(OtherButton)
      case Calling(call) => Some(StepOfCall(call, now, storeOk))
      case Finishing => Some(ClearRest)
      case _ => None
  }

  /** The reads a press acts on: the fault of a long Power press, the mode of a short press. */
  function Looked(c: Core, b: PanelButton, long: bool): PressAt {
    if long then Calling(if b == PowerKey && c.h.latch.Faulted() then CallClear else CallPanic)
    else if b == PowerKey then (if c.p.session.mode == PolicySpec.Off then Resting else Calling(CallOff))
    else if c.p.session.mode == ModeOfKey(b) then Calling(if b == OnKey then CallStop else CallOff)
    else Fetching(ModeOfKey(b))
  }

  function Fetched(p: Params, m: Mode): PanelCall {
    match m
    case PowerOn => CallOn(p.manual)
    case Auto => CallAuto(p.autoTarget, p.autoBed)
    case Drying => CallDry(p.dryTarget, p.dryHours)
    case Off => CallOff
  }

  /** Where the button task goes on after its section. */
  function Next(w: World, now: int, storeOk: bool): PressAt {
    var c := w.dev.core;
    match w.at
    case Resting => Resting
    case Tapping(b, long) => if c.p.controlSource == Unbound then Resting else Cancelling(b, long)
    case Cancelling(b, long) => Looking(b, long)
    case Looking(b, long) => Looked(c, b, long)
    case Fetching(m) => Calling(Fetched(c.p.params, m))
    case Calling(call) =>
      if call.CallClear? && Section(w.dev, StepOfCall(call, now, storeOk)).1 == Accepted then Finishing else Resting
    case Finishing => Resting
  }

  /** A section needs the policy lock, which a clear in progress holds; the rest of a clear is its own task's. */
  predicate Can(w: World, a: Act) {
    && (StepOf(w, a).Some? ==> Enabled(w.dev, StepOf(w, a).value))
    && match a
       case Begin(_, _) => w.at.Resting?
       case Go(_, _) => !w.at.Resting? && (w.at.Fetching? || (w.at.Looking? && !w.at.long) ==> w.dev.clearing.None?)
       case Other(s) => s.ClearRest? ==> !w.at.Finishing?
  }

  function Do(w: World, a: Act): World {
    var dev := if StepOf(w, a).Some? then Apply(w.dev, StepOf(w, a).value) else w.dev;
    match a
    case Begin(b, long) => World(dev, Began(b, long))
    case Go(now, storeOk) => World(dev, Next(w, now, storeOk))
    case Other(s) => World(dev, if s.Reboot? then Resting else w.at)
  }

  ghost predicate Trail(ws: seq<World>, acts: seq<Act>) {
    && |ws| == |acts| + 1
    && (exists store: FaultStore, b: BootInput :: b.now >= 0 && ws[0] == World(BootDevice(store, 0, b), Resting))
    && forall i :: 0 <= i < |acts| ==> Can(ws[i], acts[i]) && ws[i + 1] == Do(ws[i], acts[i])
  }

  /** Every interleaving of presses with everything else is a run of the device. So whatever holds over all runs, no
      heat without authority and the durable latch among it, holds however presses are interrupted. */
  lemma {:induction false} InterruptedPressesAreRuns(ws: seq<World>, acts: seq<Act>, n: nat)
    returns (states: seq<Device>, steps: seq<Step>)
    requires Trail(ws, acts) && n <= |acts|
    ensures Run(states, steps) && states[|steps|] == ws[n].dev
  {
    hide Apply, Enabled, BootDevice, Section, Next;
    if n == 0 {
      var store: FaultStore, b: BootInput :| b.now >= 0 && ws[0] == World(BootDevice(store, 0, b), Resting);
      states, steps := [ws[0].dev], [];
    } else {
      states, steps := InterruptedPressesAreRuns(ws, acts, n - 1);
      var s := StepOf(ws[n - 1], acts[n - 1]);
      if s.Some? {
        states, steps := RunGoesOn(states, steps, s.value);
      }
    }
  }

  lemma InterruptedPressesKeepInv(ws: seq<World>, acts: seq<Act>, n: nat)
    requires Trail(ws, acts) && n <= |acts|
    ensures Inv(ws[n].dev)
  {
    hide Inv, Trail;
    var states, steps := InterruptedPressesAreRuns(ws, acts, n);
    RunKeepsInv(states, steps, |steps|);
  }

  /** A press that is past the flash half of its clear still holds the lock. */
  lemma {:induction false} FinishingHoldsLock(ws: seq<World>, acts: seq<Act>, n: nat)
    requires Trail(ws, acts) && n <= |acts|
    ensures ws[n].at.Finishing? ==> ws[n].dev.clearing == Some(Button)
  {
    if n > 0 {
      FinishingHoldsLock(ws, acts, n - 1);
      FinishingStep(ws[n - 1], acts[n - 1]);
    }
    hide Do, Can, BootDevice;
  }

  lemma FinishingStep(w: World, a: Act)
    requires Can(w, a) && (w.at.Finishing? ==> w.dev.clearing == Some(Button))
    ensures var v := Do(w, a); v.at.Finishing? ==> v.dev.clearing == Some(Button)
  {
    hide Section, TickLocked;
  }

  /** What a press promises at its last section, whatever came in between: a panic latches the heater off, a Power
      press turns it off, and no press that found the heater faulted at its call gets any heat. */
  lemma LastSectionStops(w: World, now: int, storeOk: bool)
    requires Inv(w.dev) && w.at.Calling? && Can(w, Go(now, storeOk))
    ensures var c := Do(w, Go(now, storeOk)).dev.core;
            && (w.at.call.CallPanic? ==> c.p.session.mode == PolicySpec.Off && c.h.latch.latched && c.h.target == 0.0)
            && (w.at.call.CallOff? ==> c.p.session.mode == PolicySpec.Off && c.h.target == 0.0)
            && (w.dev.core.h.latch.Faulted() ==> c.h.target == 0.0)
  {
    hide TickLocked, BootCore, NotifyLink;
  }

  // --- Left alone, the sections are the press -------------------------------------------------------------

  function Remaining(at: PressAt): nat {
    match at
    case Resting => 0
    case Finishing => 1
    case Calling(_) => 2
    case Fetching(_) => 3
    case Looking(_, _) => 4
    case Cancelling(_, _) => 5
    case Tapping(_, _) => 6
  }

  lemma SectionsEnd(w: World, now: int, storeOk: bool)
    requires !w.at.Resting?
    ensures Remaining(Next(w, now, storeOk)) < Remaining(w.at)
  {
    hide Section;
  }

  /** A press with nothing in between. */
  function Alone(w: World, now: int, storeOk: bool): World
    decreases Remaining(w.at)
  {
    if w.at.Resting? then w
    else
      SectionsEnd(w, now, storeOk);
      Alone(Do(w, Go(now, storeOk)), now, storeOk)
  }

  lemma AloneSteps(w: World, now: int, storeOk: bool)
    requires !w.at.Resting?
    ensures Alone(w, now, storeOk) == Alone(Do(w, Go(now, storeOk)), now, storeOk)
  {
    hide Do;
  }

  lemma AloneRests(w: World, now: int, storeOk: bool)
    requires w.at.Resting?
    ensures Alone(w, now, storeOk) == w
  {
  }

  lemma AloneCalls(w: World, now: int, storeOk: bool)
    requires w.at.Calling?
    ensures var d := Apply(w.dev, StepOfCall(w.at.call, now, storeOk));
            Alone(w, now, storeOk).dev.core
            == if Next(w, now, storeOk).Finishing? then ClearFinish(d.core, Button) else d.core
  {
    AloneSteps(w, now, storeOk);
    var v := Do(w, Go(now, storeOk));
    if v.at.Finishing? {
      AloneSteps(v, now, storeOk);
      AloneRests(Do(v, Go(now, storeOk)), now, storeOk);
      ClearRestFinishes(v.dev, Button);
      CallClearBegins(w.dev, now, storeOk);
    } else {
      AloneRests(v, now, storeOk);
    }
    hide Alone, Apply, Section;
  }

  lemma ClearRestFinishes(d: Device, src: Source)
    ensures d.clearing == Some(src) ==> Apply(d, ClearRest).core == ClearFinish(d.core, src)
  {
    hide ClearFinish;
  }

  lemma CallClearBegins(d: Device, now: int, storeOk: bool)
    ensures var s := StepOfCall(CallClear, now, storeOk);
            && Section(d, s) == ClearBegin(d.core, REVISION_ANY, storeOk)
            && Apply(d, s).core == ClearBegin(d.core, REVISION_ANY, storeOk).0
            && (Section(d, s).1 == Accepted ==> Apply(d, s).clearing == Some(Button))
  {
    hide ClearBegin;
  }

  /** Uninterrupted, the sections together are exactly the press. */
  lemma AloneIsPress(d: Device, b: PanelButton, long: bool, now: int, storeOk: bool)
    ensures Alone(World(d, Began(b, long)), now, storeOk).dev.core == Press(d.core, b, long, now, storeOk)
  {
    hide Alone, Apply, Section;
    hide SetOff, RestoreOrOff, SetPowerOn, SetAuto, StartDrying, ClearBegin, ClearFinish, PanicOffNow;
    var w := World(d, Began(b, long));
    if w.at.Tapping? {
      AloneSteps(w, now, storeOk);
      TapSection(d, now);
      w := Do(w, Go(now, storeOk));
      if w.at.Resting? {
        AloneRests(w, now, storeOk);
      }
    }
    if !w.at.Resting? {
      AloneSteps(w, now, storeOk);
      CancelSection(w.dev);
      w := Do(w, Go(now, storeOk));
      AloneSteps(w, now, storeOk);
      LookedIsPress(w.dev, b, long, now, storeOk);
    }
  }

  lemma TapSection(d: Device, now: int)
    ensures Apply(d, TapOn(now)).core == Tap(d.core, now)
    ensures d.core.p.controlSource != Unbound ==> Tap(d.core, now) == d.core
    ensures Tap(d.core, now).p.controlSource == d.core.p.controlSource
  {
    hide TapClicks;
  }

  lemma CancelSection(d: Device)
    ensures Apply(d, OtherButton).core == CancelClicks(d.core)
  {
  }

  /** From the reads on. */
  function AfterCancel(k: Core, b: PanelButton, long: bool, now: int, storeOk: bool): Core {
    if long then LongPress(k, b, storeOk)
    else if b == PowerKey then (if k.p.session.mode == PolicySpec.Off then k else SetOff(k, Button))
    else Toggle(k, ModeOfKey(b), now).0
  }

  lemma LookedIsPress(d: Device, b: PanelButton, long: bool, now: int, storeOk: bool)
    ensures Alone(World(d, Looked(d.core, b, long)), now, storeOk).dev.core
            == AfterCancel(d.core, b, long, now, storeOk)
  {
    hide Alone, Apply, Section;
    hide SetOff, RestoreOrOff, SetPowerOn, SetAuto, StartDrying, ClearBegin, ClearFinish, PanicOffNow;
    var w := World(d, Looked(d.core, b, long));
    if w.at.Resting? {
      AloneRests(w, now, storeOk);
    } else {
      if w.at.Fetching? {
        AloneSteps(w, now, storeOk);
        w := Do(w, Go(now, storeOk));
      }
      AloneCalls(w, now, storeOk);
      CallsAreSetters(d, w.at.call, now, storeOk);
    }
  }

  lemma CallsAreSetters(d: Device, call: PanelCall, now: int, storeOk: bool)
    ensures var c := Apply(d, StepOfCall(call, now, storeOk)).core;
            match call
            case CallOff => c == SetOff(d.core, Button)
            case CallStop => c == RestoreOrOff(d.core, Button)
            case CallPanic => c == PanicOffNow(d.core, Button)
            case CallClear => c == ClearBegin(d.core, REVISION_ANY, storeOk).0
            case CallOn(t) =>
              c == SetPowerOn(d.core, now, Finite(t), Button, REVISION_ANY, LOCAL_DEFAULT_MS, false).0
            case CallAuto(t, bed) => c == SetAuto(d.core, now, Finite(t), Finite(bed), Button, REVISION_ANY).0
            case CallDry(t, hours) => c == StartDrying(d.core, now, Finite(t), hours, Button, REVISION_ANY).0
    ensures call.CallClear? ==>
              Section(d, StepOfCall(call, now, storeOk)).1 == ClearBegin(d.core, REVISION_ANY, storeOk).1
  {
    hide SetOff, RestoreOrOff, SetPowerOn, SetAuto, StartDrying, ClearBegin, ClearFinish, PanicOffNow;
    hide TickLocked, BootCore;
  }

  // --- What every press leaves ------------------------------------------------------------------------

  /** The remembered target can be started: warm enough, and no fault. */
  ghost predicate Starts(c: Core, target: real) {
    target >= 30.0 && !c.h.latch.latched && !c.h.latch.inhibited
  }

  /** A short press of On, Auto or Dry in its own mode stops it; in any other it starts the mode from its remembered
      parameters, if they can be started, and changes nothing else. Power stops whatever is on. */
  ghost predicate ShortLeft(c: Core, b: PanelButton, now: int, r: Core) {
    var p, mode := c.p.params, c.p.session.mode;
    match b
    case OnKey =>
      if mode == PowerOn
      then (if c.p.session.resume == Auto then RestoredLeft(c, r, Button) else OffLeft(c, r, Button))
      else if Starts(c, p.manual) then PowerOnLeft(c, r, now, p.manual, Button, 12)
      else r == c
    case AutoKey =>
      if mode == Auto then OffLeft(c, r, Button)
      else if Starts(c, p.autoTarget) && 40.0 <= p.autoBed <= 120.0 then AutoLeft(c, r, p.autoTarget, p.autoBed, Button)
      else r == c
    case DryKey =>
      if mode == Drying then OffLeft(c, r, Button)
      else if Starts(c, p.dryTarget) && 1 <= p.dryHours <= 12 then DryLeft(c, r, now, p.dryTarget, p.dryHours, Button)
      else r == c
    case PowerKey => if mode == PolicySpec.Off then r == c else OffLeft(c, r, Button)
  }

  /** A long press is a panic-off, save for Power on a fault: that clears it, in flash and in RAM, unless the heater is
      inhibited or flash fails, and then nothing changes. */
  ghost predicate LongLeft(c: Core, b: PanelButton, storeOk: bool, r: Core) {
    var l := c.h.latch;
    if b != PowerKey || (!l.latched && !l.inhibited) then
      && r.h == c.h.(target := 0.0, latch := l.(latched := true, code := PanicOff))
      && r.p.session.mode == PolicySpec.Off && r.p.session.lease.None? && r.p.lastFaulted
    else if l.inhibited || !storeOk then r == c
    else
      && r.h == c.h.(target := 0.0, latch := l.(latched := false, code := NoFault, pending := false,
                                                store := FaultStore(Some(0), Some(0))))
      && r.p.session.mode == PolicySpec.Off && r.p.session.lease.None? && !r.p.lastFaulted
  }

  lemma ShortPressLeaves(c: Core, clock: int, b: PanelButton, now: int)
    requires CoreInv(c, clock) && 0 <= clock <= now
    ensures ShortLeft(c, b, now, AfterCancel(c, b, false, now, true))
  {
    hide SetOff, RestoreOrOff, SetPowerOn, SetAuto, StartDrying, CoreInv;
    hide Apply, Section, PowerOnLeft, AutoLeft, DryLeft, OffLeft, RestoredLeft;
    var d, p := Device(c, clock, None, None, None), c.p.params;
    CallIsAnswered(d, CallOff, now);
    CallIsAnswered(d, CallStop, now);
    CallIsAnswered(d, CallOn(p.manual), now);
    CallIsAnswered(d, CallAuto(p.autoTarget, p.autoBed), now);
    CallIsAnswered(d, CallDry(p.dryTarget, p.dryHours), now);
  }

  lemma CallIsAnswered(d: Device, call: PanelCall, now: int)
    requires Inv(d) && d.clearing.None? && d.clock <= now
    ensures var c := d.core;
            match call
            case CallOff => OffLeft(c, SetOff(c, Button), Button)
            case CallStop =>
              var r := RestoreOrOff(c, Button);
              if c.p.session.resume == Auto then RestoredLeft(c, r, Button) else OffLeft(c, r, Button)
            case CallOn(t) =>
              var r := SetPowerOn(c, now, Finite(t), Button, REVISION_ANY, LOCAL_DEFAULT_MS, false).0;
              if Starts(c, t) then PowerOnLeft(c, r, now, t, Button, 12) else r == c
            case CallAuto(t, bed) =>
              var r := SetAuto(c, now, Finite(t), Finite(bed), Button, REVISION_ANY).0;
              if Starts(c, t) && 40.0 <= bed <= 120.0 then AutoLeft(c, r, t, bed, Button) else r == c
            case CallDry(t, hours) =>
              var r := StartDrying(c, now, Finite(t), hours, Button, REVISION_ANY).0;
              if Starts(c, t) && 1 <= hours <= 12 then DryLeft(c, r, now, t, hours, Button) else r == c
            case _ => true
  {
    hide SetOff, RestoreOrOff, SetPowerOn, SetAuto, StartDrying, Section, Apply, Inv;
    hide PowerOnLeft, AutoLeft, DryLeft, OffLeft, RestoredLeft;
    var s := StepOfCall(call, now, true);
    CallsAreSetters(d, call, now, true);
    if call.CallOff? || call.CallStop? {
      OffAndStopLeave(d, s);
    } else if call.CallOn? || call.CallAuto? || call.CallDry? {
      AcceptedExactly(d, s);
      if Section(d, s).1 == Accepted {
        AcceptedCommandLeaves(d, s);
      }
    }
  }

  lemma LongPressLeaves(c: Core, b: PanelButton, storeOk: bool)
    requires CoreInv(c, 0) || exists clock :: CoreInv(c, clock)
    ensures LongLeft(c, b, storeOk, LongPress(c, b, storeOk))
  {
    hide Bookkeeping, Deadlines;
  }

  /** What any press leaves: a short On press of an unbound device counts a tap and nothing else; every other one drops
      the taps counted so far and does what its button is for. */
  lemma PressLeaves(c: Core, clock: int, b: PanelButton, long: bool, now: int, storeOk: bool)
    requires CoreInv(c, clock) && 0 <= clock <= now
    ensures var r, k := Press(c, b, long, now, storeOk), c.(p := c.p.(clicks := Clicks(0, 0)));
            if b == OnKey && !long && c.p.controlSource == Unbound then
              r == c.(p := c.p.(clicks := r.p.clicks)) && r.p.clicks.deadline == now + 700_000
              && r.p.clicks.count == (if c.p.clicks.count == 0 || now >= c.p.clicks.deadline then 1
                                      else if c.p.clicks.count < 4 then c.p.clicks.count + 1 else 4)
            else if long then LongLeft(k, b, storeOk, r)
            else ShortLeft(k, b, now, r)
  {
    var k := CancelClicks(c);
    assert k == c.(p := c.p.(clicks := Clicks(0, 0)));
    assert CoreInv(k, clock);
    hide CoreInv, SetOff, Toggle, LongPress, CancelClicks, ShortLeft, LongLeft;
    LongPressLeaves(k, b, storeOk);
    ShortPressLeaves(k, clock, b, now);
  }
}
