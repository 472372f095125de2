/** The heater's three hysteresis latches equal their histories, over any series of passes of the loop.
    A pass may see any target, thresholds, method, sensors and PID result. */
module LatchHistory {
  import opened Values
  import opened SafetyRules
  import opened SsrWindow
  import opened HeaterSpec
  import opened PolicySpec
  import opened System
  import opened Authority
  import opened Obedience

  const BOOT_LOOP := Loop(false, false, false, false, None, None, None)

  function LoopAfter(views: seq<View>): Loop {
    if views == [] then BOOT_LOOP
    else Control(LoopAfter(views[..|views| - 1]), views[|views| - 1])
  }

  /** A pass that trips leaves the latches as they are; the passes after it are disarmed. */
  ghost predicate Tripped(v: View) {
    v.Trip() != NoFault
  }

  /** The element's cut for this pass; it resumes 3 C below. */
  ghost function CutOf(v: View): real {
    ElementCut(v.userCut, v.rref)
  }

  ghost predicate SetsElement(v: View) {
    v.Running() && v.ptc.c >= CutOf(v)
  }

  ghost predicate HoldsElement(v: View) {
    Tripped(v) || (v.Running() && CutOf(v) - 3.0 <= v.ptc.c < CutOf(v))
  }

  ghost predicate SetsLocal(v: View) {
    v.Running() && v.control.Finite? && v.chamber.c >= 72.0
  }

  ghost predicate HoldsLocal(v: View) {
    Tripped(v) || (v.Running() && v.control.Finite? && 67.0 <= v.chamber.c < 72.0)
  }

  /** What the pass regulates: the printer's chamber if one is chosen, else the local thermistor. */
  ghost function Measured(v: View): real
    requires v.Running()
  {
    if v.control.Finite? then v.control.c else v.chamber.c
  }

  ghost predicate SetsIntent(v: View) {
    v.Running() && v.controlMethod == BangBang && Measured(v) < v.target - 1.0
  }

  ghost predicate HoldsIntent(v: View) {
    Tripped(v) || (v.Running() && v.controlMethod == BangBang && v.target - 1.0 <= Measured(v) < v.target)
  }

  /** Some pass set the latch and every later pass only held it. */
  ghost predicate Since(views: seq<View>, sets: View -> bool, holds: View -> bool) {
    exists i :: 0 <= i < |views| && sets(views[i]) && forall j :: i < j < |views| ==> holds(views[j])
  }

  /** Since, one pass longer. */
  lemma SinceStep(views: seq<View>, v: View, sets: View -> bool, holds: View -> bool)
    ensures Since(views + [v], sets, holds) <==> sets(v) || (holds(v) && Since(views, sets, holds))
  {
    var all := views + [v];
    if sets(v) {
      assert sets(all[|views|]);
    }
    if holds(v) && Since(views, sets, holds) {
      var i :| 0 <= i < |views| && sets(views[i]) && forall j :: i < j < |views| ==> holds(views[j]);
      assert sets(all[i]) && forall j :: i < j < |all| ==> holds(all[j]);
    }
    if Since(all, sets, holds) {
      var i :| 0 <= i < |all| && sets(all[i]) && forall j :: i < j < |all| ==> holds(all[j]);
      if i < |views| {
        assert holds(all[|views|]);
        assert sets(views[i]) && forall j :: i < j < |views| ==> holds(all[j]) && all[j] == views[j];
      }
    }
  }

  /** One pass sets, holds or drops each latch. */
  lemma ControlSteps(l: Loop, v: View)
    requires l.heatIntent ==> l.methodPrev == Some(BangBang)
    ensures var r := Control(l, v);
            && (r.fbCut <==> SetsElement(v) || (HoldsElement(v) && l.fbCut))
            && (r.localCut <==> SetsLocal(v) || (HoldsLocal(v) && l.localCut))
            && (r.heatIntent <==> SetsIntent(v) || (HoldsIntent(v) && l.heatIntent))
            && (r.heatIntent ==> r.methodPrev == Some(BangBang))
  {
  }

  /** The element cut, the local cut and the bang-bang intent after any passes are exactly their histories;
      the method memory is bang-bang whenever the intent is up. */
  lemma {:induction false} LatchesAreHistories(views: seq<View>)
    ensures var l := LoopAfter(views);
            && (l.fbCut <==> Since(views, SetsElement, HoldsElement))
            && (l.localCut <==> Since(views, SetsLocal, HoldsLocal))
            && (l.heatIntent <==> Since(views, SetsIntent, HoldsIntent))
            && (l.heatIntent ==> l.methodPrev == Some(BangBang))
  {
    if views != [] {
      var front, v := views[..|views| - 1], views[|views| - 1];
      assert views == front + [v];
      LatchesAreHistories(front);
      ControlSteps(LoopAfter(front), v);
      hide Control, Since, SetsElement, HoldsElement, SetsLocal, HoldsLocal, SetsIntent, HoldsIntent;
      SinceStep(front, v, SetsElement, HoldsElement);
      SinceStep(front, v, SetsLocal, HoldsLocal);
      SinceStep(front, v, SetsIntent, HoldsIntent);
    }
  }

  /** After a pass the SSR is off unless the pass ran; a bang-bang pass drives it by intent and no cut, and
      no pass of either method drives it through a cut. */
  lemma DriveFollowsLatches(views: seq<View>)
    requires views != []
    ensures var l, v := LoopAfter(views), views[|views| - 1];
            && (l.on ==> v.Running() && !l.fbCut && !l.localCut && Measured(v) < v.target)
            && (v.Running() && v.controlMethod == BangBang ==> (l.on <==> l.heatIntent && !l.fbCut && !l.localCut))
  {
    var l := LoopAfter(views[..|views| - 1]);
    hide LoopAfter;
  }

  /** From a pass at or above the cut, the SSR stays off until a pass below resume or a disarmed one. */
  lemma OffFromCutToResume(views: seq<View>, i: nat)
    requires i < |views| && SetsElement(views[i])
    requires forall j :: i < j < |views|
               ==> Tripped(views[j]) || (views[j].Running() && views[j].ptc.c >= CutOf(views[j]) - 3.0)
    ensures !LoopAfter(views).on
  {
    LatchesAreHistories(views);
    DriveFollowsLatches(views);
    var k := LastCut(views, i);
    assert SetsElement(views[k]) && forall j :: k < j < |views| ==> HoldsElement(views[j]);
  }

  lemma LastCut(views: seq<View>, i: nat) returns (k: nat)
    requires i < |views| && SetsElement(views[i])
    ensures i <= k < |views| && SetsElement(views[k]) && forall j :: k < j < |views| ==> !SetsElement(views[j])
    decreases |views| - i
  {
    k := i;
    if j :| i < j < |views| && SetsElement(views[j]) {
      k := LastCut(views, j);
    }
  }

  /** A pass trips on a hazard, and runs when there is none and an unlatched heater is asked for heat. */
  lemma WhenAPassRuns(v: View)
    ensures var over := (v.ptc.Valid? && v.ptc.c >= 105.0) || (v.chamber.Valid? && v.chamber.c >= 85.0);
            var unsafe := v.ptc.Invalid? || v.chamber.Invalid? || v.linkExpired;
            && (Tripped(v) <==> over || (v.target > 0.0 && unsafe))
            && (v.Running() <==> !over && !unsafe && v.target > 0.0 && !v.latched)
  {
  }

  // --- The PID method drives the window ------------------------------------------------------------

  /** The method of the last pass that ran. */
  ghost function MethodBefore(views: seq<View>): Option<ControlMethod> {
    if views == [] then None
    else
      var v := views[|views| - 1];
      if v.Running() then Some(v.controlMethod) else MethodBefore(views[..|views| - 1])
  }

  /** The sensor the window was opened for; a pass that changes the method forgets it, and so does a disarmed one. */
  ghost function SensorBefore(views: seq<View>): Option<bool> {
    if views == [] then None
    else
      var front, v := views[..|views| - 1], views[|views| - 1];
      if Tripped(v) then SensorBefore(front)
      else if !v.Running() || MethodBefore(front) != Some(v.controlMethod) then None
      else Some(v.control.Finite?)
  }

  /** What a pass asks of the window: the PID duty below the target and with no cut, else none. */
  ghost function Asks(v: View, cut: bool): real
    requires v.Running()
  {
    if v.pid.PidFailed? || Measured(v) >= v.target || cut then 0.0 else v.pid.duty
  }

  /** The calls of the window driver since it last started afresh: disarmed, or another method or sensor. */
  ghost function Calls(views: seq<View>): seq<Call> {
    if views == [] then []
    else
      var front, v := views[..|views| - 1], views[|views| - 1];
      if Tripped(v) then Calls(front)
      else if !v.Running() then []
      else
        var known := MethodBefore(front) == Some(v.controlMethod) && SensorBefore(front) == Some(v.control.Finite?);
        var before := if known then Calls(front) else [];
        if v.controlMethod == BangBang then before
        else
          var l := LoopAfter(views);
          before + [Call(Asks(v, l.fbCut || l.localCut), v.now)]
  }

  function WindowAfter(calls: seq<Call>): Window {
    if calls == [] then None else After(calls).0
  }

  ghost predicate StartsAfresh(l: Loop, v: View) {
    l.methodPrev != Some(v.controlMethod) || l.source != Some(v.control.Finite?)
  }

  lemma SyncStartsAfresh(l: Loop, v: View)
    requires v.Running()
    ensures var r := Synced(Cuts(l, v), v.controlMethod);
            && r.window == (if StartsAfresh(l, v) then None else l.window)
            && r.methodPrev == Some(v.controlMethod)
            && r.source == (if l.methodPrev != Some(v.controlMethod) then None else Some(v.control.Finite?))
  {
    hide FoldbackCut, LocalFoldbackCut, EffectiveFoldback, EvalTrip;
  }

  lemma PassCallsWindow(l: Loop, v: View, calls: seq<Call>)
    requires l.window == WindowAfter(calls) && v.Running()
    ensures var r, before := Control(l, v), if StartsAfresh(l, v) then [] else calls;
            && r.methodPrev == Some(v.controlMethod)
            && r.source == (if l.methodPrev != Some(v.controlMethod) then None else Some(v.control.Finite?))
            && (v.controlMethod == BangBang ==> r.window == WindowAfter(before))
            && (v.controlMethod == Pid ==>
                  (r.window, r.on) == After(before + [Call(Asks(v, r.fbCut || r.localCut), v.now)]))
  {
    SyncStartsAfresh(l, v);
    hide WindowOn, Cuts, Synced, EvalTrip;
    var before := if StartsAfresh(l, v) then [] else calls;
    hide StartsAfresh;
    var call := Call(Asks(v, Control(l, v).fbCut || Control(l, v).localCut), v.now);
    assert (before + [call])[..|before|] == before;
  }

  lemma OtherPassKeepsWindow(l: Loop, v: View)
    requires !v.Running()
    ensures var r := Control(l, v);
            && r.methodPrev == l.methodPrev
            && (Tripped(v) ==> r.window == l.window && r.source == l.source)
            && (!Tripped(v) ==> r.window == None && r.source == None)
  {
  }

  lemma {:induction false} WindowIsHistory(views: seq<View>)
    ensures var l := LoopAfter(views);
            && l.methodPrev == MethodBefore(views) && l.source == SensorBefore(views)
            && l.window == WindowAfter(Calls(views))
    ensures views != [] && views[|views| - 1].Running() && views[|views| - 1].controlMethod == Pid ==>
              Calls(views) != [] && LoopAfter(views).on == After(Calls(views)).1
  {
    if views != [] {
      var front, v := views[..|views| - 1], views[|views| - 1];
      WindowIsHistory(front);
      if v.Running() {
        PassCallsWindow(LoopAfter(front), v, Calls(front));
      } else {
        OtherPassKeepsWindow(LoopAfter(front), v);
      }
      hide Control, After, Asks;
    }
  }

  lemma LastCallOfPass(views: seq<View>)
    requires views != []
    requires var v := views[|views| - 1]; v.Running() && v.controlMethod == Pid
    ensures var l, v, calls := LoopAfter(views), views[|views| - 1], Calls(views);
            calls != [] && calls[|calls| - 1] == Call(Asks(v, l.fbCut || l.localCut), v.now)
  {
    hide LoopAfter, Asks, SensorBefore, MethodBefore;
  }

  /** So a running PID pass drives the SSR by the ideal waveform of the duty it asks for, counted from the pass that
      first asked since the window started afresh; and not at all if it asks for none. */
  lemma {:induction false} PidDrivesWaveform(views: seq<View>)
    requires views != [] && Ordered(Calls(views))
    requires var v := views[|views| - 1]; v.Running() && v.controlMethod == Pid
    ensures var l, v, calls := LoopAfter(views), views[|views| - 1], Calls(views);
            var duty := Asks(v, l.fbCut || l.localCut);
            && (duty <= 0.0 ==> !l.on)
            && (duty > 0.0 ==>
                  && FirstAsked(calls).Some?
                  && (l.on <==> Level(duty, v.now - FirstAsked(calls).value)))
  {
    hide LoopAfter, Calls, After, FirstAsked, Level, Asks, SsrWindow.Answers, Ordered;
    WindowIsHistory(views);
    LastCallOfPass(views);
    var calls := Calls(views);
    AnswerIsLevel(calls, |calls| - 1);
    AnswerAt(calls, |calls| - 1);
    assert calls[..|calls|] == calls;
  }

  /** Every heater tick is one such pass over the loop; latching outside the loop only drops the SSR. */
  lemma TickIsAPass(h: Heater, e: Surroundings)
    ensures var h1 := h.(latch := Retry(h.latch, e.now, e.lockFree, e.retryOk));
            Tick(h, e).loop == Control(h.loop, ViewOf(h1, e))
    ensures EmergencyOff(h, e.tripOk).loop == HeaterSpec.Inhibit(h).loop == h.loop.(on := false)
  {
  }

  // --- The same over whole runs of the device ----------------------------------------------------

  /** What the heater sees at a policy tick: the demand applied, the regulation sensor chosen, the retry done. */
  function TickView(c: Core, t: TickInput): View {
    var c2 := ApplyDemand(ModeStep(ConsumeClicks(c, t.entry).0, t.entry), t);
    var h := SetControlChamber(c2.h, ControlChamber(c2.p));
    ViewOf(h.(latch := Retry(h.latch, t.heater.now, t.heater.lockFree, t.heater.retryOk)), t.heater)
  }

  /** The passes the heater made since the last boot. */
  ghost function Views(states: seq<Device>, steps: seq<Step>, i: nat): seq<View>
    requires |states| == |steps| + 1 && i < |states|
  {
    if i == 0 || steps[i - 1].Reboot? then []
    else if steps[i - 1].TickStep?
    then Views(states, steps, i - 1) + [TickView(states[i - 1].core, steps[i - 1].t)]
    else Views(states, steps, i - 1)
  }

  lemma DriveIgnoresOn(l: Loop, b: bool, v: View)
    requires v.Running()
    ensures DriveSsr(l.(on := b), v) == DriveSsr(l, v)
  {
    assert Cuts(l.(on := b), v) == Cuts(l, v).(on := b);
    hide Cuts;
    var cut := Cuts(l, v);
    assert Synced(cut.(on := b), v.controlMethod) == Synced(cut, v.controlMethod).(on := b);
    hide Synced;
  }

  /** A pass does not look at the SSR it found. */
  lemma ControlIgnoresOn(l: Loop, b: bool, v: View)
    ensures Control(l.(on := b), v) == Control(l, v)
  {
    hide DriveSsr;
    if v.Running() {
      DriveIgnoresOn(l, b, v);
    }
  }

  lemma FrontKeepsLoop(c: Core, t: TickInput)
    ensures var h := ApplyDemand(ModeStep(ConsumeClicks(c, t.entry).0, t.entry), t).h;
            h.loop == c.h.loop.(on := h.loop.on)
  {
    var c1 := ConsumeClicks(c, t.entry).0;
    assert c1.h == c.h;
    hide ConsumeClicks;
    var m := ModeStep(c1, t.entry);
    assert m.c.h.loop == c.h.loop;
    hide ModeStep;
  }

  lemma TickLoop(c: Core, t: TickInput)
    ensures TickLocked(c, t).0.h.loop == Control(c.h.loop, TickView(c, t))
  {
    hide ConsumeClicks, ModeStep, ApplyDemand, Control, Retry, ViewOf;
    FrontKeepsLoop(c, t);
    var m := ModeStep(ConsumeClicks(c, t.entry).0, t.entry);
    var c2 := ApplyDemand(m, t);
    var h := SetControlChamber(c2.h, ControlChamber(c2.p));
    assert TickLocked(c, t).0.h == Tick(h, t.heater) by {
      hide Tick;
    }
    TickIsAPass(h, t.heater);
    ControlIgnoresOn(c.h.loop, c2.h.loop.on, TickView(c, t));
  }

  /** Between ticks the SSR can only go off; nothing else of the loop moves until a boot. */
  lemma OtherStepsKeepLoop(d: Device, s: Step)
    requires Enabled(d, s) && !s.TickStep? && !s.Reboot?
    ensures var l, r := d.core.h.loop, Apply(d, s).core.h.loop;
            r == l || r == l.(on := false)
  {
    hide TickLocked, BootCore;
  }

  lemma BootLoop(d: Device, b: BootInput)
    ensures Apply(d, Reboot(b)).core.h.loop == BOOT_LOOP
    ensures BootDevice(d.core.h.latch.store, 0, b).core.h.loop == BOOT_LOOP
  {
  }

  /** In every run the loop is the fold of the passes since boot; after a tick the SSR is that of its pass, and
      until the next one it can only have been switched off. */
  lemma {:induction false} RunIsFold(states: seq<Device>, steps: seq<Step>, i: nat)
    requires Run(states, steps) && i < |states|
    ensures var l, fold := states[i].core.h.loop, LoopAfter(Views(states, steps, i));
            && l.(on := false) == fold.(on := false) && (l.on ==> fold.on)
            && (i > 0 && steps[i - 1].TickStep? ==> l == fold)
  {
    hide Control, TickView, TickLocked, Section, Enabled;
    if i == 0 {
      var store: FaultStore, b: BootInput :| b.now >= 0 && states[0] == BootDevice(store, 0, b);
      BootLoop(states[0].(core := states[0].core.(h := InitHeater(0, store))), b);
    } else {
      hide BootDevice;
      RunIsFold(states, steps, i - 1);
      var d, s, before := states[i - 1], steps[i - 1], Views(states, steps, i - 1);
      if s.Reboot? {
        BootLoop(d, s.b);
      } else if s.TickStep? {
        TickOfRun(d, s.t);
        var v := TickView(d.core, s.t);
        assert (before + [v])[..|before|] == before;
        ControlIgnoresOn(LoopAfter(before), d.core.h.loop.on, v);
        assert LoopAfter(before).(on := d.core.h.loop.on) == d.core.h.loop;
      } else {
        OtherStepsKeepLoop(d, s);
      }
    }
  }

  lemma TickOfRun(d: Device, t: TickInput)
    ensures Apply(d, TickStep(t)).core.h.loop == Control(d.core.h.loop, TickView(d.core, t))
  {
    hide TickLocked, TickView, Control;
    TickLoop(d.core, t);
  }

  /** In every state of every run the three latches are exactly their histories over the passes since boot. */
  lemma RunLatchesAreHistories(states: seq<Device>, steps: seq<Step>, i: nat)
    requires Run(states, steps) && i < |states|
    ensures var l, views := states[i].core.h.loop, Views(states, steps, i);
            && (l.fbCut <==> Since(views, SetsElement, HoldsElement))
            && (l.localCut <==> Since(views, SetsLocal, HoldsLocal))
            && (l.heatIntent <==> Since(views, SetsIntent, HoldsIntent))
  {
    hide Since, LoopAfter, Views;
    RunIsFold(states, steps, i);
    LatchesAreHistories(Views(states, steps, i));
  }

  /** The pass keeps a running or tripped heater cut: it is not yet below resume, and not disarmed. */
  ghost predicate StaysHot(v: View) {
    Tripped(v) || (v.Running() && v.ptc.c >= CutOf(v) - 3.0)
  }

  lemma CutHolds(l: Loop, v: View)
    requires (l.fbCut && StaysHot(v)) || SetsElement(v)
    ensures Control(l, v).fbCut && !Control(l, v).on
  {
  }

  /** In every run, from a tick at or above the cut the SSR stays off until a tick below resume, a disarmed one or
      a boot. */
  lemma {:induction false} RunOffFromCutToResume(states: seq<Device>, steps: seq<Step>, i: nat, k: nat)
    requires Run(states, steps) && i < k <= |steps|
    requires steps[i].TickStep? && SetsElement(TickView(states[i].core, steps[i].t))
    requires forall m :: i < m < k ==>
               !steps[m].Reboot? && (steps[m].TickStep? ==> StaysHot(TickView(states[m].core, steps[m].t)))
    ensures states[k].core.h.loop.fbCut && !states[k].core.h.loop.on
  {
    hide Control, TickView, TickLocked, Section, Enabled, BootDevice, StaysHot, SetsElement;
    var d, s := states[k - 1], steps[k - 1];
    if k > i + 1 {
      RunOffFromCutToResume(states, steps, i, k - 1);
    }
    if s.TickStep? {
      TickOfRun(d, s.t);
      CutHolds(d.core.h.loop, TickView(d.core, s.t));
    } else {
      OtherStepsKeepLoop(d, s);
    }
  }

  // --- The passes of a run, and the window over a run ------------------------------------------------

  /** What a tick shows the loop, said on the state after it: the target it leaves, the settings, this tick's sensors
      and clock, and the printer's chamber exactly for AUTO with the printer connected. */
  lemma TickShows(c: Core, clock: int, t: TickInput)
    requires CoreInv(c, clock) && clock <= t.heater.now && !TickLocked(c, t).0.h.latch.Faulted()
    ensures var r, v := TickLocked(c, t).0, TickView(c, t);
            v == View(r.h.target, false, t.heater.now - r.h.lastLink > r.h.settings.commsMs * 1000,
                      if r.p.session.mode == Auto && r.p.printer.connected then r.p.printer.chamber else NonFinite,
                      r.h.settings.userCut, t.heater.rref, r.h.settings.controlMethod, t.heater.ptc, t.heater.chamber,
                      t.heater.pid, t.heater.now)
  {
    hide CoreInv, ConsumeClicks, ModeStep, ApplyDemand, TickBack, EmergencyOff;
    TickObeys(c, clock, t);
    var m := ModeStep(ConsumeClicks(c, t.entry).0, t.entry);
    var c2 := ApplyDemand(m, t);
    BackShows(c2, t, m.trip);
    assert TickLocked(c, t).0 == TickBack(c2, t, m.trip);
    hide TickLocked, ModeAfter, Follows;
  }

  lemma BackShows(c: Core, t: TickInput, tripped: bool)
    ensures var r := TickBack(c, t, tripped);
            && r.p.printer == c.p.printer && r.h.settings == c.h.settings
            && (!r.h.latch.Faulted() ==>
                  && r.p.session == c.p.session && r.h.target == c.h.target && r.h.lastLink == c.h.lastLink
                  && !c.h.latch.Faulted())
  {
    hide Filtering, PurgeDecide;
    HazardLatches(SetControlChamber(c.h, ControlChamber(c.p)), t.heater, NoFault);
    hide Tick;
  }

  ghost predicate NoLaterThan(calls: seq<Call>, clock: int) {
    Ordered(calls) && forall i :: 0 <= i < |calls| ==> calls[i].now <= clock
  }

  lemma CallsGrow(views: seq<View>, v: View, clock: int)
    requires NoLaterThan(Calls(views), clock) && clock <= v.now
    ensures NoLaterThan(Calls(views + [v]), v.now)
  {
    assert (views + [v])[..|views|] == views;
    hide LoopAfter, SensorBefore, MethodBefore, Asks;
  }

  lemma {:induction false} CallsKeepTime(states: seq<Device>, steps: seq<Step>, i: nat)
    requires Run(states, steps) && i < |states|
    ensures NoLaterThan(Calls(Views(states, steps, i)), states[i].clock)
  {
    hide Section, TickView, Calls, BootDevice;
    if i == 0 || steps[i - 1].Reboot? {
      NoCallsYet(states[i].clock);
    } else {
      CallsKeepTime(states, steps, i - 1);
      if steps[i - 1].TickStep? {
        var v := TickView(states[i - 1].core, steps[i - 1].t);
        ViewNow(states[i - 1].core, steps[i - 1].t);
        CallsGrow(Views(states, steps, i - 1), v, states[i - 1].clock);
      }
    }
  }

  lemma NoCallsYet(clock: int)
    ensures NoLaterThan(Calls([]), clock)
  {
  }

  lemma ViewNow(c: Core, t: TickInput)
    ensures TickView(c, t).now == t.heater.now
  {
    hide ModeStep, ApplyDemand, Retry;
  }

  /** In every run a tick that runs the PID method drives the SSR exactly by the waveform of the duty it asks for. */
  lemma RunPidDrivesWaveform(states: seq<Device>, steps: seq<Step>, i: nat)
    requires Run(states, steps) && i < |steps| && steps[i].TickStep?
    requires var v := TickView(states[i].core, steps[i].t); v.Running() && v.controlMethod == Pid
    ensures var l, v := states[i + 1].core.h.loop, TickView(states[i].core, steps[i].t);
            var calls, duty := Calls(Views(states, steps, i + 1)), Asks(v, l.fbCut || l.localCut);
            && (duty <= 0.0 ==> !l.on)
            && (duty > 0.0 ==>
                  && FirstAsked(calls).Some?
                  && (l.on <==> Level(duty, steps[i].t.heater.now - FirstAsked(calls).value)))
  {
    hide Apply, Enabled, BootDevice, TickView, LoopAfter, Calls, FirstAsked, Level, Asks;
    RunIsFold(states, steps, i + 1);
    CallsKeepTime(states, steps, i + 1);
    ViewNow(states[i].core, steps[i].t);
    PidDrivesWaveform(Views(states, steps, i + 1));
  }
}
