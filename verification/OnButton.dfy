/** The delayed On-button start of an unbound device: which taps it counts, and what makes it fail. */
module OnButton {
  import opened Values
  import opened HeaterSpec
  import opened PolicySpec
  import opened System
  import opened Authority
  import opened Revision
  import opened Commands

  // --- The taps that still count ----------------------------------------------------------------

  /** The tick's mode decision ends the run with a plain OFF. */
  predicate TickGoesOff(s: Session, entry: int) {
    || (s.mode == Drying && entry >= s.dryingDeadline)
    || (s.mode == PowerOn && s.lease.None? && s.localDeadline > 0 && entry >= s.localDeadline && s.resume != Auto)
  }

  /** Steps that drop a pending selection: another button, a mode change, a clear, a boot. */
  ghost predicate Drops(d: Device, s: Step) {
    || s.OtherButton? || s.OffCmd? || s.ClearRest? || s.Reboot?
    || AcceptedCommand(d, s)
    || (s.StopRun? && d.core.p.session.resume != Auto)
    || (s.TickStep? && TickGoesOff(d.core.p.session, s.t.entry))
  }

  predicate Complete(taps: seq<int>, entry: int) {
    taps != [] && entry >= taps[|taps| - 1] + 700_000
  }

  /** Times of the taps since the selection was last dropped or found complete by a tick. */
  ghost function PendingTaps(states: seq<Device>, steps: seq<Step>, i: nat): seq<int>
    requires Run(states, steps) && i < |states|
  {
    if i == 0 then []
    else
      var taps, d, s := PendingTaps(states, steps, i - 1), states[i - 1], steps[i - 1];
      if Drops(d, s) || (s.TickStep? && Complete(taps, s.t.entry)) then []
      else if s.TapOn? && d.core.p.controlSource == Unbound then taps + [s.now]
      else taps
  }

  /** Length of the last chain of taps whose gaps are all under 700 ms. */
  function LastChain(taps: seq<int>): nat {
    var n := |taps|;
    if n == 0 then 0
    else if n == 1 || taps[n - 1] >= taps[n - 2] + 700_000 then 1
    else 1 + LastChain(taps[..n - 1])
  }

  function AtMostFour(k: nat): nat {
    if k > 4 then 4 else k
  }

  ghost predicate Counts(p: Policy, taps: seq<int>) {
    && p.clicks.count == AtMostFour(LastChain(taps))
    && (taps == [] ==> p.clicks == NO_CLICKS)
    && (taps != [] ==> p.clicks.deadline == taps[|taps| - 1] + 700_000 && p.controlSource == Unbound)
  }

  lemma ModeStepClicks(c: Core, entry: int)
    ensures var p := ModeStep(c, entry).c.p;
            p.clicks == (if TickGoesOff(c.p.session, entry) then NO_CLICKS else c.p.clicks)
            && p.controlSource == c.p.controlSource
  {
  }

  lemma TickClicks(c: Core, t: TickInput)
    ensures var (c1, taps) := ConsumeClicks(c, t.entry);
            var (r, start) := TickLocked(c, t);
            && r.p.clicks == (if TickGoesOff(c.p.session, t.entry) then NO_CLICKS else c1.p.clicks)
            && r.p.controlSource == c.p.controlSource
            && start == if taps != 0 then Some(Start(taps * 6, r.p.stamp.revision)) else None
  {
    ModeStepClicks(ConsumeClicks(c, t.entry).0, t.entry);
    hide ModeStep, Tick, SetTarget, EmergencyOff;
  }

  lemma TapExtendsChain(taps: seq<int>, now: int)
    ensures LastChain(taps + [now])
            == if taps != [] && now < taps[|taps| - 1] + 700_000 then LastChain(taps) + 1 else 1
  {
    assert (taps + [now])[..|taps|] == taps;
  }

  lemma CommandCounts(d: Device, s: Step, taps: seq<int>)
    requires Counts(d.core.p, taps) && HeatCommand(s)
    ensures Counts(Apply(d, s).core.p, if AcceptedCommand(d, s) then [] else taps)
  {
    hide TickLocked, SetTarget, NotifyLink, BootCore;
  }

  lemma TapCounts(c: Core, now: int, taps: seq<int>)
    requires Counts(c.p, taps)
    ensures Counts(Tap(c, now).p, if c.p.controlSource == Unbound then taps + [now] else taps)
  {
    TapExtendsChain(taps, now);
    hide LastChain;
  }

  lemma TickCounts(c: Core, t: TickInput, taps: seq<int>)
    requires Counts(c.p, taps)
    ensures Counts(TickLocked(c, t).0.p,
                   if TickGoesOff(c.p.session, t.entry) || Complete(taps, t.entry) then [] else taps)
  {
    TickClicks(c, t);
    hide TickLocked, ModeStep, TickGoesOff;
  }

  lemma StepCounts(d: Device, s: Step, taps: seq<int>)
    requires Enabled(d, s) && Counts(d.core.p, taps)
    ensures var p := Apply(d, s).core.p;
            if Drops(d, s) || (s.TickStep? && Complete(taps, s.t.entry)) then Counts(p, [])
            else if s.TapOn? && d.core.p.controlSource == Unbound then Counts(p, taps + [s.now])
            else Counts(p, taps)
  {
    hide TickLocked, SetTarget, ModeStep, SetPowerOn, SetButtonPowerOn, SetAuto, StartDrying, Tap;
    hide LastChain, AtMostFour;
    if HeatCommand(s) {
      CommandCounts(d, s, taps);
    } else if s.TickStep? {
      TickCounts(d.core, s.t, taps);
    } else if s.TapOn? {
      TapCounts(d.core, s.now, taps);
    } else {
      EmptyChain();
    }
  }

  lemma EmptyChain()
    ensures AtMostFour(LastChain([])) == 0
  {
  }

  /** The click counter and its deadline always describe the last chain of taps that still count. */
  lemma {:induction false} ClicksCountChain(states: seq<Device>, steps: seq<Step>, i: nat)
    requires Run(states, steps) && i < |states|
    ensures Counts(states[i].core.p, PendingTaps(states, steps, i))
  {
    hide Apply, Drops;
    if i == 0 {
      var store: FaultStore, b: BootInput :| b.now >= 0 && states[0] == BootDevice(store, 0, b);
    } else {
      ClicksCountChain(states, steps, i - 1);
      StepCounts(states[i - 1], steps[i - 1], PendingTaps(states, steps, i - 1));
    }
  }

  lemma TickStart(d: Device, t: TickInput, taps: seq<int>)
    requires Counts(d.core.p, taps)
    ensures var e := Apply(d, TickStep(t));
            e.start == if Complete(taps, t.entry)
                       then Some(Start(6 * AtMostFour(LastChain(taps)), e.core.p.stamp.revision))
                       else None
  {
    TickClicks(d.core, t);
    hide TickLocked, ModeStep;
  }

  /** A tick leaves a delayed start exactly when it finds the taps complete, for six hours per tap of the last
      chain, at most twenty-four, tied to the revision at the end of its locked part. */
  lemma TickStartsLastChain(states: seq<Device>, steps: seq<Step>, i: nat)
    requires Run(states, steps) && i < |steps| && steps[i].TickStep?
    ensures var taps := PendingTaps(states, steps, i);
            states[i + 1].start
            == if Complete(taps, steps[i].t.entry)
               then Some(Start(6 * AtMostFour(LastChain(taps)), states[i + 1].core.p.stamp.revision))
               else None
  {
    hide Apply, Enabled, BootDevice, Counts, Complete, LastChain, AtMostFour, PendingTaps;
    ClicksCountChain(states, steps, i);
    TickStart(states[i], steps[i].t, PendingTaps(states, steps, i));
  }

  // --- The gate on the delayed start -------------------------------------------------------------

  lemma {:induction false} StartWaits(states: seq<Device>, steps: seq<Step>, i: nat, j: nat)
    requires Run(states, steps) && i < j <= |steps| && steps[i].TickStep? && states[i + 1].start.Some?
    requires forall k :: i < k < j ==> !steps[k].DelayedStart? && !steps[k].Reboot?
    ensures states[j].start == states[i + 1].start
    ensures states[j].core.p.stamp.epoch >= states[i + 1].core.p.stamp.epoch
  {
    hide TickLocked, Section;
    if j > i + 1 {
      StartWaits(states, steps, i, j - 1);
      assert !steps[j - 1].TickStep?;
      StepAdvances(states[j - 1], steps[j - 1]);
    }
  }

  /** Within one cycle, the delayed start passes its revision gate exactly when nothing advanced the revision
      since the tick, or the recorded revision is the ANY sentinel. */
  lemma DelayedStartGate(states: seq<Device>, steps: seq<Step>, i: nat, j: nat)
    requires Run(states, steps) && i < j < |steps| && steps[i].TickStep? && states[i + 1].start.Some?
    requires forall k :: i < k < j ==> !steps[k].DelayedStart? && !steps[k].Reboot?
    requires states[j].core.p.stamp.epoch < states[i + 1].core.p.stamp.epoch + CYCLE
    ensures var start := states[i + 1].start.value;
            RevisionMatches(states[j].core.p, start.revision)
            <==> start.revision == REVISION_ANY
                 || states[j].core.p.stamp.epoch == states[i + 1].core.p.stamp.epoch
  {
    hide Section, Apply;
    StartWaits(states, steps, i, j);
    TickStartsLastChain(states, steps, i);
    RunKeepsInv(states, steps, i + 1);
    RunKeepsInv(states, steps, j);
    var e, f := states[i + 1].core.p.stamp.epoch, states[j].core.p.stamp.epoch;
    if e < f && RevisionAt(e) == RevisionAt(f) {
      SameRevisionSpansCycle(e, f);
    }
  }

  lemma UngatedStartIsNothing(d: Device, now: int)
    requires d.start.Some? && d.startTarget.Some? && !RevisionMatches(d.core.p, d.start.value.revision)
    ensures Section(d, DelayedStart(now)).1 != Accepted && Apply(d, DelayedStart(now)).core == d.core
  {
    hide EnterPowerOn;
  }

  /** So a command that lands between the tick and its delayed start wins: the start is refused and changes
      nothing, for every recorded revision but the sentinel. */
  lemma CommandBeatsDelayedStart(states: seq<Device>, steps: seq<Step>, i: nat, j: nat)
    requires Run(states, steps) && i < j < |steps| && steps[i].TickStep? && states[i + 1].start.Some?
    requires forall k :: i < k < j ==> !steps[k].DelayedStart? && !steps[k].Reboot?
    requires states[i + 1].core.p.stamp.epoch < states[j].core.p.stamp.epoch < states[i + 1].core.p.stamp.epoch + CYCLE
    requires states[i + 1].start.value.revision != REVISION_ANY && steps[j].DelayedStart?
    ensures Section(states[j], steps[j]).1 != Accepted && states[j + 1].core == states[j].core
  {
    hide Section, Apply, BootDevice;
    DelayedStartGate(states, steps, i, j);
    StartWaits(states, steps, i, j);
    UngatedStartIsNothing(states[j], steps[j].now);
  }

  // --- What the start leaves --------------------------------------------------------------------------

  /** The target of a pending start is the remembered one, as some step since the tick read it. */
  lemma {:induction false} TargetWasRead(states: seq<Device>, steps: seq<Step>, i: nat, j: nat) returns (r: nat)
    requires Run(states, steps) && i < j <= |steps| && steps[i].TickStep? && states[i + 1].start.Some?
    requires forall k :: i < k < j ==> !steps[k].DelayedStart? && !steps[k].Reboot?
    requires states[j].startTarget.Some?
    ensures i < r < j && steps[r].ReadParams? && states[j].startTarget == Some(states[r].core.p.params.manual)
  {
    hide TickLocked, Section, BootDevice;
    r := j - 1;
    StartWaits(states, steps, i, j - 1);
    if !steps[r].ReadParams? {
      r := TargetWasRead(states, steps, i, j - 1);
    }
  }

  /** The start is accepted exactly on an unbound, unfaulted device at the revision its tick recorded, for a target
      of at least 30 C. It then runs for six hours per tap of the last chain, at most twenty-four, from the moment of
      the start, at the remembered target as it was read after the tick, under the ceiling. */
  lemma StartRunsSixHoursPerTap(states: seq<Device>, steps: seq<Step>, i: nat, j: nat) returns (r: nat)
    requires Run(states, steps) && i < j < |steps| && steps[i].TickStep? && states[i + 1].start.Some?
    requires forall k :: i < k < j ==> !steps[k].DelayedStart? && !steps[k].Reboot?
    requires steps[j].DelayedStart?
    ensures i < r < j && steps[r].ReadParams?
    ensures var c, named := states[j].core, states[i + 1].start.value.revision;
            var read, hours := states[r].core.p.params.manual, 6 * AtMostFour(LastChain(PendingTaps(states, steps, i)));
            && (Section(states[j], steps[j]).1 == Accepted <==>
                  && c.p.controlSource == Unbound && (named == 0xFFFF_FFFF || named == c.p.stamp.revision)
                  && read >= 30.0 && !c.h.latch.latched && !c.h.latch.inhibited)
            && (Section(states[j], steps[j]).1 == Accepted ==>
                  PowerOnLeft(c, states[j + 1].core, steps[j].now, read, Button, hours))
  {
    hide Section, Apply, BootDevice, PendingTaps, LastChain, PowerOnLeft;
    StartWaits(states, steps, i, j);
    TickStartsLastChain(states, steps, i);
    r := TargetWasRead(states, steps, i, j);
    RunKeepsInv(states, steps, j);
    RunKeepsInv(states, steps, i + 1);
    StartAnswers(states[j], steps[j].now);
  }

  lemma StartAnswers(d: Device, now: int)
    requires Inv(d) && Enabled(d, DelayedStart(now)) && d.start.value.hours in {6, 12, 18, 24}
    ensures var s, c := DelayedStart(now), d.core;
            var named, read := d.start.value.revision, d.startTarget.value;
            && (Section(d, s).1 == Accepted <==>
                  && c.p.controlSource == Unbound && (named == 0xFFFF_FFFF || named == c.p.stamp.revision)
                  && read >= 30.0 && !c.h.latch.latched && !c.h.latch.inhibited)
            && (Section(d, s).1 == Accepted ==>
                  PowerOnLeft(c, Apply(d, s).core, now, read, Button, d.start.value.hours))
  {
    hide Section, Apply, PowerOnLeft, Inv;
    var s := DelayedStart(now);
    AcceptedExactly(d, s);
    if Section(d, s).1 == Accepted {
      AcceptedCommandLeaves(d, s);
    }
  }

  /** Reading the parameters between tick and start touches nothing else. */
  lemma ReadTakesManual(d: Device)
    requires Enabled(d, ReadParams)
    ensures Apply(d, ReadParams) == d.(startTarget := Some(d.core.p.params.manual))
  {
    hide TickLocked;
  }
}
