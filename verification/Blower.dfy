/** The residual-heat purge: once heat ran, the blower stays on until both sensors are known to be cool. */
module Blower {
  import opened HeaterSpec
  import opened PolicySpec
  import opened System
  import opened Authority

  /** Both sensors read valid and below where this tick may stop: one band higher if no purge was running. */
  ghost predicate CoolAt(c: Core, t: TickInput) {
    var limit := if c.p.air.cooldown then c.h.settings.coolRelease else c.h.settings.coolRelease + 3.0;
    t.heater.chamber.Valid? && t.smoothChamber < limit && t.heater.ptc.Valid? && t.smoothPtc < limit
  }

  lemma FrontKeepsAir(c: Core, t: TickInput)
    ensures var m := ModeStep(ConsumeClicks(c, t.entry).0, t.entry);
            var r := ApplyDemand(m, t);
            && r.p.air.heated == c.p.air.heated && r.p.air.cooldown == c.p.air.cooldown
            && r.h.settings == c.h.settings
  {
    var c1 := ConsumeClicks(c, t.entry).0;
    assert c1.p.air == c.p.air && c1.h == c.h;
    hide ConsumeClicks;
    ModeStepKeepsAir(c1, t.entry);
    hide ModeStep;
  }

  lemma ModeStepKeepsAir(c: Core, entry: int)
    ensures var r := ModeStep(c, entry).c;
            r.p.air.heated == c.p.air.heated && r.p.air.cooldown == c.p.air.cooldown && r.h.settings == c.h.settings
  {
    hide Advance, Dropped;
  }

  lemma BackSetsAir(c: Core, t: TickInput, tripped: bool)
    ensures var r := TickBack(c, t, tripped);
            var heat := r.h.HeatMode();
            && r.p.air.heated == (heat || (c.p.air.heated && !CoolAt(c, t)))
            && r.p.air.cooldown == (!heat && c.p.air.heated && !CoolAt(c, t))
            && (heat || r.p.air.cooldown || r.h.latch.Faulted() ==> r.p.air.level >= 30)
  {
    hide Control, Retry, SetLatch;
  }

  lemma TickSetsAir(c: Core, t: TickInput)
    ensures var r := TickLocked(c, t).0;
            var heat := r.h.HeatMode();
            && r.p.air.heated == (heat || (c.p.air.heated && !CoolAt(c, t)))
            && r.p.air.cooldown == (!heat && c.p.air.heated && !CoolAt(c, t))
            && (heat || r.p.air.cooldown || r.h.latch.Faulted() ==> r.p.air.level >= 30)
  {
    FrontKeepsAir(c, t);
    var m := ModeStep(ConsumeClicks(c, t.entry).0, t.entry);
    BackSetsAir(ApplyDemand(m, t), t, m.trip);
    hide ModeStep, ConsumeClicks, ApplyDemand, TickBack;
  }

  lemma OtherStepsKeepAir(d: Device, s: Step)
    requires Enabled(d, s) && !s.TickStep?
    ensures var a, b := d.core.p.air, Apply(d, s).core.p.air;
            if s.Reboot? then !b.heated && !b.cooldown else a.heated == b.heated && a.cooldown == b.cooldown
  {
    hide TickLocked;
  }

  ghost predicate Heating(states: seq<Device>, steps: seq<Step>, i: nat)
    requires |states| == |steps| + 1 && i < |steps|
  {
    steps[i].TickStep? && states[i + 1].core.h.HeatMode()
  }

  /** After every tick the session flag means "heating or purging", and in both cases the blower is on. */
  lemma SessionIsHeatingOrPurging(states: seq<Device>, steps: seq<Step>, i: nat)
    requires Run(states, steps) && i < |steps| && steps[i].TickStep?
    ensures var c := states[i + 1].core;
            && (c.p.air.heated <==> c.h.HeatMode() || c.p.air.cooldown)
            && (c.p.air.heated ==> c.p.air.level >= 30)
  {
    hide TickLocked;
    TickSetsAir(states[i].core, steps[i].t);
  }

  /** From a heating tick on, the blower is on in every tick until one that does not heat and finds both sensors
      cool. How cool the sensors are while heating goes on does not matter. */
  lemma {:induction false} BlowerRunsUntilCool(states: seq<Device>, steps: seq<Step>, i: nat, k: nat)
    requires Run(states, steps) && i < k <= |steps| && SameBoot(steps, i, k) && Heating(states, steps, i)
    requires forall m :: i < m < k && steps[m].TickStep? && !Heating(states, steps, m)
               ==> !CoolAt(states[m].core, steps[m].t)
    ensures states[k].core.p.air.heated
    ensures forall m :: i <= m < k && steps[m].TickStep? ==> states[m + 1].core.p.air.level >= 30
  {
    hide TickLocked, Section, CoolAt;
    if k > i + 1 {
      BlowerRunsUntilCool(states, steps, i, k - 1);
    }
    if steps[k - 1].TickStep? {
      SectionOfTick(states[k - 1], steps[k - 1].t);
      TickSetsAir(states[k - 1].core, steps[k - 1].t);
    } else {
      OtherStepsKeepAir(states[k - 1], steps[k - 1]);
    }
  }

  /** An open session goes back to a heating tick of the same boot with no release since; so no purge starts
      without heat. */
  lemma {:induction false} PurgeGoesBackToHeat(states: seq<Device>, steps: seq<Step>, k: nat) returns (i: nat)
    requires Run(states, steps) && k <= |steps|
    requires states[k].core.p.air.heated || states[k].core.p.air.cooldown
    ensures i < k && SameBoot(steps, i, k) && Heating(states, steps, i)
    ensures forall m :: i < m <= k ==> states[m].core.p.air.heated
    ensures forall m :: i < m < k && steps[m].TickStep?
              ==> Heating(states, steps, m) || !CoolAt(states[m].core, steps[m].t)
  {
    hide TickLocked, Section, CoolAt;
    if k == 0 {
      assert false;
    }
    i := k - 1;
    if steps[i].TickStep? {
      SectionOfTick(states[i], steps[i].t);
      TickSetsAir(states[i].core, steps[i].t);
    } else {
      OtherStepsKeepAir(states[i], steps[i]);
    }
    if !Heating(states, steps, k - 1) {
      i := PurgeGoesBackToHeat(states, steps, k - 1);
    }
  }
}
