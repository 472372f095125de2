/** Optimistic concurrency: the revision cycle and what gating a command on it buys. */
module Revision {
  import opened Values
  import opened HeaterSpec
  import opened PolicySpec
  import opened System
  import opened Authority

  /** Distinct revisions: 1 up to 2^32 - 1, zero being skipped. */
  const CYCLE := 0xFFFF_FFFF

  lemma RemainderIs(a: int, n: int, q: int, r: int)
    requires 0 <= r < n && a == q * n + r
    ensures a % n == r
  {
    var d := a / n - q;
    assert d * n == r - a % n;
    assert d >= 1 ==> d * n >= n;
    assert d <= -1 ==> d * n <= -n;
  }

  /** The revision is never zero and has period exactly 2^32 - 1. */
  lemma {:induction false} RevisionCycles(e: nat)
    ensures RevisionAt(e) == 1 + e % CYCLE
  {
    if e > 0 {
      RevisionCycles(e - 1);
      var q, r := (e - 1) / CYCLE, (e - 1) % CYCLE;
      if r + 1 < CYCLE {
        RemainderIs(e, CYCLE, q, r + 1);
      } else {
        RemainderIs(e, CYCLE, q + 1, 0);
      }
    }
  }

  lemma SameRevisionSpansCycle(a: nat, b: nat)
    requires a < b && RevisionAt(a) == RevisionAt(b)
    ensures b >= a + CYCLE
  {
    RevisionCycles(a);
    RevisionCycles(b);
    var qa, qb, r := a / CYCLE, b / CYCLE, a % CYCLE;
    assert a == qa * CYCLE + r && b == qb * CYCLE + r;
    assert qb >= qa + 1;
  }

  // --- Commands gated on an observed revision ----------------------------------------------------

  /** Every way to start a run or clear a fault, the delayed start of the On button included. */
  predicate Gated(d: Device, s: Step) {
    || s.PowerOnCmd? || s.ButtonPowerOnCmd? || s.AutoCmd? || s.DryCmd? || s.ClearCmd?
    || (s.DelayedStart? && d.start.Some?)
  }

  /** The revision the command names; a delayed start names the one its tick recorded. */
  function Expected(d: Device, s: Step): int
    requires Gated(d, s)
  {
    if s.DelayedStart? then d.start.value.revision else s.expected
  }

  ghost predicate AcceptedOn(d: Device, s: Step, revision: int) {
    Gated(d, s) && Expected(d, s) == revision && Section(d, s).1 == Accepted
  }

  lemma TickAdvances(c: Core, t: TickInput)
    ensures TickLocked(c, t).0.p.stamp.epoch >= c.p.stamp.epoch
  {
    hide RunHeater, SetTarget;
    var m := ModeStep(ConsumeClicks(c, t.entry).0, t.entry);
    assert m.c.p.stamp.epoch >= c.p.stamp.epoch;
    hide ModeStep, ConsumeClicks;
    assert ApplyDemand(m, t).p.stamp.epoch >= m.c.p.stamp.epoch;
    BackAdvances(ApplyDemand(m, t), t, m.trip);
  }

  lemma BackAdvances(c: Core, t: TickInput, tripped: bool)
    ensures TickBack(c, t, tripped).p.stamp.epoch >= c.p.stamp.epoch
  {
    hide Tick;
  }

  /** The revision only moves forward, past every accepted mode command and every completed clear; a gated
      command is accepted only at the revision it names. */
  lemma StepAdvances(d: Device, s: Step)
    requires Enabled(d, s) && !s.Reboot?
    ensures var e, f := d.core.p.stamp.epoch, Apply(d, s).core.p.stamp.epoch;
            && f >= e
            && (AcceptedCommand(d, s) || s.ClearRest? ==> f > e)
            && (Gated(d, s) && Section(d, s).1 == Accepted ==>
                  RevisionMatches(d.core.p, Expected(d, s)) && (s.ClearCmd? <==> Apply(d, s).clearing.Some?))
            && (d.clearing.Some? && !s.ClearRest? ==> Apply(d, s).clearing.Some?)
  {
    hide TickLocked, SetTarget;
    if s.TickStep? {
      TickAdvances(d.core, s.t);
    }
  }

  lemma {:induction false} PastAccepted(states: seq<Device>, steps: seq<Step>, i: nat, k: nat)
    requires Run(states, steps) && i < k <= |steps| && SameBoot(steps, i, k)
    requires Gated(states[i], steps[i]) && Section(states[i], steps[i]).1 == Accepted
    ensures var e, f := states[i].core.p.stamp.epoch, states[k].core.p.stamp.epoch;
            f > e || (f == e && states[k].clearing.Some?)
  {
    hide Section;
    StepAdvances(states[k - 1], steps[k - 1]);
    if k > i + 1 {
      PastAccepted(states, steps, i, k - 1);
    }
  }

  /** Of all commands gated on one observed revision, whoever sends them and the delayed button start among them,
      at most one is accepted per cycle of the revision. */
  lemma OneAcceptedPerCycle(states: seq<Device>, steps: seq<Step>, i: nat, j: nat, revision: int)
    requires Run(states, steps) && i < j < |steps| && SameBoot(steps, i, j)
    requires revision != REVISION_ANY
    requires AcceptedOn(states[i], steps[i], revision) && AcceptedOn(states[j], steps[j], revision)
    ensures states[j].core.p.stamp.epoch >= states[i].core.p.stamp.epoch + CYCLE
  {
    hide Section, Apply;
    PastAccepted(states, steps, i, j);
    StepAdvances(states[i], steps[i]);
    StepAdvances(states[j], steps[j]);
    RunKeepsInv(states, steps, i);
    RunKeepsInv(states, steps, j);
    SameRevisionSpansCycle(states[i].core.p.stamp.epoch, states[j].core.p.stamp.epoch);
  }

  /** The last revision of the cycle is the ANY sentinel: a command that names it is checked against nothing. */
  lemma SentinelIsARevision(p: Policy)
    ensures RevisionAt(CYCLE - 1) == REVISION_ANY && RevisionMatches(p, RevisionAt(CYCLE - 1))
  {
    RevisionCycles(CYCLE - 1);
  }

  /** The guarantee does not survive a reboot: a command for the boot revision is accepted again. */
  lemma RebootRepeatsCommand(d: Device, b: BootInput, s: Step)
    requires s == AutoCmd(b.now, Finite(50.0), Finite(100.0), Web, 1) && b.now >= 0
    requires b.read.ReadsBack? && !d.core.h.latch.store.Latched()
    ensures var e := Apply(d, Reboot(b)); AcceptedOn(e, s, 1) && AcceptedOn(Apply(Apply(e, s), Reboot(b)), s, 1)
  {
  }
}
