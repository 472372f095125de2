/** What the policy's mode bookkeeping means in terms of the run: where a POWER_ON run came from, and which
    lease ids are dead. */
module Sessions {
  import opened HeaterSpec
  import opened PolicySpec
  import opened System
  import opened Authority

  // --- The mode a POWER_ON stretch replaced ---------------------------------------------------

  /** The mode in force just before the stretch of POWER_ON that ends the list. */
  function Origin(modes: seq<Mode>): Mode
    requires |modes| > 0
  {
    var n := |modes|;
    if n == 1 then Off
    else if modes[n - 2] == PowerOn then Origin(modes[..n - 1])
    else modes[n - 2]
  }

  function Modes(states: seq<Device>): (modes: seq<Mode>)
    ensures |modes| == |states|
  {
    seq(|states|, i requires 0 <= i < |states| => states[i].core.p.session.mode)
  }

  ghost predicate ResumeStep(p: Session, q: Session) {
    q.resume == Auto <==> q.mode == PowerOn && (if p.mode == PowerOn then p.resume == Auto else p.mode == Auto)
  }

  lemma TickKeepsResume(c: Core, clock: int, t: TickInput)
    requires CoreInv(c, clock)
    ensures ResumeStep(c.p.session, TickLocked(c, t).0.p.session)
  {
    hide SetTarget, NotifyLink, EmergencyOff;
    var m := ModeStep(ConsumeClicks(c, t.entry).0, t.entry);
    assert m.c.p.session.mode != PowerOn ==> m.c.p.session.resume == Off;
    assert ResumeStep(c.p.session, m.c.p.session);
    hide ModeStep, ConsumeClicks;
    var c2 := ApplyDemand(m, t);
    assert c2.p.session == m.c.p.session || c2.p.session == Dropped(m.c.p.session);
    hide ApplyDemand;
    BackSession(c2, t, m.trip);
  }

  lemma StepKeepsResume(d: Device, s: Step)
    requires Inv(d) && Enabled(d, s)
    ensures ResumeStep(d.core.p.session, Apply(d, s).core.p.session)
  {
    hide TickLocked, SetPowerOn, SetButtonPowerOn, SetAuto, StartDrying;
    if HeatCommand(s) {
      CommandKeepsResume(d, s);
    } else if s.TickStep? {
      TickKeepsResume(d.core, d.clock, s.t);
    }
  }

  lemma CommandKeepsResume(d: Device, s: Step)
    requires Inv(d) && Enabled(d, s) && HeatCommand(s)
    ensures ResumeStep(d.core.p.session, Apply(d, s).core.p.session)
  {
    hide TickLocked, SetTarget, NotifyLink, Deadlines, Safe;
  }

  /** AUTO is remembered exactly while a POWER_ON run, through any chain of commands, replaced AUTO. */
  lemma {:induction false} ResumeIsHistory(states: seq<Device>, steps: seq<Step>, i: nat)
    requires Run(states, steps) && i < |states|
    ensures states[i].core.p.session.resume == Auto
            <==> states[i].core.p.session.mode == PowerOn && Origin(Modes(states[..i + 1])) == Auto
  {
    hide Apply, CoreInv, Enabled;
    var modes := Modes(states[..i + 1]);
    if i == 0 {
      BootIsOff(states, steps);
    } else {
      ResumeIsHistory(states, steps, i - 1);
      RunKeepsInv(states, steps, i - 1);
      StepKeepsResume(states[i - 1], steps[i - 1]);
      assert modes[..i] == Modes(states[..i]);
    }
  }

  // --- Dead leases --------------------------------------------------------------------------

  /** The id was issued and is not the live lease. */
  ghost predicate Dead(s: Session, id: nat) {
    id <= s.issued && (s.lease.Some? ==> s.lease.value.id != id)
  }

  ghost predicate NoOldLease(p: Session, q: Session) {
    && q.issued >= p.issued
    && (q.lease.Some? ==> q.lease.value.id > p.issued || (p.lease.Some? && q.lease.value.id == p.lease.value.id))
  }

  lemma TickKeepsLease(c: Core, t: TickInput)
    ensures NoOldLease(c.p.session, TickLocked(c, t).0.p.session)
  {
    hide SetTarget, NotifyLink, EmergencyOff;
    var m := ModeStep(ConsumeClicks(c, t.entry).0, t.entry);
    assert NoOldLease(c.p.session, m.c.p.session);
    hide ModeStep, ConsumeClicks;
    var c2 := ApplyDemand(m, t);
    assert NoOldLease(m.c.p.session, c2.p.session);
    hide ApplyDemand;
    BackSession(c2, t, m.trip);
  }

  lemma StepKeepsLeaseDead(d: Device, s: Step, id: nat)
    requires Enabled(d, s) && Dead(d.core.p.session, id)
    ensures Dead(Apply(d, s).core.p.session, id)
  {
    hide TickLocked, SetTarget, NotifyLink;
    if s.TickStep? {
      TickKeepsLease(d.core, s.t);
    }
  }

  /** A lease id that stopped being the live one is refused by every later heartbeat, reboots included. */
  lemma {:induction false} DeadLeaseStaysDead(states: seq<Device>, steps: seq<Step>, i: nat, k: nat, id: nat)
    requires Run(states, steps) && i <= k < |states| && Dead(states[i].core.p.session, id)
    ensures Dead(states[k].core.p.session, id)
    ensures forall now :: PolicySpec.Heartbeat(states[k].core, now, id).1 == StaleLease
  {
    hide Apply;
    if k > i {
      DeadLeaseStaysDead(states, steps, i, k - 1, id);
      StepKeepsLeaseDead(states[k - 1], steps[k - 1], id);
    }
  }
}
