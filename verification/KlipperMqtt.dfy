/** db_klipper_mqtt.c: the MQTT callbacks and the two-phase control tick interleaved over the policy. */
module KlipperMqtt {
  import opened Values
  import opened HeaterSpec
  import opened PolicySpec
  import opened System
  import opened Authority
  import opened Commands
  import opened Sessions
  import opened Arming

  const LIVE_TIMEOUT_US := 15_000_000
  const BEAT_PERIOD_US := 5_000_000
  const TARGET_MIN_C := 20.0
  const TARGET_MAX_C := 70.0

  /** Where the control task is inside db_klipper_mqtt_tick. */
  datatype TickAt =
    | Idle
    | Entered                                                   // saw the connection up
    | Decided(action: Action, target: Wire, beat: Option<nat>)  // arming machine evaluated, lock released
    | Taken(lease: nat)                                         // policy granted a lease, not stored yet
    | Stopped                                                   // policy went off or refused the heartbeat

  /** Where the MQTT task is inside a disarming callback. */
  datatype CallbackAt = Waiting | Flagged | Cleared | Silenced

  datatype Client = Client(arm: Arm, lease: Option<nat>, powerOn: bool, online: bool, connected: bool,
                           lastBeat: int, tick: TickAt, callback: CallbackAt)

  /** The client's static initial state, also after a reboot. */
  const FRESH := Client(RESET, None, true, true, false, 0, Idle, Waiting)

  datatype World = World(dev: Device, k: Client)

  datatype Act =
    // MQTT task
    | Field(e: Event)
    | PowerSet(on: bool)
    | ServerIs(online: bool)
    | Connect
    | Disconnect
    | ForceDisarm      // force_disarm: machine disengaged
    | ForceOff         // stop_heat: policy off
    | ForceDone        // stop_heat: lease dropped
    // control task
    | Enter
    | Evaluate(now: int)
    | Carry(now: int)  // the policy call the decision asks for
    | Finish(now: int) // what is recorded about it
    // everything else on the device
    | Other(s: Step)

  /** The tick's locked decision. */
  function Decide(k: Client, now: int): (Arm, TickAt) {
    var (arm, action) := Eval(k.arm, now, LIVE_TIMEOUT_US);
    if action == Engage && !(k.powerOn && k.online)
    then (arm.(engaged := false), Decided(Disengage, k.arm.target, None))
    else (arm, Decided(action, k.arm.target,
                       if action == Hold && arm.engaged && k.lease.Some? && now - k.lastBeat >= BEAT_PERIOD_US
                       then k.lease else None))
  }

  /** The range clamp of a start; infinities are clamped like any number, and only NaN gets through it. */
  function HeatTarget(t: Wire): Float {
    match t
    case Real(c) => Finite(Clamp(c, TARGET_MIN_C, TARGET_MAX_C))
    case PlusInf => Finite(TARGET_MAX_C)
    case MinusInf => Finite(TARGET_MIN_C)
    case NaN => NonFinite
  }

  /** The policy step a decision makes, if any. */
  function PolicyCall(t: TickAt, now: int): Option<Step>
    requires t.Decided?
  {
    match t.action
    case Engage => Some(PowerOnCmd(now, HeatTarget(t.target), Web, REVISION_ANY))
    case Disengage => Some(OffCmd(Web))
    case CommsLost => Some(OffCmd(Web))
    case Hold => if t.beat.Some? then Some(Step.Beat(now, t.beat.value)) else None
  }

  predicate Can(w: World, a: Act) {
    match a
    case Field(e) => w.k.callback.Waiting? && !e.Disarm? && !e.Evaluated?
    case PowerSet(_) => w.k.callback.Waiting?
    case ServerIs(_) => w.k.callback.Waiting?
    case Connect => w.k.callback.Waiting?
    case Disconnect => w.k.callback.Waiting?
    case ForceDisarm => w.k.callback.Flagged?
    case ForceOff => w.k.callback.Cleared? && Enabled(w.dev, OffCmd(Web))
    case ForceDone => w.k.callback.Silenced?
    case Enter => w.k.tick.Idle?
    case Evaluate(_) => w.k.tick.Entered?
    case Carry(now) =>
      w.k.tick.Decided?
      && (PolicyCall(w.k.tick, now).Some? ==> Enabled(w.dev, PolicyCall(w.k.tick, now).value))
    case Finish(_) => w.k.tick.Taken? || w.k.tick.Stopped?
    case Other(s) => Enabled(w.dev, s) && (s.TickStep? || s.ReadParams? || s.DelayedStart? ==> w.k.tick.Idle?)
  }

  /** Acts that stay inside the client: one section under its lock, or one read. */
  function Local(k: Client, a: Act): Client {
    match a
    case Field(e) => k.(arm := Next(k.arm, e, LIVE_TIMEOUT_US))
    case PowerSet(on) => k.(powerOn := on, callback := if on then k.callback else Flagged)
    case ServerIs(up) => k.(online := up, callback := if up then k.callback else Flagged)
    case Connect => k.(connected := true, arm := RESET, online := true)
    case Disconnect => k.(connected := false, callback := Flagged)
    case ForceDisarm => k.(arm := k.arm.(engaged := false), callback := Cleared)
    case ForceDone => k.(lease := None, callback := Waiting)
    case Enter => k.(tick := if k.connected then Entered else Idle)
    case Evaluate(now) =>
      var (arm, t) := Decide(k, now);
      k.(arm := arm, tick := t, lastBeat := if t.beat.Some? then now else k.lastBeat)
    case Finish(now) =>
      if k.tick.Taken? then k.(lease := Some(k.tick.lease), lastBeat := now, tick := Idle)
      else k.(lease := None, tick := Idle)
    case _ => k
  }

  /** Where the tick goes after its policy call. */
  function Carried(t: TickAt, accepted: bool, issued: nat): TickAt
    requires t.Decided?
  {
    if t.action == Engage then (if accepted then Taken(issued) else Idle)
    else if t.action == Hold && accepted then Idle
    else Stopped
  }

  function Do(w: World, a: Act): World {
    var k := w.k;
    match a
    case ForceOff => World(Apply(w.dev, OffCmd(Web)), k.(callback := Silenced))
    case Carry(now) =>
      if !k.tick.Decided? then w
      else
        var call := PolicyCall(k.tick, now);
        if call.None? then w.(k := k.(tick := Idle))
        else
          var d := Apply(w.dev, call.value);
          World(d, k.(tick := Carried(k.tick, Section(w.dev, call.value).1 == Accepted, d.core.p.session.issued)))
    case Other(s) => World(Apply(w.dev, s), if s.Reboot? then FRESH else k)
    case _ => w.(k := Local(k, a))
  }

  // --- Invariant of every interleaving ------------------------------------------------------------

  ghost predicate Issued(w: World, id: nat) {
    id <= w.dev.core.p.session.issued
  }

  /** A disarming callback past its machine section has the machine off, unless the broker is gone and a tick
      that had already entered engaged it; the tick then carries that engagement. */
  ghost predicate KInv(w: World) {
    var k := w.k;
    && Inv(w.dev)
    && (k.lease.Some? ==> Issued(w, k.lease.value))
    && (k.tick.Taken? ==> Issued(w, k.tick.lease))
    && (k.tick.Decided? && k.tick.beat.Some? ==> k.tick.action == Hold && Issued(w, k.tick.beat.value))
    && (!k.callback.Waiting? ==> !k.powerOn || !k.online || !k.connected)
    && (k.callback.Cleared? || k.callback.Silenced? ==> Released(k))
  }

  /** No tick to come can heartbeat: the machine is off, or the broker is gone and no tick is about to decide. */
  ghost predicate Released(k: Client) {
    k.arm.engaged ==> !k.connected && !k.tick.Entered? && !(k.tick.Decided? && k.tick.action == Hold)
  }

  lemma DeviceKeepsIssued(d: Device, s: Step)
    requires Enabled(d, s)
    ensures Apply(d, s).core.p.session.issued >= d.core.p.session.issued
  {
    hide TickLocked, SetTarget;
    if s.TickStep? {
      TickKeepsLease(d.core, s.t);
    }
  }

  /** Every boot starts the interleaving inside its invariant. */
  lemma BootKeepsInv(store: FaultStore, issued: nat, b: BootInput)
    requires b.now >= 0
    ensures KInv(World(BootDevice(store, issued, b), FRESH))
  {
    hide Inv, BootDevice;
    System.BootKeepsInv(store, issued, b);
  }

  lemma ActKeepsInv(w: World, a: Act)
    requires KInv(w) && Can(w, a)
    ensures KInv(Do(w, a))
  {
    hide Section, Apply, Inv, Enabled;
    match a
    case Other(s) =>
      StepKeepsInv(w.dev, s);
      DeviceKeepsIssued(w.dev, s);
    case ForceOff =>
      StepKeepsInv(w.dev, OffCmd(Web));
      DeviceKeepsIssued(w.dev, OffCmd(Web));
    case Carry(now) =>
      var call := PolicyCall(w.k.tick, now);
      if call.Some? {
        StepKeepsInv(w.dev, call.value);
        DeviceKeepsIssued(w.dev, call.value);
      }
    case _ =>
  }

  // --- After a disarm ---------------------------------------------------------------------------

  /** A run of the interleaving from any state. */
  ghost predicate Trail(ws: seq<World>, acts: seq<Act>) {
    && |ws| == |acts| + 1
    && forall i :: 0 <= i < |acts| ==> Can(ws[i], acts[i]) && ws[i + 1] == Do(ws[i], acts[i])
  }

  /** The policy was just turned off by a disarming callback, in any reachable state of the interleaving. */
  ghost predicate JustDisarmed(w: World) {
    exists before: World :: KInv(before) && Can(before, ForceOff) && w == Do(before, ForceOff)
  }

  predicate Starts(w: World, a: Act) {
    a.Carry? && w.k.tick.Decided? && w.k.tick.action == Engage
  }

  ghost predicate TickEnteredBefore(ws: seq<World>, acts: seq<Act>, i: nat)
    requires Trail(ws, acts) && i <= |acts|
  {
    exists j :: 0 <= j < i && acts[j].Enter? && ws[j].k.connected
  }

  /** An engagement that is not merely the tick in flight at the disarm finishing while the broker is gone. */
  ghost predicate NewEngagement(ws: seq<World>, acts: seq<Act>, i: nat)
    requires Trail(ws, acts) && i < |acts|
  {
    acts[i].Evaluate? && Decide(ws[i].k, acts[i].now).1.action == Engage
    && (ws[i].k.connected || TickEnteredBefore(ws, acts, i))
  }

  predicate OtherController(a: Act) {
    a.Other? && (HeatCommand(a.s) || a.s.Beat? || a.s.Reboot?)
  }

  /** After the disarm: no new engagement and no other controller in the first n acts. */
  ghost predicate LeftAlone(ws: seq<World>, acts: seq<Act>, n: nat)
    requires Trail(ws, acts) && n <= |acts|
  {
    JustDisarmed(ws[0]) && forall i :: 0 <= i < n ==> !NewEngagement(ws, acts, i) && !OtherController(acts[i])
  }

  ghost function StartCount(ws: seq<World>, acts: seq<Act>, n: nat): nat
    requires Trail(ws, acts) && n <= |acts|
  {
    if n == 0 then 0 else StartCount(ws, acts, n - 1) + if Starts(ws[n - 1], acts[n - 1]) then 1 else 0
  }

  /** The start still to come, if any. */
  ghost function InFlight(ws: seq<World>, acts: seq<Act>, n: nat): nat
    requires Trail(ws, acts) && n <= |acts|
  {
    var t := ws[n].k.tick;
    if (t.Decided? && t.action == Engage) || (t.Entered? && !TickEnteredBefore(ws, acts, n)) then 1 else 0
  }

  /** Leases issued before the disarm are dead, and a pending heartbeat could only name one of those. */
  ghost predicate OldLeasesDead(w: World, known: nat) {
    && known <= w.dev.core.p.session.issued
    && (w.dev.core.p.session.lease.Some? ==> w.dev.core.p.session.lease.value.id > known)
    && (w.k.tick.Decided? && w.k.tick.beat.Some? ==> w.k.tick.beat.value <= known)
  }

  lemma DeviceKeepsOldDead(d: Device, s: Step, known: nat)
    requires Enabled(d, s) && known <= d.core.p.session.issued
    requires d.core.p.session.lease.Some? ==> d.core.p.session.lease.value.id > known
    ensures var p := Apply(d, s).core.p.session;
            known <= p.issued && (p.lease.Some? ==> p.lease.value.id > known)
  {
    DeviceKeepsIssued(d, s);
    var p := Apply(d, s).core.p.session;
    if p.lease.Some? {
      StepKeepsLeaseDead(d, s, if p.lease.value.id <= known then p.lease.value.id else known);
    }
  }

  lemma DisarmedIsReleased(w: World)
    requires JustDisarmed(w)
    ensures KInv(w) && Released(w.k) && OldLeasesDead(w, w.dev.core.p.session.issued)
    ensures w.dev.core.p.session.mode == Off
  {
    var b: World :| KInv(b) && Can(b, ForceOff) && w == Do(b, ForceOff);
    ActKeepsInv(b, ForceOff);
    hide Inv;
  }

  lemma {:induction false} AloneStaysReleased(ws: seq<World>, acts: seq<Act>, n: nat)
    requires Trail(ws, acts) && n <= |acts| && LeftAlone(ws, acts, n)
    ensures KInv(ws[n]) && Released(ws[n].k)
    ensures OldLeasesDead(ws[n], ws[0].dev.core.p.session.issued)
    ensures StartCount(ws, acts, n) + InFlight(ws, acts, n) <= 1
  {
    hide KInv, Apply, Section, Enabled, Can;
    var known := ws[0].dev.core.p.session.issued;
    if n == 0 {
      DisarmedIsReleased(ws[0]);
    } else {
      AloneStaysReleased(ws, acts, n - 1);
      var w, a := ws[n - 1], acts[n - 1];
      assert !NewEngagement(ws, acts, n - 1);
      ActKeepsInv(w, a);
      ActKeepsReleased(w, a, known, TickEnteredBefore(ws, acts, n - 1));
      StartUsesFlight(ws, acts, n);
    }
  }

  lemma StartUsesFlight(ws: seq<World>, acts: seq<Act>, n: nat)
    requires Trail(ws, acts) && 0 < n <= |acts| && !NewEngagement(ws, acts, n - 1)
    ensures InFlight(ws, acts, n) + (if Starts(ws[n - 1], acts[n - 1]) then 1 else 0) <= InFlight(ws, acts, n - 1)
  {
    hide Apply, Section, Enabled;
    var w, a := ws[n - 1], acts[n - 1];
    assert Can(w, a) && ws[n] == Do(w, a);
    if a.Enter? && w.k.connected {
      assert TickEnteredBefore(ws, acts, n);
    }
    assert TickEnteredBefore(ws, acts, n - 1) ==> TickEnteredBefore(ws, acts, n);
  }

  lemma ActKeepsReleased(w: World, a: Act, known: nat, later: bool)
    requires KInv(w) && Can(w, a) && Released(w.k) && OldLeasesDead(w, known)
    requires a.Evaluate? && Decide(w.k, a.now).1.action == Engage ==> !w.k.connected && !later
    ensures var v := Do(w, a); Released(v.k) && OldLeasesDead(v, known)
  {
    hide Inv, Apply, Section, Enabled;
    if a.Other? {
      DeviceKeepsOldDead(w.dev, a.s, known);
    } else if a.ForceOff? {
      DeviceKeepsOldDead(w.dev, OffCmd(Web), known);
    } else if a.Carry? {
      var call := PolicyCall(w.k.tick, a.now);
      if call.Some? {
        DeviceKeepsOldDead(w.dev, call.value, known);
      }
    }
  }

  /** A disarm leaves at most one start: the one of the tick already in flight. */
  lemma AtMostOneStartInFlight(ws: seq<World>, acts: seq<Act>, n: nat)
    requires Trail(ws, acts) && n <= |acts| && LeftAlone(ws, acts, n)
    ensures StartCount(ws, acts, n) <= 1
  {
    AloneStaysReleased(ws, acts, n);
  }

  /** After a disarm no heartbeat of the client is accepted any more, not even for the lease that start takes. */
  lemma NoHeartbeatAfterDisarm(ws: seq<World>, acts: seq<Act>, i: nat)
    requires Trail(ws, acts) && i < |acts| && LeftAlone(ws, acts, i)
    requires acts[i].Carry? && ws[i].k.tick.Decided? && ws[i].k.tick.action == Hold
    requires PolicyCall(ws[i].k.tick, acts[i].now).Some?
    ensures Section(ws[i].dev, PolicyCall(ws[i].k.tick, acts[i].now).value).1 == StaleLease
  {
    hide LeftAlone, StartCount, InFlight, Inv, Can, Do;
    AloneStaysReleased(ws, acts, i);
  }

  // --- How the start left in flight ends ---------------------------------------------------------

  /** OFF, or still on exactly the given lease with nothing to resume. */
  ghost predicate Calm(s: Session, lease: Option<Lease>) {
    s.mode == Off || (s.mode == PowerOn && s.lease.Some? && s.lease == lease && s.resume == Off)
  }

  lemma TickStaysCalm(c: Core, clock: int, t: TickInput, lease: Option<Lease>)
    requires CoreInv(c, clock) && Calm(c.p.session, lease)
    ensures var s := TickLocked(c, t).0.p.session;
            && Calm(s, lease)
            && (c.p.session.mode == Off || t.entry >= lease.value.deadline ==> s.mode == Off)
  {
    var m := ModeStep(ConsumeClicks(c, t.entry).0, t.entry);
    assert if c.p.session.mode == Off || t.entry < lease.value.deadline
           then m.c.p.session == c.p.session && !m.trip else m.trip;
    hide ModeStep, ConsumeClicks, SetTarget, NotifyLink, EmergencyOff;
    var c2 := ApplyDemand(m, t);
    assert c2.p.session == if m.trip then Dropped(m.c.p.session) else m.c.p.session;
    BackSession(c2, t, m.trip);
  }

  lemma StepStaysCalm(d: Device, s: Step, lease: Option<Lease>)
    requires Inv(d) && Enabled(d, s) && Calm(d.core.p.session, lease)
    requires !HeatCommand(s) && !s.Reboot? && (s.Beat? ==> Section(d, s).1 != Accepted)
    ensures Calm(Apply(d, s).core.p.session, lease)
  {
    hide TickLocked, SetTarget, NotifyLink;
    if s.TickStep? {
      TickStaysCalm(d.core, d.clock, s.t, lease);
    }
  }

  lemma ActStaysCalm(w: World, a: Act, lease: Option<Lease>)
    requires KInv(w) && Can(w, a) && Calm(w.dev.core.p.session, lease) && !OtherController(a) && !Starts(w, a)
    requires a.Carry? && w.k.tick.action == Hold && w.k.tick.beat.Some? ==>
               Section(w.dev, PolicyCall(w.k.tick, a.now).value).1 == StaleLease
    ensures Calm(Do(w, a).dev.core.p.session, lease)
  {
    hide Inv, Apply, Section, Enabled, Calm;
    if a.Other? {
      StepStaysCalm(w.dev, a.s, lease);
    } else if a.ForceOff? {
      StepStaysCalm(w.dev, OffCmd(Web), lease);
    } else if a.Carry? && PolicyCall(w.k.tick, a.now).Some? {
      StepStaysCalm(w.dev, PolicyCall(w.k.tick, a.now).value, lease);
    }
  }

  lemma {:induction false} OffUntilStart(ws: seq<World>, acts: seq<Act>, n: nat)
    requires Trail(ws, acts) && n <= |acts| && LeftAlone(ws, acts, n) && StartCount(ws, acts, n) == 0
    ensures Calm(ws[n].dev.core.p.session, None)
  {
    hide KInv, Do, Section;
    if n == 0 {
      DisarmedIsReleased(ws[0]);
    } else {
      OffUntilStart(ws, acts, n - 1);
      AloneStaysReleased(ws, acts, n - 1);
      if acts[n - 1].Carry? && ws[n - 1].k.tick.action == Hold && ws[n - 1].k.tick.beat.Some? {
        NoHeartbeatAfterDisarm(ws, acts, n - 1);
      }
      ActStaysCalm(ws[n - 1], acts[n - 1], None);
    }
  }

  lemma StartIsCalm(w: World, a: Act)
    requires KInv(w) && Can(w, a) && Starts(w, a) && w.dev.core.p.session.mode == Off
    ensures var s := Do(w, a).dev.core.p.session; Calm(s, s.lease)
  {
    hide SetTarget, NotifyLink, Inv, TickLocked;
  }

  lemma {:induction false} StartCountGrows(ws: seq<World>, acts: seq<Act>, a: nat, n: nat)
    requires Trail(ws, acts) && a <= n <= |acts|
    ensures StartCount(ws, acts, a) <= StartCount(ws, acts, n)
  {
    if a < n {
      StartCountGrows(ws, acts, a, n - 1);
    }
  }

  /** Nobody prolongs, replaces or resumes the run the start left in flight began. */
  lemma {:induction false} LeaseUntouched(ws: seq<World>, acts: seq<Act>, a: nat, n: nat)
    requires Trail(ws, acts) && a < n <= |acts| && LeftAlone(ws, acts, n) && Starts(ws[a], acts[a])
    ensures Calm(ws[n].dev.core.p.session, ws[a + 1].dev.core.p.session.lease)
  {
    hide KInv, Do, Section, Starts, Calm;
    AtMostOneStartInFlight(ws, acts, n);
    AloneStaysReleased(ws, acts, n - 1);
    if n == a + 1 {
      OffUntilStart(ws, acts, a);
      assert ws[a].dev.core.p.session.mode == Off by {
        CalmWithoutLease(ws[a].dev.core.p.session);
      }
      StartIsCalm(ws[a], acts[a]);
    } else {
      LeaseUntouched(ws, acts, a, n - 1);
      StartCountGrows(ws, acts, a + 1, n - 1);
      if acts[n - 1].Carry? && ws[n - 1].k.tick.action == Hold && ws[n - 1].k.tick.beat.Some? {
        NoHeartbeatAfterDisarm(ws, acts, n - 1);
      }
      ActStaysCalm(ws[n - 1], acts[n - 1], ws[a + 1].dev.core.p.session.lease);
    }
  }

  lemma CalmWithoutLease(s: Session)
    requires Calm(s, None)
    ensures s.mode == Off
  {
  }

  /** So after a disarm heat is off at every policy tick that finds no start taken, and at the first tick at or
      after the deadline of the lease the start in flight took: OFF, zero target, SSR off. */
  lemma HeatEndsAfterDisarm(ws: seq<World>, acts: seq<Act>, m: nat, t: TickInput)
    requires Trail(ws, acts) && m < |acts| && LeftAlone(ws, acts, m) && acts[m] == Other(TickStep(t))
    requires forall a :: 0 <= a < m && Starts(ws[a], acts[a]) && ws[a + 1].dev.core.p.session.lease.Some?
               ==> t.entry >= ws[a + 1].dev.core.p.session.lease.value.deadline
    ensures var c := ws[m + 1].dev.core;
            c.p.session.mode == Off && c.h.target == 0.0 && !c.h.loop.on
  {
    hide Starts, Apply, Enabled, Released, OldLeasesDead, Inv, Calm;
    AloneStaysReleased(ws, acts, m);
    var d := ws[m].dev;
    if StartCount(ws, acts, m) == 0 {
      OffUntilStart(ws, acts, m);
      CalmTickEndsHeat(d, t, None);
    } else {
      var a := FindStart(ws, acts, m);
      LeaseUntouched(ws, acts, a, m);
      CalmTickEndsHeat(d, t, ws[a + 1].dev.core.p.session.lease);
    }
  }

  lemma CalmTickEndsHeat(d: Device, t: TickInput, lease: Option<Lease>)
    requires Inv(d) && Enabled(d, TickStep(t)) && Calm(d.core.p.session, lease)
    requires lease.Some? ==> t.entry >= lease.value.deadline
    ensures var c := Apply(d, TickStep(t)).core;
            c.p.session.mode == Off && c.h.target == 0.0 && !c.h.loop.on
  {
    hide CoreInv, TickLocked, Section, Envelope, Follows;
    SectionOfTick(d, t);
    StepKeepsInv(d, TickStep(t));
    var c := Apply(d, TickStep(t)).core;
    TickStaysCalm(d.core, d.clock, t, lease);
    assert c.p.session.mode == Off;
    assert c.h.target == 0.0 by {
      OffHasNoTarget(c, t.heater.now);
    }
    TickHeatsUnderAuthority(d.core, d.clock, t);
  }

  lemma OffHasNoTarget(c: Core, clock: int)
    requires CoreInv(c, clock) && c.p.session.mode == Off
    ensures c.h.target == 0.0
  {
  }

  lemma {:induction false} FindStart(ws: seq<World>, acts: seq<Act>, n: nat) returns (a: nat)
    requires Trail(ws, acts) && n <= |acts| && StartCount(ws, acts, n) > 0
    ensures a < n && Starts(ws[a], acts[a])
  {
    if n == 0 {
      assert false;
    }
    a := n - 1;
    if !Starts(ws[a], acts[a]) {
      a := FindStart(ws, acts, n - 1);
    }
  }

  // --- Decisions are read off the messages ------------------------------------------------------------

  /** A start the master power or the server's absence takes back. */
  ghost predicate TakenBack(k: Client, events: seq<Event>, now: int) {
    !(k.powerOn && k.online) && LiveAt(events, now, 15_000_000) && AsksForHeat(events) && Unacted(events, 15_000_000)
  }

  /** What the arming machine was told since the broker connected or the device booted, its evaluations and what
      forced it off included. */
  ghost function Told(ws: seq<World>, acts: seq<Act>, n: nat): seq<Event>
    requires Trail(ws, acts) && n <= |acts|
  {
    if n == 0 then []
    else
      var before, w, a := Told(ws, acts, n - 1), ws[n - 1], acts[n - 1];
      match a
      case Field(e) => before + [e]
      case Connect => []
      case ForceDisarm => before + [Disarm]
      case Evaluate(now) => before + [Evaluated(now)] + if TakenBack(w.k, before, now) then [Disarm] else []
      case Other(s) => if s.Reboot? then [] else before
      case _ => before
  }

  lemma AfterOneMore(events: seq<Event>, e: Event, timeout: int)
    ensures After(events + [e], timeout) == Next(After(events, timeout), e, timeout)
  {
    assert Front(events + [e]) == events;
  }

  lemma EvaluateIsTold(k: Client, events: seq<Event>, now: int)
    requires k.arm == After(events, 15_000_000)
    ensures var more := [Evaluated(now)] + if TakenBack(k, events, now) then [Disarm] else [];
            Decide(k, now).0 == After(events + more, 15_000_000)
  {
    EvaluationAnswers(events, now, 15_000_000);
    AfterOneMore(events, Evaluated(now), 15_000_000);
    if TakenBack(k, events, now) {
      AfterOneMore(events + [Evaluated(now)], Disarm, 15_000_000);
      assert events + [Evaluated(now)] + [Disarm] == events + ([Evaluated(now)] + [Disarm]);
    }
    hide After, Unacted, LiveAt, AsksForHeat, Driving;
  }

  /** In every interleaving the arming machine is the one of the messages since the connection, whatever the other
      tasks do in between. */
  lemma {:induction false} MachineIsWhatItWasTold(ws: seq<World>, acts: seq<Act>, n: nat)
    requires Trail(ws, acts) && n <= |acts| && ws[0].k.arm == RESET
    ensures ws[n].k.arm == After(Told(ws, acts, n), 15_000_000)
  {
    hide Apply, Section, Enabled, Decide, After, TakenBack;
    if n == 0 {
      NothingTold();
    } else {
      MachineIsWhatItWasTold(ws, acts, n - 1);
      NothingTold();
      var before, w, a := Told(ws, acts, n - 1), ws[n - 1], acts[n - 1];
      match a
      case Field(e) => AfterOneMore(before, e, 15_000_000);
      case ForceDisarm => AfterOneMore(before, Disarm, 15_000_000);
      case Evaluate(now) =>
        EvaluateIsTold(w.k, before, now);
        var last := if TakenBack(w.k, before, now) then [Disarm] else [];
        assert before + [Evaluated(now)] + last == before + ([Evaluated(now)] + last);
      case _ =>
    }
  }

  lemma NothingTold()
    ensures After([], 15_000_000) == RESET
  {
  }

  /** So every decision of the tick is read off the messages and the two gates. Heat starts at the last target told
      exactly on an unacted seq that asks for heat over a live link, with power on and the server there. It stops as
      soon as the link is not live, or the messages no longer ask for heat, or a gate takes the start back. A lease
      is heartbeaten every 5 s while the machine drives. */
  lemma DecisionIsTold(ws: seq<World>, acts: seq<Act>, i: nat)
    requires Trail(ws, acts) && i < |acts| && ws[0].k.arm == RESET && acts[i].Evaluate?
    ensures var k, told, now := ws[i].k, Told(ws, acts, i), acts[i].now;
            var driving, live := Driving(told, 15_000_000), LiveAt(told, now, 15_000_000);
            var starts := live && AsksForHeat(told) && Unacted(told, 15_000_000);
            var t := ws[i + 1].k.tick;
            && t.Decided? && t.target == LastTarget(told)
            && (t.action == Engage <==> starts && k.powerOn && k.online)
            && (t.action == CommsLost <==> driving && !live)
            && (t.action == Disengage <==>
                  (driving && live && !AsksForHeat(told)) || (starts && !(k.powerOn && k.online)))
            && t.beat == (if t.action == Hold && driving && k.lease.Some? && now - k.lastBeat >= 5_000_000
                          then k.lease else None)
            && (t.beat.Some? ==> ws[i + 1].k.lastBeat == now)
  {
    MachineIsWhatItWasTold(ws, acts, i);
    EvaluationAnswers(Told(ws, acts, i), acts[i].now, 15_000_000);
    hide After, Unacted, LiveAt, AsksForHeat, Driving, Told, LastTarget;
  }

  /** The number a start names: the one told, cut to 20 .. 70 C; anything but a number names none. */
  ghost predicate Cut(t: Wire, r: Float) {
    match t
    case Real(c) => r.Finite? && (if c < 20.0 then r.c == 20.0 else if c > 70.0 then r.c == 70.0 else r.c == c)
    case PlusInf => r == Finite(70.0)
    case MinusInf => r == Finite(20.0)
    case NaN => r.NonFinite?
  }

  /** What carrying a decision out leaves. A stop always leads to OFF. A start is accepted exactly for a number that
      is at least 30 C after the cut, on an unfaulted heater, and leads to POWER_ON at it on a new lease. A heartbeat
      counts exactly while its lease is live. */
  lemma DecisionIsCarried(w: World, now: int)
    requires KInv(w) && Can(w, Carry(now))
    ensures var t, c, v := w.k.tick, w.dev.core, Do(w, Carry(now));
            match t.action
            case Engage =>
              exists r: Float :: Cut(t.target, r)
                && (if r.NonFinite? || r.c < 30.0 || c.h.latch.latched || c.h.latch.inhibited
                    then v.dev.core == c && v.k.tick == Idle
                    else PowerOnLeft(c, v.dev.core, now, r.c, Web, 0) && v.k.tick == Taken(c.p.session.issued + 1))
            case Hold =>
              if t.beat.None? then v.dev == w.dev && v.k.tick == Idle
              else
                var s := c.p.session;
                var l := s.lease;
                if s.mode == PowerOn && l.Some? && l.value.id == t.beat.value && now < l.value.deadline
                then v.k.tick == Idle
                     && v.dev.core.p.session.lease == Some(Lease(t.beat.value, now + c.h.settings.commsMs * 1000))
                else v.k.tick == Stopped && v.dev.core == c
            case _ => OffLeft(c, v.dev.core, Web) && v.k.tick == Stopped
  {
    hide Section, Apply, Inv, PowerOnLeft, OffLeft, HeatTarget, Cut;
    var t := w.k.tick;
    match t.action
    case Engage =>
      CutIsHeatTarget(t.target);
      var r := HeatTarget(t.target);
      StartAnswers(w.dev, now, r);
      var c, v := w.dev.core, Do(w, Carry(now));
      assert if r.NonFinite? || r.c < 30.0 || c.h.latch.latched || c.h.latch.inhibited
             then v.dev.core == c && v.k.tick == Idle
             else PowerOnLeft(c, v.dev.core, now, r.c, Web, 0) && v.k.tick == Taken(c.p.session.issued + 1);
    case Hold =>
      if t.beat.Some? {
        HeartbeatAnswers(w.dev, now, t.beat.value);
      }
    case _ => OffAndStopLeave(w.dev, OffCmd(Web));
  }

  lemma CutIsHeatTarget(t: Wire)
    ensures Cut(t, HeatTarget(t))
  {
  }

  lemma StartAnswers(d: Device, now: int, t: Float)
    requires Inv(d) && Enabled(d, PowerOnCmd(now, t, Web, REVISION_ANY))
    ensures var s, l := PowerOnCmd(now, t, Web, REVISION_ANY), d.core.h.latch;
            && (Section(d, s).1 == Accepted <==> t.Finite? && t.c >= 30.0 && !l.latched && !l.inhibited)
            && (Section(d, s).1 != Accepted ==> Apply(d, s).core == d.core)
            && (Section(d, s).1 == Accepted ==>
                  && PowerOnLeft(d.core, Apply(d, s).core, now, t.c, Web, 0)
                  && Apply(d, s).core.p.session.issued == d.core.p.session.issued + 1)
  {
    hide Section, Apply, Inv;
    var s := PowerOnCmd(now, t, Web, REVISION_ANY);
    AcceptedExactly(d, s);
    if Section(d, s).1 == Accepted {
      AcceptedCommandLeaves(d, s);
    }
  }

  lemma {:induction false} DecisionWaits(ws: seq<World>, acts: seq<Act>, i: nat, j: nat)
    requires Trail(ws, acts) && i < j <= |acts| && acts[i].Evaluate?
    requires forall m :: i < m < j ==> !acts[m].Carry? && !(acts[m].Other? && acts[m].s.Reboot?)
    ensures ws[j].k.tick == ws[i + 1].k.tick && ws[j].k.tick.Decided?
  {
    hide Apply, Section, Enabled, Eval;
    if j > i + 1 {
      DecisionWaits(ws, acts, i, j - 1);
    }
  }

  /** A macro that turns heat off is obeyed: the first evaluation after a driving machine was told "not armed" or
      "not heat", or finds its link dead, decides to stop, and when that decision is carried out the policy is OFF
      with no target and no lease, whatever happened in between. */
  lemma MacroOffStopsHeat(ws: seq<World>, acts: seq<Act>, i: nat, j: nat)
    requires Trail(ws, acts) && i < j < |acts| && KInv(ws[j]) && ws[0].k.arm == RESET
    requires acts[i].Evaluate? && Driving(Told(ws, acts, i), 15_000_000)
    requires var told := Told(ws, acts, i);
             !LastArmed(told) || !LastHeat(told) || !LiveAt(told, acts[i].now, 15_000_000)
    requires acts[j].Carry? && forall m :: i < m < j ==> !acts[m].Carry? && !(acts[m].Other? && acts[m].s.Reboot?)
    ensures OffLeft(ws[j].dev.core, ws[j + 1].dev.core, Web)
  {
    hide KInv, Do, OffLeft, Driving, Unacted, LiveAt;
    DecisionIsTold(ws, acts, i);
    DecisionWaits(ws, acts, i, j);
    DecisionIsCarried(ws[j], acts[j].now);
  }

  // --- What a disarming callback and a tick go through ------------------------------------------------

  /** A message of the broker, or the broker itself coming or going. */
  predicate Message(a: Act) {
    a.Field? || a.PowerSet? || a.ServerIs? || a.Connect? || a.Disconnect?
  }

  /** Master power off, the server gone, or the broker gone. */
  predicate Disarming(a: Act) {
    a == PowerSet(false) || a == ServerIs(false) || a == Disconnect
  }

  predicate Boots(a: Act) {
    a.Other? && a.s.Reboot?
  }

  /** How far a disarming callback that began at act i has come by act n. */
  ghost predicate Disarmed(ws: seq<World>, acts: seq<Act>, i: nat, n: nat)
    requires Trail(ws, acts) && i < n <= |acts|
  {
    match ws[n].k.callback
    case Flagged => true
    case Cleared => exists a :: i < a < n && acts[a] == ForceDisarm && !ws[a + 1].k.arm.engaged
    case Silenced => exists a, b :: i < a < b < n && ForcedOff(ws, acts, a, b)
    case Waiting => exists a, b, c :: i < a < b < c < n && ForcedOff(ws, acts, a, b) && Forgot(ws, acts, c)
  }

  ghost predicate ForcedOff(ws: seq<World>, acts: seq<Act>, a: nat, b: nat)
    requires Trail(ws, acts) && a < b < |acts|
  {
    && acts[a] == ForceDisarm && !ws[a + 1].k.arm.engaged
    && acts[b] == ForceOff && OffLeft(ws[b].dev.core, ws[b + 1].dev.core, Web)
  }

  ghost predicate Forgot(ws: seq<World>, acts: seq<Act>, c: nat)
    requires Trail(ws, acts) && c < |acts|
  {
    acts[c] == ForceDone && ws[c + 1].k.lease.None?
  }

  lemma CallbackStep(w: World, a: Act)
    requires Can(w, a) && !Message(a) && !Boots(a)
    ensures var k := Do(w, a).k;
            match w.k.callback
            case Flagged => if a == ForceDisarm then k.callback.Cleared? && !k.arm.engaged else k.callback.Flagged?
            case Cleared => if a == ForceOff then k.callback.Silenced? else k.callback.Cleared?
            case Silenced => if a == ForceDone then k.callback.Waiting? && k.lease.None? else k.callback.Silenced?
            case Waiting => k.callback.Waiting?
  {
    hide Apply, Section, Enabled, Eval;
  }

  lemma DisarmBegins(w: World, a: Act)
    requires Can(w, a) && Disarming(a)
    ensures Do(w, a).k.callback.Flagged?
  {
  }

  lemma {:induction false} DisarmGoesOn(ws: seq<World>, acts: seq<Act>, i: nat, n: nat)
    requires Trail(ws, acts) && i < n <= |acts| && KInv(ws[0]) && Disarming(acts[i])
    requires forall m :: i < m < n ==> !Message(acts[m]) && !Boots(acts[m])
    ensures Disarmed(ws, acts, i, n)
  {
    hide Do, Can, OffLeft, KInv, ForcedOff, Forgot, Message, Boots, Disarming;
    if n == i + 1 {
      DisarmBegins(ws[i], acts[i]);
    } else {
      DisarmGoesOn(ws, acts, i, n - 1);
      CallbackStep(ws[n - 1], acts[n - 1]);
      match ws[n - 1].k.callback
      case Flagged =>
      case Cleared => OffGoesOn(ws, acts, i, n);
      case Silenced => DoneGoesOn(ws, acts, i, n);
      case Waiting =>
        var a, b, c :| i < a < b < c < n - 1 && ForcedOff(ws, acts, a, b) && Forgot(ws, acts, c);
    }
  }

  lemma OffGoesOn(ws: seq<World>, acts: seq<Act>, i: nat, n: nat)
    requires Trail(ws, acts) && i + 1 < n <= |acts| && KInv(ws[0])
    requires Disarmed(ws, acts, i, n - 1) && ws[n - 1].k.callback.Cleared?
    requires if acts[n - 1] == ForceOff then ws[n].k.callback.Silenced? else ws[n].k.callback.Cleared?
    ensures Disarmed(ws, acts, i, n)
  {
    hide Do, Can, OffLeft, KInv, Forgot, ForcedOff;
    var a :| i < a < n - 1 && acts[a] == ForceDisarm && !ws[a + 1].k.arm.engaged;
    if acts[n - 1] == ForceOff {
      TrailKeepsInv(ws, acts, n - 1);
      TrailAt(ws, acts, n - 1);
      ForceOffStops(ws[n - 1]);
      StoppedBy(ws, acts, a, n - 1);
    }
  }

  lemma DoneGoesOn(ws: seq<World>, acts: seq<Act>, i: nat, n: nat)
    requires Trail(ws, acts) && i + 1 < n <= |acts|
    requires Disarmed(ws, acts, i, n - 1) && ws[n - 1].k.callback.Silenced?
    requires if acts[n - 1] == ForceDone then ws[n].k.callback.Waiting? else ws[n].k.callback.Silenced?
    ensures Disarmed(ws, acts, i, n)
  {
    hide Do, Can, OffLeft, ForcedOff, Forgot;
    var a, b :| i < a < b < n - 1 && ForcedOff(ws, acts, a, b);
    if acts[n - 1] == ForceDone {
      ForgottenBy(ws, acts, n - 1);
    }
  }

  lemma TrailAt(ws: seq<World>, acts: seq<Act>, n: nat)
    requires Trail(ws, acts) && n < |acts|
    ensures Can(ws[n], acts[n]) && ws[n + 1] == Do(ws[n], acts[n])
  {
  }

  lemma StoppedBy(ws: seq<World>, acts: seq<Act>, a: nat, b: nat)
    requires Trail(ws, acts) && a < b < |acts| && acts[a] == ForceDisarm && !ws[a + 1].k.arm.engaged
    requires acts[b] == ForceOff && OffLeft(ws[b].dev.core, Do(ws[b], ForceOff).dev.core, Web)
    ensures ForcedOff(ws, acts, a, b)
  {
    hide Do, OffLeft;
  }

  lemma ForgottenBy(ws: seq<World>, acts: seq<Act>, c: nat)
    requires Trail(ws, acts) && c < |acts| && acts[c] == ForceDone
    ensures Forgot(ws, acts, c)
  {
  }

  lemma {:induction false} TrailKeepsInv(ws: seq<World>, acts: seq<Act>, n: nat)
    requires Trail(ws, acts) && KInv(ws[0]) && n <= |acts|
    ensures KInv(ws[n])
  {
    hide KInv, Can, Do;
    if n > 0 {
      TrailKeepsInv(ws, acts, n - 1);
      ActKeepsInv(ws[n - 1], acts[n - 1]);
    }
  }

  lemma ForceOffStops(w: World)
    requires KInv(w) && Can(w, ForceOff)
    ensures OffLeft(w.dev.core, Do(w, ForceOff).dev.core, Web)
  {
    hide Section, Apply, OffLeft, Inv;
    OffAndStopLeave(w.dev, OffCmd(Web));
  }

  /** Before the next message is handled, master power off, a lost server or a lost broker has been carried out in
      full: first the machine disengaged, then the policy turned OFF, then the lease forgotten, whatever the control
      task and everyone else did in between. */
  lemma DisarmIsCarriedOut(ws: seq<World>, acts: seq<Act>, i: nat, j: nat)
    requires Trail(ws, acts) && KInv(ws[0]) && i < j < |acts| && Disarming(acts[i]) && Message(acts[j])
    requires forall m :: i < m < j ==> !Message(acts[m]) && !Boots(acts[m])
    ensures exists a, b, c :: i < a < b < c < j && ForcedOff(ws, acts, a, b) && Forgot(ws, acts, c)
  {
    hide KInv, ForcedOff, Forgot, Do;
    DisarmGoesOn(ws, acts, i, j);
  }

  /** The tick goes on only when it saw the broker, and records what came of its call: the lease it was granted, or
      none after a stop. A new connection starts disarmed with the server assumed there, and a boot afresh. */
  lemma TickRecords(w: World, now: int, s: Step)
    ensures Can(w, Enter) ==> Do(w, Enter) == w.(k := w.k.(tick := if w.k.connected then Entered else Idle))
    ensures Can(w, Finish(now)) ==>
              var k := Do(w, Finish(now)).k;
              && k.tick == Idle
              && (if w.k.tick.Taken? then k.lease == Some(w.k.tick.lease) && k.lastBeat == now
                  else k.lease.None? && k.lastBeat == w.k.lastBeat)
    ensures Can(w, Connect) ==> Do(w, Connect).k == w.k.(connected := true, arm := RESET, online := true)
    ensures s.Reboot? ==> Do(w, Other(s)).k == Client(RESET, None, true, true, false, 0, Idle, Waiting)
    ensures !s.Reboot? ==> Do(w, Other(s)).k == w.k
  {
    hide Apply, Enabled;
  }
}
