/** db_klipper_mqtt.c in its own form: the state two tasks share under a lock, and the sections that update it. */
module KlipperClient {
  import opened Values
  import opened PolicySpec
  import opened System
  import opened PolicyDevice
  import opened Arming
  import opened KlipperMqtt

  /** A carried decision in terms of the policy function it calls. */
  lemma CarryCalls(w: World, now: int)
    requires w.k.tick.Decided?
    ensures var k, c, v := w.k, w.dev.core, Do(w, Carry(now));
            && v.k == k.(tick := v.k.tick)
            && match k.tick.action
               case Engage =>
                 var t := HeatTarget(k.tick.target);
                 var (c', r) := SetPowerOn(c, now, t, Web, REVISION_ANY, LOCAL_DEFAULT_MS, false);
                 v.dev.core == c' && v.k.tick == if r == Accepted then Taken(c'.p.session.issued) else Idle
               case Hold =>
                 k.tick.beat.Some? ==>
                   var (c', r) := PolicySpec.Heartbeat(c, now, k.tick.beat.value);
                   v.dev.core == c' && v.k.tick == if r == Accepted then Idle else Stopped
               case _ => v.dev.core == SetOff(c, Web) && v.k.tick == Stopped
  {
    hide SetPowerOn, SetButtonPowerOn, SetAuto, StartDrying, SetOff, PolicySpec.Heartbeat, TickLocked, BootCore;
  }

  class MqttClient {
    const arm: ArmingMachine
    var haveLease: bool
    var leaseId: nat
    var powerOn: bool
    var mrkOnline: bool
    var connected: bool
    var lastHbUs: int
    ghost var tick: TickAt           // program counter of the control task
    ghost var callback: CallbackAt   // program counter of the MQTT task

    ghost predicate Valid()
      reads this, arm
    {
      arm.Valid()
    }

    ghost function State(): Client
      reads this, arm
    {
      Client(arm.State(), if haveLease then Some(leaseId) else None, powerOn, mrkOnline, connected, lastHbUs,
             tick, callback)
    }

    constructor ()
      ensures Valid() && fresh(arm)
      ensures State() == FRESH
    {
      arm := new ArmingMachine();
      haveLease, leaseId, powerOn, mrkOnline, connected, lastHbUs := false, 0, true, true, false, 0;
      tick, callback := Idle, Waiting;
    }

    // --- MQTT task ---------------------------------------------------------------------------------

    method HandleField(e: Event)
      requires Valid() && !e.Disarm? && !e.Evaluated?
      modifies arm
      ensures Valid() && State() == Local(old(State()), Field(e))
    {
      match e
      case SeqIs(v) => arm.Seq(v);
      case TargetIs(t) => arm.SetTarget(t);
      case HeatIs(h) => arm.SetMode(h);
      case ArmedIs(x) => arm.SetArmed(if x then 1 else 0);
      case FanIs(percent) => arm.SetFan(percent);
      case PurgeIs(v) => var fired := arm.Purge(v);
      case BeatIs(v, now) => arm.Beat(v, now);
    }

    method HandlePower(on: bool)
      requires Valid()
      modifies `powerOn, `callback
      ensures Valid() && State() == Local(old(State()), PowerSet(on))
    {
      powerOn := on;
      if !on {
        callback := Flagged;
      }
    }

    method HandleServer(up: bool)
      requires Valid()
      modifies `mrkOnline, `callback
      ensures Valid() && State() == Local(old(State()), ServerIs(up))
    {
      mrkOnline := up;
      if !up {
        callback := Flagged;
      }
    }

    method OnConnected()
      requires Valid()
      modifies `connected, `mrkOnline, arm
      ensures Valid() && State() == Local(old(State()), Connect)
    {
      connected := true;
      arm.Reset();
      mrkOnline := true;
    }

    method OnDisconnected()
      requires Valid()
      modifies `connected, `callback
      ensures Valid() && State() == Local(old(State()), Disconnect)
    {
      connected := false;
      callback := Flagged;
    }

    /** First section of a forced disarm; the policy goes off after it, and the lease is dropped last. */
    method DisarmMachine()
      requires Valid()
      modifies arm, `callback
      ensures Valid() && State() == Local(old(State()), ForceDisarm)
    {
      arm.ForceOff();
      callback := Cleared;
    }

    method ForcePolicyOff(policy: PolicyUnit, ghost d: Device)
      requires Valid() && policy.Valid() && policy.State() == d.core && Can(World(d, State()), ForceOff)
      modifies `callback, policy, policy.heater`target
      ensures Valid() && policy.Valid()
      ensures var w := Do(World(d, old(State())), ForceOff); w.k == State() && w.dev.core == policy.State()
    {
      hide Can, SetOff;
      policy.SetOffLocked(Web);
      callback := Silenced;
    }

    method DropLease()
      requires Valid()
      modifies `haveLease, `callback
      ensures Valid() && State() == Local(old(State()), ForceDone)
    {
      haveLease := false;
      callback := Waiting;
    }

    // --- Control task --------------------------------------------------------------------------------

    method EnterTick() returns (go: bool)
      requires Valid()
      modifies `tick
      ensures Valid() && State() == Local(old(State()), Enter) && go == connected
    {
      go := connected;
      tick := if go then Entered else Idle;
    }

    /** The locked half of a tick. */
    method EvaluateLocked(now: int) returns (action: Action, target: Wire, beat: Option<nat>)
      requires Valid()
      modifies `lastHbUs, `tick, arm
      ensures Valid() && State() == Local(old(State()), Evaluate(now)) && tick == Decided(action, target, beat)
    {
      var allow := powerOn && mrkOnline;
      action, target := arm.Evaluate(now, LIVE_TIMEOUT_US);
      if action == Engage && !allow {
        arm.ForceOff();
        action := Disengage;
      }
      beat := None;
      if action == Hold && arm.engaged && haveLease && now - lastHbUs >= BEAT_PERIOD_US {
        beat := Some(leaseId);
        lastHbUs := now;
      }
      tick := Decided(action, target, beat);
    }

    /** The policy calls a decision can ask for, made without the client's lock. */
    method StartHeat(target: Wire, now: int, draw: nat, policy: PolicyUnit, ghost d: Device)
      returns (granted: Option<nat>)
      requires Valid() && policy.Valid() && draw == policy.issued + 1
      requires tick.Decided? && tick.action == Engage && tick.target == target
      requires policy.State() == d.core && Can(World(d, State()), Carry(now))
      modifies `tick, policy, policy.heater`target, policy.heater`lastLinkUs
      ensures Valid() && policy.Valid()
      ensures var w := Do(World(d, old(State())), Carry(now)); w.k == State() && w.dev.core == policy.State()
      ensures if granted.Some? then tick == Taken(granted.value) else tick == Idle
    {
      hide Can, SetPowerOn, EnterPowerOn, PowerOnSession, Do;
      CarryCalls(World(d, State()), now);
      var r := policy.SetPowerOnMode(now, HeatTarget(target), Web, REVISION_ANY, LOCAL_DEFAULT_MS, false, draw);
      tick := if r == Accepted then Taken(policy.issued) else Idle;
      granted := if r == Accepted then Some(policy.leaseId) else None;
    }

    method StopHeat(now: int, policy: PolicyUnit, ghost d: Device)
      requires Valid() && policy.Valid() && tick.Decided? && (tick.action == Disengage || tick.action == CommsLost)
      requires policy.State() == d.core && Can(World(d, State()), Carry(now))
      modifies `tick, policy, policy.heater`target
      ensures Valid() && policy.Valid() && tick == Stopped
      ensures var w := Do(World(d, old(State())), Carry(now)); w.k == State() && w.dev.core == policy.State()
    {
      hide Can, SetOff, Do;
      CarryCalls(World(d, State()), now);
      policy.SetOffLocked(Web);
      tick := Stopped;
    }

    method SendBeat(id: nat, now: int, policy: PolicyUnit, ghost d: Device) returns (refused: bool)
      requires Valid() && policy.Valid() && tick.Decided? && tick.action == Hold && tick.beat == Some(id)
      requires policy.State() == d.core && Can(World(d, State()), Carry(now))
      modifies `tick, policy`leaseDeadlineUs, policy`refreshedAt, policy.heater`lastLinkUs
      ensures Valid() && policy.Valid() && tick == (if refused then Stopped else Idle)
      ensures var w := Do(World(d, old(State())), Carry(now)); w.k == State() && w.dev.core == policy.State()
    {
      hide Can, PolicySpec.Heartbeat, Do;
      CarryCalls(World(d, State()), now);
      var r := policy.Heartbeat(now, id);
      refused := r != Accepted;
      tick := if refused then Stopped else Idle;
    }

    method Keep(beat: Option<nat>, now: int, policy: PolicyUnit, ghost d: Device) returns (refused: bool)
      requires Valid() && policy.Valid() && tick.Decided? && tick.action == Hold && tick.beat == beat
      requires policy.State() == d.core && Can(World(d, State()), Carry(now))
      modifies `tick, policy`leaseDeadlineUs, policy`refreshedAt, policy.heater`lastLinkUs
      ensures Valid() && policy.Valid() && tick == (if refused then Stopped else Idle)
      ensures var w := Do(World(d, old(State())), Carry(now)); w.k == State() && w.dev.core == policy.State()
    {
      if beat.Some? {
        hide Can, Do;
        refused := SendBeat(beat.value, now, policy, d);
      } else {
        hide Can, Apply, Section, Local;
        refused := false;
        tick := Idle;
      }
    }

    /** What the tick records afterwards, again under the lock. */
    method Record(granted: Option<nat>, now: int)
      requires Valid() && (if granted.Some? then tick == Taken(granted.value) else tick == Stopped)
      modifies `haveLease, `leaseId, `lastHbUs, `tick
      ensures Valid() && State() == Local(old(State()), Finish(now))
    {
      if granted.Some? {
        haveLease, leaseId, lastHbUs := true, granted.value, now;
      } else {
        haveLease := false;
      }
      tick := Idle;
    }
  }
}
