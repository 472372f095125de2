/** The retained-aware arming machine of db_klipper_mqtt_arm.h. */
module Arming {
  import opened Values

  datatype Action = Hold | Engage | Disengage | CommsLost

  /** A number parsed from a message; infinities and NaN parse too. */
  datatype Wire = Real(c: real) | PlusInf | MinusInf | NaN

  /** Latest seq, and the seq last acted on (the first one seen is the baseline). */
  datatype SeqState = SeqState(latest: int, acted: int)

  /** Heartbeat value, when it last changed (or was first seen), and whether it ever changed. */
  datatype Pulse = Pulse(value: int, changedAt: int, live: bool)

  datatype Arm = Arm(seqs: Option<SeqState>, target: Wire, heat: bool, armed: bool, fan: nat,
                     purge: Option<int>, pulse: Option<Pulse>, engaged: bool)
  {
    predicate Pending() { seqs.Some? && seqs.value.latest != seqs.value.acted }
    predicate Live(now: int, timeout: int) {
      pulse.Some? && pulse.value.live && now - pulse.value.changedAt < timeout
    }
  }

  const RESET := Arm(None, Real(0.0), false, false, 0, None, None, false)

  function OnSeq(a: Arm, v: int): Arm {
    a.(seqs := Some(SeqState(v, if a.seqs.Some? then a.seqs.value.acted else v)))
  }

  function OnBeat(a: Arm, v: int, now: int): Arm {
    if a.pulse.None? then a.(pulse := Some(Pulse(v, now, false)))
    else if a.pulse.value.value != v then a.(pulse := Some(Pulse(v, now, true)))
    else a
  }

  function OnPurge(a: Arm, v: int): (Arm, bool) {
    (a.(purge := Some(v)), a.purge.Some? && a.purge.value != v)
  }

  function Eval(a: Arm, now: int, timeout: int): (Arm, Action) {
    var live := a.Live(now, timeout);
    if a.engaged && !live then (a.(engaged := false), CommsLost)
    else if a.engaged && !(a.armed && a.heat) then (a.(engaged := false), Disengage)
    else if a.Pending() then
      var b := a.(seqs := Some(SeqState(a.seqs.value.latest, a.seqs.value.latest)));
      if a.armed && a.heat && live then (b.(engaged := true), Engage)
      else (b, Hold)
    else (a, Hold)
  }

  /** The struct of the source, updated in place. */
  class ArmingMachine {
    var latest: int
    var seqKnown: bool
    var acted: int
    var target: Wire
    var heat: bool
    var armed: int
    var fan: nat
    var purgeNonce: int
    var purgeKnown: bool
    var hb: int
    var hbKnown: bool
    var hbChange: int
    var hbLive: bool
    var engaged: bool

    ghost predicate Valid()
      reads this
    {
      && (armed == 0 || armed == 1)
      && (!hbKnown ==> !hbLive)
    }

    ghost function State(): Arm
      reads this
    {
      Arm(if seqKnown then Some(SeqState(latest, acted)) else None, target, heat, armed == 1, fan,
          if purgeKnown then Some(purgeNonce) else None,
          if hbKnown then Some(Pulse(hb, hbChange, hbLive)) else None, engaged)
    }

    constructor ()
      ensures Valid() && State() == RESET
    {
      latest, seqKnown, acted, target, heat, armed, fan := 0, false, 0, Real(0.0), false, 0, 0;
      purgeNonce, purgeKnown, hb, hbKnown, hbChange, hbLive, engaged := 0, false, 0, false, 0, false, false;
    }

    method Reset()
      modifies this
      ensures Valid() && State() == RESET
    {
      latest, seqKnown, acted, target, heat, armed, fan := 0, false, 0, Real(0.0), false, 0, 0;
      purgeNonce, purgeKnown, hb, hbKnown, hbChange, hbLive, engaged := 0, false, 0, false, 0, false, false;
    }

    method Seq(v: int)
      requires Valid()
      modifies this
      ensures Valid() && State() == OnSeq(old(State()), v)
    {
      if !seqKnown {
        seqKnown := true;
        acted := v;
      }
      latest := v;
    }

    method SetTarget(t: Wire)
      requires Valid()
      modifies this
      ensures Valid() && State() == old(State()).(target := t)
    {
      target := t;
    }

    method SetMode(isHeat: bool)
      requires Valid()
      modifies this
      ensures Valid() && State() == old(State()).(heat := isHeat)
    {
      heat := isHeat;
    }

    method SetArmed(v: int)
      requires Valid()
      modifies this
      ensures Valid() && State() == old(State()).(armed := v != 0)
    {
      armed := if v != 0 then 1 else 0;
    }

    method SetFan(percent: int)
      requires Valid()
      modifies this
      ensures Valid() && State() == old(State()).(fan := ClampInt(percent, 0, 100))
    {
      fan := if percent < 0 then 0 else if percent > 100 then 100 else percent;
    }

    method ForceOff()
      requires Valid()
      modifies this
      ensures Valid() && State() == old(State()).(engaged := false)
    {
      engaged := false;
    }

    method Purge(v: int) returns (advanced: bool)
      requires Valid()
      modifies this
      ensures Valid() && (State(), advanced) == OnPurge(old(State()), v)
    {
      if !purgeKnown {
        purgeKnown := true;
        purgeNonce := v;
        return false;
      }
      if v != purgeNonce {
        purgeNonce := v;
        return true;
      }
      return false;
    }

    method Beat(v: int, now: int)
      requires Valid()
      modifies this
      ensures Valid() && State() == OnBeat(old(State()), v, now)
    {
      if !hbKnown {
        hbKnown, hb, hbChange := true, v, now;
        return;
      }
      if v != hb {
        hb, hbChange, hbLive := v, now, true;
      }
    }

    method Evaluate(now: int, timeout: int) returns (action: Action, out: Wire)
      requires Valid()
      modifies this
      ensures Valid() && (State(), action) == Eval(old(State()), now, timeout)
      ensures out == old(target)
    {
      var live := hbLive && now - hbChange < timeout;
      out := target;
      if engaged {
        if !live {
          engaged := false;
          return CommsLost, out;
        }
        if armed == 0 || !heat {
          engaged := false;
          return Disengage, out;
        }
      }
      if seqKnown && latest != acted {
        acted := latest;
        if armed == 1 && heat && live {
          engaged := true;
          return Engage, target;
        }
        // A machine still engaged here is armed, in heat mode and live, so it was handled above.
      }
      return Hold, out;
    }
  }

  // --- Streams since connect ---------------------------------------------------------------------

  datatype Event =
    | SeqIs(v: int)
    | TargetIs(t: Wire)
    | HeatIs(heat: bool)
    | ArmedIs(armed: bool)
    | FanIs(percent: int)
    | PurgeIs(v: int)
    | BeatIs(v: int, now: int)
    | Disarm                 // forced from outside: master power, broker or server loss, or a refused engage
    | Evaluated(now: int)

  function Next(a: Arm, e: Event, timeout: int): Arm {
    match e
    case SeqIs(v) => OnSeq(a, v)
    case TargetIs(t) => a.(target := t)
    case HeatIs(h) => a.(heat := h)
    case ArmedIs(x) => a.(armed := x)
    case FanIs(percent) => a.(fan := ClampInt(percent, 0, 100))
    case PurgeIs(v) => OnPurge(a, v).0
    case BeatIs(v, now) => OnBeat(a, v, now)
    case Disarm => a.(engaged := false)
    case Evaluated(now) => Eval(a, now, timeout).0
  }

  /** The machine after a stream of events on a fresh connection. */
  function After(events: seq<Event>, timeout: int): Arm {
    if events == [] then RESET else Next(After(Front(events), timeout), Final(events), timeout)
  }

  /** What the i-th event answered. */
  function Answer(events: seq<Event>, i: nat, timeout: int): Action
    requires i < |events|
  {
    if events[i].Evaluated? then Eval(After(events[..i], timeout), events[i].now, timeout).1 else Hold
  }

  function Engages(events: seq<Event>, timeout: int): nat {
    if events == [] then 0
    else Engages(Front(events), timeout) + if Answer(events, |events| - 1, timeout) == Engage then 1 else 0
  }

  // --- The same stream, read without the machine ------------------------------------------------

  function LastSeq(events: seq<Event>): Option<int> {
    if events == [] then None
    else if Final(events).SeqIs? then Some(Final(events).v)
    else LastSeq(Front(events))
  }

  function LastBeat(events: seq<Event>): Option<int> {
    if events == [] then None
    else if Final(events).BeatIs? then Some(Final(events).v)
    else LastBeat(Front(events))
  }

  /** The event changes the value the stream last gave for the seq, or for the heartbeat. */
  predicate SeqChange(events: seq<Event>, i: nat)
    requires i < |events|
  {
    events[i].SeqIs? && LastSeq(events[..i]).Some? && LastSeq(events[..i]).value != events[i].v
  }

  predicate BeatChange(events: seq<Event>, i: nat)
    requires i < |events|
  {
    events[i].BeatIs? && LastBeat(events[..i]).Some? && LastBeat(events[..i]).value != events[i].v
  }

  function SeqChanges(events: seq<Event>): nat {
    if events == [] then 0
    else SeqChanges(Front(events)) + if SeqChange(events, |events| - 1) then 1 else 0
  }

  /** The machine's memory is what the stream says. */
  lemma {:induction false} MachineReadsStream(events: seq<Event>, timeout: int)
    ensures var a := After(events, timeout);
            && (a.seqs.Some? <==> LastSeq(events).Some?)
            && (a.seqs.Some? ==> a.seqs.value.latest == LastSeq(events).value)
            && (a.pulse.Some? <==> LastBeat(events).Some?)
            && (a.pulse.Some? ==> a.pulse.value.value == LastBeat(events).value)
            && (a.engaged ==> a.pulse.Some? && a.pulse.value.live)
  {
    if events != [] {
      MachineReadsStream(Front(events), timeout);
      NextRemembers(After(Front(events), timeout), Final(events), timeout);
    }
    hide Next;
  }

  lemma NextRemembers(a: Arm, e: Event, timeout: int)
    ensures var r := Next(a, e, timeout);
            && (r.seqs.Some? <==> e.SeqIs? || a.seqs.Some?)
            && (r.seqs.Some? ==> r.seqs.value.latest == if e.SeqIs? then e.v else a.seqs.value.latest)
            && (r.pulse.Some? <==> e.BeatIs? || a.pulse.Some?)
            && (r.pulse.Some? ==> r.pulse.value.value == if e.BeatIs? then e.v else a.pulse.value.value)
            && (a.engaged ==> a.pulse.Some? && a.pulse.value.live) ==>
                 (r.engaged ==> r.pulse.Some? && r.pulse.value.live)
  {
  }

  /** Each engage used up a seq change of its own. */
  lemma {:induction false} EngagesUseSeqChanges(events: seq<Event>, timeout: int)
    ensures Engages(events, timeout) + (if After(events, timeout).Pending() then 1 else 0) <= SeqChanges(events)
  {
    if events != [] {
      MachineReadsStream(Front(events), timeout);
      EngagesUseSeqChanges(Front(events), timeout);
    }
  }

  /** Never more engages than seq changes; in particular a retained seq alone never engages. */
  lemma EngagesAtMostSeqChanges(events: seq<Event>, timeout: int)
    ensures Engages(events, timeout) <= SeqChanges(events)
  {
    EngagesUseSeqChanges(events, timeout);
  }

  /** Liveness always rests on the latest heartbeat change of the stream so far, at the recorded time. */
  lemma {:induction false} LiveNeedsChange(events: seq<Event>, n: nat, timeout: int) returns (j: nat)
    requires n <= |events|
    requires var a := After(events[..n], timeout); a.pulse.Some? && a.pulse.value.live
    ensures j < n && BeatChange(events, j) && events[j].now == After(events[..n], timeout).pulse.value.changedAt
    ensures forall k :: j < k < n ==> !BeatChange(events, k)
  {
    if n == 0 {
      assert false;
    }
    var front := events[..n - 1];
    assert Front(events[..n]) == front && Final(events[..n]) == events[n - 1];
    MachineReadsStream(front, timeout);
    j := n - 1;
    if !BeatChange(events, n - 1) {
      j := LiveNeedsChange(events, n - 1, timeout);
    }
  }

  /** Every engage acts on a seq other than the last one acted on, while armed for heat, within the timeout of
      a heartbeat change received before it. */
  lemma EngageNeedsFreshSeqAndBeat(events: seq<Event>, i: nat, timeout: int) returns (j: nat)
    requires i < |events| && Answer(events, i, timeout) == Engage
    ensures var a := After(events[..i], timeout); a.Pending() && a.armed && a.heat
    ensures j < i && BeatChange(events, j) && events[i].now - events[j].now < timeout
  {
    j := LiveNeedsChange(events, i, timeout);
  }

  // --- After the link was lost ----------------------------------------------------------------

  function TimeOf(e: Event): Option<int> {
    match e
    case BeatIs(_, now) => Some(now)
    case Evaluated(now) => Some(now)
    case _ => None
  }

  ghost predicate Ordered(events: seq<Event>) {
    forall i, j :: 0 <= i < j < |events| && TimeOf(events[i]).Some? && TimeOf(events[j]).Some?
                   ==> TimeOf(events[i]).value <= TimeOf(events[j]).value
  }

  /** An engage after a comms loss needs a heartbeat change received after the loss. */
  lemma RearmNeedsNewBeat(events: seq<Event>, i: nat, k: nat, timeout: int) returns (j: nat)
    requires i < k < |events| && Ordered(events)
    requires Answer(events, i, timeout) == CommsLost && Answer(events, k, timeout) == Engage
    ensures i < j < k && BeatChange(events, j)
  {
    MachineReadsStream(events[..i], timeout);
    var before := LiveNeedsChange(events, i, timeout);
    j := LiveNeedsChange(events, k, timeout);
    assert TimeOf(events[i]).value <= TimeOf(events[k]).value;
  }

  /** The loss itself does not use up a pending seq. So a fresh heartbeat alone re-arms, with no new seq,
      exactly when an unacted seq was pending at the loss and the fields still ask for heat. */
  lemma RecoveryAloneRearms(a: Arm, lostAt: int, beat: int, now: int, timeout: int)
    requires Eval(a, lostAt, timeout).1 == CommsLost && timeout > 0
    requires a.pulse.Some? && beat != a.pulse.value.value
    ensures var b := OnBeat(Eval(a, lostAt, timeout).0, beat, now);
            Eval(b, now, timeout).1 == Engage <==> a.Pending() && a.armed && a.heat
  {
  }

  /** Without a pending seq at the loss, only a seq message after it can engage again. */
  lemma {:induction false} RearmNeedsSeqMessage(events: seq<Event>, i: nat, k: nat, timeout: int)
    requires i < k < |events|
    requires Answer(events, i, timeout) == CommsLost && !After(events[..i], timeout).Pending()
    requires forall j :: i < j < k ==> !events[j].SeqIs?
    ensures !After(events[..k], timeout).Pending() && Answer(events, k, timeout) != Engage
  {
    assert Front(events[..k]) == events[..k - 1] && Final(events[..k]) == events[k - 1];
    var before := After(events[..k - 1], timeout);
    assert After(events[..k], timeout) == Next(before, events[k - 1], timeout);
    if k > i + 1 {
      RearmNeedsSeqMessage(events, i, k - 1, timeout);
    }
    hide After;
  }

  // --- When the machine must let go, and what it answers ----------------------------------------------

  /** The fields as the stream gave them last. */
  function LastArmed(events: seq<Event>): bool {
    if events == [] then false
    else if Final(events).ArmedIs? then Final(events).armed
    else LastArmed(Front(events))
  }

  function LastHeat(events: seq<Event>): bool {
    if events == [] then false
    else if Final(events).HeatIs? then Final(events).heat
    else LastHeat(Front(events))
  }

  function LastTarget(events: seq<Event>): Wire {
    if events == [] then Real(0.0)
    else if Final(events).TargetIs? then Final(events).t
    else LastTarget(Front(events))
  }

  /** The fan percentage last given, cut to 0 .. 100, and the purge nonce last given. */
  function LastFan(events: seq<Event>): int {
    if events == [] then 0
    else if Final(events).FanIs?
    then (var n := Final(events).percent; if n < 0 then 0 else if n > 100 then 100 else n)
    else LastFan(Front(events))
  }

  function LastPurge(events: seq<Event>): Option<int> {
    if events == [] then None
    else if Final(events).PurgeIs? then Some(Final(events).v)
    else LastPurge(Front(events))
  }

  ghost predicate AsksForHeat(events: seq<Event>) {
    LastArmed(events) && LastHeat(events)
  }

  /** The latest heartbeat change is younger than the timeout. */
  ghost predicate LiveAt(events: seq<Event>, now: int, timeout: int) {
    exists j :: 0 <= j < |events| && BeatChange(events, j) && now - events[j].now < timeout
                && forall k :: j < k < |events| ==> !BeatChange(events, k)
  }

  /** The seq an evaluation last acted on: the first one seen, and from then on the one that was latest whenever an
      evaluation did not let go. */
  ghost function ActedSeq(events: seq<Event>, timeout: int): Option<int>
    decreases |events|, 0
  {
    if events == [] then None
    else
      var front, e := Front(events), Final(events);
      if e.SeqIs? && LastSeq(front).None? then Some(e.v)
      else if e.Evaluated? && !LetsGo(front, e.now, timeout) then LastSeq(front)
      else ActedSeq(front, timeout)
  }

  /** A seq arrived that no evaluation acted on. */
  ghost predicate Unacted(events: seq<Event>, timeout: int)
    decreases |events|, 1
  {
    LastSeq(events) != ActedSeq(events, timeout)
  }

  /** The machine is driving: the last evaluation left it so, and nothing forced it off since. */
  ghost predicate Driving(events: seq<Event>, timeout: int)
    decreases |events|, 2
  {
    events != [] && var front, e := Front(events), Final(events);
    if e.Disarm? then false
    else if e.Evaluated? then
      && AsksForHeat(front) && LiveAt(front, e.now, timeout)
      && (Driving(front, timeout) || Unacted(front, timeout))
    else Driving(front, timeout)
  }

  /** A driving machine must let go: no heartbeat change lately, or the stream no longer asks for heat. */
  ghost predicate LetsGo(events: seq<Event>, now: int, timeout: int)
    decreases |events|, 3
  {
    Driving(events, timeout) && !(LiveAt(events, now, timeout) && AsksForHeat(events))
  }

  ghost predicate Reads(a: Arm, events: seq<Event>, timeout: int) {
    && a.armed == LastArmed(events) && a.heat == LastHeat(events) && a.target == LastTarget(events)
    && a.fan == LastFan(events) && a.purge == LastPurge(events)
    && a.engaged == Driving(events, timeout)
    && (a.seqs.Some? <==> LastSeq(events).Some?)
    && (a.seqs.Some? ==>
          LastSeq(events) == Some(a.seqs.value.latest) && ActedSeq(events, timeout) == Some(a.seqs.value.acted))
    && (a.seqs.None? ==> ActedSeq(events, timeout).None?)
    && forall now :: a.Live(now, timeout) <==> LiveAt(events, now, timeout)
  }

  lemma MachineIsLive(events: seq<Event>, now: int, timeout: int)
    ensures After(events, timeout).Live(now, timeout) <==> LiveAt(events, now, timeout)
  {
    var a := After(events, timeout);
    assert events[..|events|] == events;
    if a.pulse.Some? && a.pulse.value.live {
      var j := LiveNeedsChange(events, |events|, timeout);
      assert LiveAt(events, now, timeout) <==> now - events[j].now < timeout;
    } else if LiveAt(events, now, timeout) {
      var j :| 0 <= j < |events| && BeatChange(events, j);
      ChangeBringsLife(events, j, |events|, timeout);
    }
  }

  lemma {:induction false} ChangeBringsLife(events: seq<Event>, j: nat, n: nat, timeout: int)
    requires j < n <= |events| && BeatChange(events, j)
    ensures var a := After(events[..n], timeout); a.pulse.Some? && a.pulse.value.live
  {
    var front := events[..n - 1];
    assert Front(events[..n]) == front && Final(events[..n]) == events[n - 1];
    if n > j + 1 {
      ChangeBringsLife(events, j, n - 1, timeout);
    } else {
      MachineReadsStream(front, timeout);
    }
  }

  /** The whole machine, told from the stream alone: its fields are the last ones given, it is engaged exactly when the
      stream says it drives, and its liveness is that of the latest heartbeat change. */
  lemma {:induction false} MachineIsReading(events: seq<Event>, timeout: int)
    ensures Reads(After(events, timeout), events, timeout)
  {
    forall now
      ensures After(events, timeout).Live(now, timeout) <==> LiveAt(events, now, timeout)
    {
      MachineIsLive(events, now, timeout);
    }
    MachineReadsStream(events, timeout);
    if events != [] {
      MachineIsReading(Front(events), timeout);
      NextFields(After(Front(events), timeout), events, timeout);
      NextReads(After(Front(events), timeout), events, timeout);
    }
    hide Next, LiveAt, LastSeq, ActedSeq, Driving, LastArmed, LastHeat, LastTarget, LastFan, LastPurge;
  }

  lemma NextFields(a: Arm, events: seq<Event>, timeout: int)
    requires events != [] && Reads(a, Front(events), timeout)
    ensures var r := Next(a, Final(events), timeout);
            && r.armed == LastArmed(events) && r.heat == LastHeat(events) && r.target == LastTarget(events)
            && r.fan == LastFan(events) && r.purge == LastPurge(events)
  {
    hide LiveAt, ActedSeq, Driving, LastSeq;
    if Final(events).Evaluated? {
      EvalKeepsFields(a, Final(events).now, timeout);
    }
    hide Eval;
  }

  lemma EvalKeepsFields(a: Arm, now: int, timeout: int)
    ensures var r := Eval(a, now, timeout).0; r == a.(engaged := r.engaged, seqs := r.seqs)
  {
  }

  lemma NextReads(a: Arm, events: seq<Event>, timeout: int)
    requires events != [] && Reads(a, Front(events), timeout)
    ensures var r := Next(a, Final(events), timeout);
            && r.engaged == Driving(events, timeout)
            && (r.seqs.Some? ==> ActedSeq(events, timeout) == Some(r.seqs.value.acted))
            && (r.seqs.None? ==> ActedSeq(events, timeout).None?)
  {
    hide LiveAt, LastArmed, LastHeat, LastTarget, LastFan, LastPurge;
  }

  /** What an evaluation answers to any stream, exactly. It reports the link lost when it was driving and no heartbeat
      change is young enough; it disengages when it was driving, alive, and the stream no longer asks for heat; it
      engages, at the stream's last target, when heat is asked for over a live link on an unacted seq; and afterwards
      it drives only while heat is asked for over a live link. */
  lemma EvaluationAnswers(events: seq<Event>, now: int, timeout: int)
    ensures var (r, action) := Eval(After(events, timeout), now, timeout);
            var driving, live, asks := Driving(events, timeout), LiveAt(events, now, timeout), AsksForHeat(events);
            && (action == CommsLost <==> driving && !live)
            && (action == Disengage <==> driving && live && !asks)
            && (action == Engage <==> live && asks && Unacted(events, timeout))
            && (r.engaged <==> live && asks && (driving || Unacted(events, timeout)))
            && r.target == LastTarget(events)
  {
    MachineIsReading(events, timeout);
    hide LiveAt, LastSeq, ActedSeq, Driving, LastArmed, LastHeat, LastFan, LastPurge, After;
  }

  /** A purge is asked for exactly when a nonce differs from the one before it; the first one is the baseline. */
  lemma PurgeFiresOnChange(events: seq<Event>, v: int, timeout: int)
    ensures OnPurge(After(events, timeout), v).1 <==> LastPurge(events).Some? && LastPurge(events).value != v
  {
    MachineIsReading(events, timeout);
    hide After;
  }
}
