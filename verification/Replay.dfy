/** The command endpoint of pb_httpd.c: its two-entry replay cache on top of the policy's revision gate. */
module Replay {
  import opened Values
  import opened HeaterSpec
  import opened PolicySpec
  import opened System
  import opened Authority
  import opened Revision
  import opened Commands

  // --- The cache ----------------------------------------------------------------------------------

  /** A remembered success. The reply text is abstract; `epoch` is history that no decision reads. */
  datatype Entry = Entry(actor: string, id: string, revision: int, reply: int, epoch: nat)
  {
    predicate Answers(a: string, i: string) { id != [] && actor == a && id == i }
  }

  /** A zeroed slot holds the empty request id, which no request can carry. */
  const EMPTY := Entry([], [], 0, 0, 0)

  datatype Cache = Cache(slots: seq<Entry>, next: nat)
  {
    ghost predicate Sound() { |slots| == 2 && next < UINT32 }
  }

  const COLD := Cache([EMPTY, EMPTY], 0)

  function FindIn(c: Cache, actor: string, id: string): Option<Entry>
    requires c.Sound()
  {
    if c.slots[0].Answers(actor, id) then Some(c.slots[0])
    else if c.slots[1].Answers(actor, id) then Some(c.slots[1])
    else None
  }

  function StoreIn(c: Cache, e: Entry): Cache
    requires c.Sound()
  {
    Cache(c.slots[c.next % 2 := e], (c.next + 1) % UINT32)
  }

  /** The firmware's static array, overwritten in place. */
  class ReplayCache {
    const slots: array<Entry>
    var next: nat

    ghost predicate Valid()
      reads this
    {
      slots.Length == 2 && next < UINT32
    }

    ghost function State(): Cache
      reads this, slots
    {
      Cache(slots[..], next)
    }

    constructor ()
      ensures Valid() && fresh(slots) && State() == COLD
    {
      slots := new Entry[2](_ => EMPTY);
      next := 0;
    }

    method Find(actor: string, id: string) returns (r: Option<Entry>)
      requires Valid()
      ensures r == FindIn(State(), actor, id)
    {
      for i := 0 to slots.Length
        invariant forall k :: 0 <= k < i ==> !slots[k].Answers(actor, id)
      {
        if slots[i].Answers(actor, id) {
          return Some(slots[i]);
        }
      }
      r := None;
    }

    method Store(e: Entry)
      requires Valid()
      modifies this`next, slots
      ensures Valid() && State() == StoreIn(old(State()), e)
    {
      slots[next % slots.Length] := e;
      next := (next + 1) % UINT32;
    }
  }

  function CacheAfter(stored: seq<Entry>): (c: Cache)
    ensures c.Sound()
  {
    if stored == [] then COLD else StoreIn(CacheAfter(stored[..|stored| - 1]), stored[|stored| - 1])
  }

  /** The k-th most recent store, or a slot never written. */
  function Latest(stored: seq<Entry>, k: nat): Entry {
    if k < |stored| then stored[|stored| - 1 - k] else EMPTY
  }

  /** The cache always holds the last two stores, however often the index wrapped; so a lookup hits exactly when
      one of them answers. */
  lemma {:induction false} CacheIsLastTwo(stored: seq<Entry>, actor: string, id: string)
    ensures var c := CacheAfter(stored);
            && c.next % 2 == |stored| % 2
            && c.slots[c.next % 2] == Latest(stored, 1) && c.slots[(c.next + 1) % 2] == Latest(stored, 0)
            && (FindIn(c, actor, id).Some? <==>
                  Latest(stored, 0).Answers(actor, id) || Latest(stored, 1).Answers(actor, id))
  {
    if stored != [] {
      var before := stored[..|stored| - 1];
      CacheIsLastTwo(before, actor, id);
      assert Latest(stored, 0) == stored[|stored| - 1] && Latest(stored, 1) == Latest(before, 0);
    }
    hide Latest, FindIn;
    FindIsEither(CacheAfter(stored), actor, id);
  }

  lemma FindIsEither(c: Cache, actor: string, id: string)
    requires c.Sound()
    ensures FindIn(c, actor, id).Some? <==> c.slots[0].Answers(actor, id) || c.slots[1].Answers(actor, id)
  {
  }

  // --- Requests ---------------------------------------------------------------------------------------

  /** The command of a request; a number that is missing or not finite is None. */
  datatype Order =
    | OffOrder
    | Filter(percent: Option<real>)
    | PowerOnOrder(target: Option<real>)
    | AutoOrder(target: Option<real>, bed: Option<real>)
    | DryingStart(target: Option<real>, hours: Option<real>)
    | DryingStop
    | ClearFault
    | Unknown

  datatype Request = Request(actor: string, id: string, src: Source, order: Order, expected: Option<real>)

  /** Past the checks that answer without looking at the command. */
  predicate WellFormed(q: Request) {
    q.id != [] && q.actor != [] && Remote(q.src)
  }

  predicate Cacheable(o: Order) {
    !o.OffOrder? && !o.DryingStop? && !o.Filter?
  }

  predicate IsWhole(x: real) {
    x.Floor as real == x
  }

  /** The revision the request names, if it names a valid one; the last revision is not one. */
  function RevisionOf(q: Request): Option<int> {
    if q.expected.Some? && 0.0 <= q.expected.value < REVISION_ANY as real && IsWhole(q.expected.value)
    then Some(q.expected.value.Floor) else None
  }

  const FLOAT_MAX := 340282346638528859811704183484516925440.0

  function AsFloat(x: real): Float {
    if -FLOAT_MAX <= x <= FLOAT_MAX then Finite(x) else NonFinite
  }

  function Percent(x: real): nat {
    (Clamp(x, 0.0, 100.0) + 0.5).Floor
  }

  /** The policy call the request makes; None is a plain "invalid command". */
  function CallOf(q: Request, now: int, storeOk: bool): Option<Step> {
    var r := RevisionOf(q);
    match q.order
    case OffOrder => Some(OffCmd(q.src))
    case Filter(Some(p)) => Some(FanCmd(Percent(p), q.src))
    case PowerOnOrder(Some(t)) => if r.None? then None else Some(PowerOnCmd(now, AsFloat(t), q.src, r.value))
    case AutoOrder(Some(t), Some(b)) =>
      if r.None? then None else Some(AutoCmd(now, AsFloat(t), AsFloat(b), q.src, r.value))
    case DryingStart(Some(t), Some(h)) =>
      if r.None? || h < 1.0 || h > 12.0 || !IsWhole(h) then None
      else Some(DryCmd(now, AsFloat(t), h.Floor, q.src, r.value))
    case DryingStop => if r.None? then None else Some(OffCmd(q.src))
    case ClearFault => if r.None? then None else Some(ClearCmd(q.src, r.value, storeOk))
    case _ => None
  }

  // --- The handler, interleaved with the rest of the device ------------------------------------------

  /** Where the server task is inside command_post. */
  datatype At =
    | Idle
    | Hit(q: Request, e: Entry)    // the cache knows the request
    | Calling(q: Request)          // it does not, or is not asked
    | Replying(q: Request)         // the policy accepted

  datatype World = World(dev: Device, cache: Cache, at: At)

  datatype Act =
    | Receive(q: Request)
    | Answer                           // a hit is answered: the stored reply or a conflict
    | Call(now: int, storeOk: bool)
    | Finish(reply: int, built: bool)  // the reply is built from a new snapshot, and remembered
    | Other(s: Step)                   // any other step of the device, the rest of a clear included

  function StepOf(w: World, a: Act): Option<Step> {
    match a
    case Call(now, storeOk) => if w.at.Calling? then CallOf(w.at.q, now, storeOk) else None
    case Other(s) => Some(s)
    case _ => None
  }

  predicate Can(w: World, a: Act) {
    && (StepOf(w, a).Some? ==> Enabled(w.dev, StepOf(w, a).value))
    && match a
       case Receive(q) => w.at.Idle? && WellFormed(q)
       case Answer => w.at.Hit? && w.dev.clearing.None?
       case Call(_, _) => w.at.Calling?
       case Finish(_, _) => w.at.Replying? && w.dev.clearing.None?
       case Other(_) => true
  }

  function EntryFor(w: World, reply: int): Entry
    requires w.at.Replying?
  {
    var s := w.dev.core.p.stamp;
    Entry(w.at.q.actor, w.at.q.id, s.revision, reply, s.epoch)
  }

  function Do(w: World, a: Act): World
    requires w.cache.Sound() && Can(w, a)
  {
    match a
    case Receive(q) =>
      var hit := if Cacheable(q.order) then FindIn(w.cache, q.actor, q.id) else None;
      w.(at := if hit.Some? then Hit(q, hit.value) else Calling(q))
    case Answer => w.(at := Idle)
    case Call(_, _) =>
      var call := StepOf(w, a);
      if call.None? then w.(at := Idle)
      else w.(dev := Apply(w.dev, call.value),
              at := if Section(w.dev, call.value).1 == Accepted then Replying(w.at.q) else Idle)
    case Finish(reply, built) =>
      w.(cache := if built && Cacheable(w.at.q.order) then StoreIn(w.cache, EntryFor(w, reply)) else w.cache,
         at := Idle)
    case Other(s) =>
      World(Apply(w.dev, s), if s.Reboot? then COLD else w.cache, if s.Reboot? then Idle else w.at)
  }

  /** The answer to a hit is the stored reply exactly when its revision is still current. */
  predicate Replays(w: World) {
    w.at.Hit? && w.at.e.revision == w.dev.core.p.stamp.revision
  }

  // --- Invariant of every interleaving --------------------------------------------------------------

  ghost predicate Dated(e: Entry, epoch: nat) {
    e.id != [] ==> e.revision == RevisionAt(e.epoch) && e.epoch <= epoch
  }

  /** The accepted request moved the revision past every stored entry, or its clear still will. */
  ghost predicate Ahead(w: World) {
    forall e <- w.cache.slots :: e.id != [] ==>
      e.epoch < w.dev.core.p.stamp.epoch || (w.dev.clearing.Some? && e.epoch == w.dev.core.p.stamp.epoch)
  }

  ghost predicate Missed(w: World, q: Request)
    requires w.cache.Sound()
  {
    WellFormed(q) && (Cacheable(q.order) ==> FindIn(w.cache, q.actor, q.id).None?)
  }

  ghost predicate WInv(w: World) {
    && Inv(w.dev) && w.cache.Sound()
    && (forall e <- w.cache.slots :: Dated(e, w.dev.core.p.stamp.epoch))
    && (w.cache.slots[0].id != [] ==> !w.cache.slots[1].Answers(w.cache.slots[0].actor, w.cache.slots[0].id))
    && match w.at
       case Idle => true
       case Hit(q, e) => e in w.cache.slots && e.Answers(q.actor, q.id) && Cacheable(q.order)
       case Calling(q) => Missed(w, q)
       case Replying(q) => Missed(w, q) && (Cacheable(q.order) ==> Ahead(w))
  }

  /** Every boot starts the interleaving inside its invariant, with a cold cache. */
  lemma BootKeepsInv(store: FaultStore, issued: nat, b: BootInput)
    requires b.now >= 0
    ensures WInv(World(BootDevice(store, issued, b), COLD, Idle))
  {
    hide Inv, BootDevice;
    System.BootKeepsInv(store, issued, b);
  }

  /** What a step other than a boot does to the revision of the device. */
  ghost predicate Moves(w: World, d: Device) {
    && d.core.p.stamp.epoch >= w.dev.core.p.stamp.epoch
    && (w.dev.clearing.Some? ==> d.clearing.Some? || d.core.p.stamp.epoch > w.dev.core.p.stamp.epoch)
  }

  lemma CacheableIsGated(w: World, q: Request, now: int, storeOk: bool)
    requires Cacheable(q.order) && CallOf(q, now, storeOk).Some?
    ensures var s := CallOf(q, now, storeOk).value;
            && Gated(w.dev, s) && RevisionOf(q) == Some(Expected(w.dev, s))
            && (HeatCommand(s) || s.ClearCmd?) && !s.DelayedStart?
  {
  }

  lemma StepMoves(w: World, s: Step)
    requires Inv(w.dev) && Enabled(w.dev, s) && !s.Reboot?
    ensures Inv(Apply(w.dev, s)) && Moves(w, Apply(w.dev, s))
  {
    hide Inv, Section, Apply;
    StepKeepsInv(w.dev, s);
    StepAdvances(w.dev, s);
  }

  lemma CallGoesAhead(w: World, a: Act)
    requires WInv(w) && a.Call? && Can(w, a) && Cacheable(w.at.q.order) && StepOf(w, a).Some?
    requires Section(w.dev, StepOf(w, a).value).1 == Accepted
    ensures Ahead(Do(w, a))
  {
    hide Inv, Section, Apply, Enabled, CallOf;
    CacheableIsGated(w, w.at.q, a.now, a.storeOk);
    StepAdvances(w.dev, StepOf(w, a).value);
  }

  lemma ActKeepsInv(w: World, a: Act)
    requires WInv(w) && Can(w, a)
    ensures WInv(Do(w, a))
  {
    hide Inv, Section, Apply, Enabled, CallOf;
    match a
    case Other(s) =>
      if s.Reboot? {
        StepKeepsInv(w.dev, s);
      } else {
        StepMoves(w, s);
      }
    case Call(now, storeOk) =>
      if StepOf(w, a).Some? {
        assert !StepOf(w, a).value.Reboot? by {
          CallIsNoBoot(w.at.q, now, storeOk);
        }
        StepMoves(w, StepOf(w, a).value);
        if Cacheable(w.at.q.order) && Section(w.dev, StepOf(w, a).value).1 == Accepted {
          CallGoesAhead(w, a);
        }
      }
    case Finish(_, _) =>
      assert w.dev.core.p.stamp.revision == RevisionAt(w.dev.core.p.stamp.epoch) by {
        RevisionOfDevice(w.dev);
      }
    case _ =>
  }

  lemma CallIsNoBoot(q: Request, now: int, storeOk: bool)
    requires CallOf(q, now, storeOk).Some?
    ensures !CallOf(q, now, storeOk).value.Reboot?
  {
  }

  lemma RevisionOfDevice(d: Device)
    requires Inv(d)
    ensures d.core.p.stamp.revision == RevisionAt(d.core.p.stamp.epoch)
  {
  }

  // --- Runs ---------------------------------------------------------------------------------------------

  /** A run of the interleaving from any state the invariant allows. */
  ghost predicate Trail(ws: seq<World>, acts: seq<Act>) {
    && |ws| == |acts| + 1 && WInv(ws[0])
    && forall i :: 0 <= i < |acts| ==> ws[i].cache.Sound() && Can(ws[i], acts[i]) && ws[i + 1] == Do(ws[i], acts[i])
  }

  lemma {:induction false} TrailKeepsInv(ws: seq<World>, acts: seq<Act>, n: nat)
    requires Trail(ws, acts) && n <= |acts|
    ensures WInv(ws[n])
  {
    hide WInv, Can, Do;
    if n > 0 {
      TrailKeepsInv(ws, acts, n - 1);
      ActKeepsInv(ws[n - 1], acts[n - 1]);
    }
  }

  ghost predicate NoBoot(acts: seq<Act>, i: nat, k: nat)
    requires i <= k <= |acts|
  {
    forall m :: i <= m < k && acts[m].Other? ==> !acts[m].s.Reboot?
  }

  function EpochOf(w: World): nat {
    w.dev.core.p.stamp.epoch
  }

  lemma ActMoves(w: World, a: Act)
    requires WInv(w) && Can(w, a) && !(a.Other? && a.s.Reboot?)
    ensures Moves(w, Do(w, a).dev)
  {
    hide Inv, Section, Apply, Enabled, CallOf;
    if StepOf(w, a).Some? {
      if a.Call? {
        CallIsNoBoot(w.at.q, a.now, a.storeOk);
      }
      StepMoves(w, StepOf(w, a).value);
    }
  }

  // --- At most once ---------------------------------------------------------------------------------------

  /** A command gated on the revision: a call of the handler, or one of any other task. */
  ghost predicate GatedOn(w: World, a: Act, revision: int) {
    StepOf(w, a).Some? && Gated(w.dev, StepOf(w, a).value) && Expected(w.dev, StepOf(w, a).value) == revision
  }

  ghost predicate AcceptsGated(w: World, a: Act, revision: int) {
    GatedOn(w, a, revision) && Section(w.dev, StepOf(w, a).value).1 == Accepted
  }

  lemma {:induction false} PastCall(ws: seq<World>, acts: seq<Act>, i: nat, k: nat, revision: int)
    requires Trail(ws, acts) && i < k <= |acts| && NoBoot(acts, i, k) && AcceptsGated(ws[i], acts[i], revision)
    ensures EpochOf(ws[k]) > EpochOf(ws[i]) || (EpochOf(ws[k]) == EpochOf(ws[i]) && ws[k].dev.clearing.Some?)
  {
    hide Inv, Section, Apply, Enabled, CallOf;
    TrailKeepsInv(ws, acts, k - 1);
    if k == i + 1 {
      StepAdvances(ws[i].dev, StepOf(ws[i], acts[i]).value);
    } else {
      PastCall(ws, acts, i, k - 1, revision);
      ActMoves(ws[k - 1], acts[k - 1]);
    }
  }

  /** Once a heat or clear command was accepted, from HTTP or anywhere else, no later command that names the same
      revision (a retransmission in particular) changes anything for the rest of the cycle, whether or not the
      cache still knows it. */
  lemma RetransmissionChangesNothing(ws: seq<World>, acts: seq<Act>, i: nat, k: nat, revision: int)
    requires Trail(ws, acts) && i < k < |acts| && NoBoot(acts, i, k) && AcceptsGated(ws[i], acts[i], revision)
    requires revision != REVISION_ANY && EpochOf(ws[k]) < EpochOf(ws[i]) + CYCLE
    requires GatedOn(ws[k], acts[k], revision)
    ensures Section(ws[k].dev, StepOf(ws[k], acts[k]).value).1 != Accepted
    ensures ws[k + 1].dev.core == ws[k].dev.core && (acts[k].Call? ==> ws[k + 1].at == Idle)
  {
    TrailKeepsInv(ws, acts, i);
    TrailKeepsInv(ws, acts, k);
    PastCall(ws, acts, i, k, revision);
    var s := StepOf(ws[k], acts[k]).value;
    hide WInv, Section, Apply, CallOf, Do;
    GateNamesRevision(ws[i], acts[i], revision);
    if Section(ws[k].dev, s).1 == Accepted {
      GateNamesRevision(ws[k], acts[k], revision);
      SameRevisionSpansCycle(EpochOf(ws[i]), EpochOf(ws[k]));
    }
    RefusedChangesNothing(ws[k], acts[k]);
  }

  lemma GateNamesRevision(w: World, a: Act, revision: int)
    requires WInv(w) && Can(w, a) && AcceptsGated(w, a, revision) && revision != REVISION_ANY
    ensures RevisionAt(EpochOf(w)) == revision && w.dev.clearing.None?
  {
    hide Section, Apply, CallOf;
    StepAdvances(w.dev, StepOf(w, a).value);
  }

  lemma RefusedChangesNothing(w: World, a: Act)
    requires WInv(w) && Can(w, a) && StepOf(w, a).Some? && Gated(w.dev, StepOf(w, a).value)
    requires Section(w.dev, StepOf(w, a).value).1 != Accepted
    ensures Do(w, a).dev.core == w.dev.core && (a.Call? ==> Do(w, a).at == Idle)
  {
    hide TickLocked, SetTarget, NotifyLink, BootCore, WInv;
  }

  // --- What a hit means -----------------------------------------------------------------------------------

  /** Within one cycle the stored reply is repeated exactly when nothing moved the revision since it was built. */
  lemma ReplayMeansUnchanged(w: World)
    requires WInv(w) && w.at.Hit? && EpochOf(w) < w.at.e.epoch + CYCLE
    ensures Replays(w) <==> EpochOf(w) == w.at.e.epoch
  {
    RevisionOfDevice(w.dev);
    if EpochOf(w) != w.at.e.epoch && Replays(w) {
      SameRevisionSpansCycle(w.at.e.epoch, EpochOf(w));
    }
  }

  /** An entry that stays in the cache as long as its revision is current. */
  lemma {:induction false} CurrentEntryIsKept(ws: seq<World>, acts: seq<Act>, n: nat, k: nat, e: Entry)
    requires Trail(ws, acts) && n <= k <= |acts| && NoBoot(acts, n, k)
    requires e in ws[n].cache.slots && e.id != [] && EpochOf(ws[k]) == e.epoch
    ensures e in ws[k].cache.slots && EpochOf(ws[n]) == e.epoch
  {
    hide Inv, Apply, Section, Enabled, CallOf;
    TrailKeepsInv(ws, acts, n);
    if n < k {
      TrailKeepsInv(ws, acts, k - 1);
      ActMoves(ws[k - 1], acts[k - 1]);
      EarlierEpoch(ws, acts, n, k - 1);
      CurrentEntryIsKept(ws, acts, n, k - 1, e);
    }
  }

  lemma {:induction false} EarlierEpoch(ws: seq<World>, acts: seq<Act>, n: nat, k: nat)
    requires Trail(ws, acts) && n <= k <= |acts| && NoBoot(acts, n, k)
    ensures EpochOf(ws[n]) <= EpochOf(ws[k])
  {
    hide WInv, Can, Do;
    if n < k {
      EarlierEpoch(ws, acts, n, k - 1);
      TrailKeepsInv(ws, acts, k - 1);
      ActMoves(ws[k - 1], acts[k - 1]);
    }
  }

  /** A request repeated while its resulting revision is still current gets the original reply, although the
      cache has only two entries: whatever evicts one has moved the revision. */
  lemma RepeatGetsOriginalReply(ws: seq<World>, acts: seq<Act>, n: nat, k: nat, q: Request, a: Act)
    requires Trail(ws, acts) && n < k < |acts| && NoBoot(acts, n, k)
    requires ws[n].at.Replying? && acts[n].Finish? && acts[n].built && Cacheable(ws[n].at.q.order)
    requires acts[k] == Receive(q) && Cacheable(q.order)
    requires q.actor == ws[n].at.q.actor && q.id == ws[n].at.q.id && EpochOf(ws[k]) == EpochOf(ws[n])
    ensures ws[k + 1].at.Hit? && ws[k + 1].at.e.reply == acts[n].reply && Replays(ws[k + 1])
  {
    var e := EntryFor(ws[n], acts[n].reply);
    TrailKeepsInv(ws, acts, n);
    assert ws[n + 1].cache == StoreIn(ws[n].cache, e);
    assert ws[n + 1].cache.slots[ws[n].cache.next % 2] == e;
    CurrentEntryIsKept(ws, acts, n + 1, k, e);
    TrailKeepsInv(ws, acts, k);
    hide Inv, Apply, Section, Enabled, CallOf;
  }

  /** A remembered request was accepted by the policy earlier, since the last boot or the start of the trail. */
  lemma {:induction false} EntryWasAccepted(ws: seq<World>, acts: seq<Act>, n: nat, e: Entry) returns (j: nat)
    requires Trail(ws, acts) && ws[0].cache == COLD && ws[0].at.Idle? && n <= |acts|
    requires e.id != []
    requires e in ws[n].cache.slots || (ws[n].at.Replying? && ws[n].at.q.id == e.id && ws[n].at.q.actor == e.actor)
    ensures j < n && NoBoot(acts, j, n) && acts[j].Call? && ws[j].at.Calling?
    ensures ws[j].at.q.actor == e.actor && ws[j].at.q.id == e.id && StepOf(ws[j], acts[j]).Some?
    ensures Section(ws[j].dev, StepOf(ws[j], acts[j]).value).1 == Accepted
  {
    hide Inv, Apply, Section, Enabled, CallOf;
    TrailKeepsInv(ws, acts, if n == 0 then 0 else n - 1);
    if n == 0 {
      assert false;
    }
    j := n - 1;
    var w, a := ws[j], acts[j];
    if !(a.Call? && StepOf(w, a).Some? && Section(w.dev, StepOf(w, a).value).1 == Accepted
         && w.at.q.actor == e.actor && w.at.q.id == e.id && ws[n].at.Replying?) {
      j := EntryWasAccepted(ws, acts, n - 1, e);
    }
  }

  // --- The orders that are never refused, and the ones that are ----------------------------------------------

  /** An "off" runs whatever the cache holds and whatever revision it names. "drying_stop" runs only if it names a
      valid revision, though not necessarily the current one. */
  lemma StopOrders(w: World, q: Request, now: int)
    requires WInv(w) && w.at.Idle? && WellFormed(q) && (q.order.OffOrder? || q.order.DryingStop?)
    requires w.dev.clearing.None?
    ensures Can(w, Receive(q)) && Can(Do(w, Receive(q)), Call(now, true))
    ensures var c := Do(Do(w, Receive(q)), Call(now, true)).dev.core;
            if q.order.OffOrder? || RevisionOf(q).Some? then c.p.session.mode == PolicySpec.Off && c.h.target == 0.0
            else c == w.dev.core
  {
    hide TickLocked, NotifyLink;
  }

  /** No request can name the last revision of the cycle: while it is current, every heat or clear request that
      names any revision is refused. */
  lemma LastRevisionRefusesHeat(w: World, q: Request, now: int, ok: bool)
    requires w.dev.core.p.stamp.revision == REVISION_ANY && Cacheable(q.order) && CallOf(q, now, ok).Some?
    ensures Section(w.dev, CallOf(q, now, ok).value).1 != Accepted
  {
    hide EnterPowerOn, SetTarget;
  }

  // --- What every request comes to -------------------------------------------------------------------

  /** The request names the revision in force, which is not the last one of the cycle. */
  ghost predicate NamesInForce(q: Request, c: Core) {
    q.expected == Some(c.p.stamp.revision as real) && c.p.stamp.revision < 0xFFFF_FFFF
  }

  /** It names some whole revision before the last one. */
  ghost predicate NamesSome(q: Request) {
    q.expected.Some? && 0.0 <= q.expected.value < 4294967295.0 && q.expected.value.Floor as real == q.expected.value
  }

  /** A heat order goes through: right revision, a target from 30 C up to what a float holds, and no fault. */
  ghost predicate GoesThrough(q: Request, c: Core, target: Option<real>) {
    && NamesInForce(q, c) && target.Some? && 30.0 <= target.value <= FLOAT_MAX
    && !c.h.latch.latched && !c.h.latch.inhibited
  }

  ghost predicate Nothing(w: World, v: World) {
    v == World(w.dev.(clock := v.dev.clock), w.cache, Idle)
  }

  /** What the call of a request leaves of the policy and heater, order by order; everything that is malformed, late or
      refused changes nothing and is answered at once. */
  ghost predicate OrderLeft(w: World, v: World, now: int, storeOk: bool)
    requires w.at.Calling?
  {
    var q, c, r := w.at.q, w.dev.core, v.dev.core;
    match q.order
    case PowerOnOrder(t) =>
      if GoesThrough(q, c, t) then PowerOnLeft(c, r, now, t.value, q.src, 0) && v.at == Replying(q) else Nothing(w, v)
    case AutoOrder(t, bed) =>
      if GoesThrough(q, c, t) && bed.Some? && 40.0 <= bed.value <= 120.0
      then AutoLeft(c, r, t.value, bed.value, q.src) && v.at == Replying(q)
      else Nothing(w, v)
    case DryingStart(t, h) =>
      if GoesThrough(q, c, t) && h.Some? && 1.0 <= h.value <= 12.0 && h.value.Floor as real == h.value
      then DryLeft(c, r, now, t.value, h.value.Floor, q.src) && v.at == Replying(q)
      else Nothing(w, v)
    case ClearFault =>
      if NamesInForce(q, c) && !c.h.latch.inhibited && storeOk
      then && r == c.(h := c.h.(latch := c.h.latch.(store := FaultStore(Some(0), Some(0)))))
           && v.dev.clearing == Some(q.src) && v.at == Replying(q)
      else Nothing(w, v)
    case Filter(p) =>
      if p.None? || (Percent(p.value) > 0 && ((c.h.target > 0.0 && !c.h.latch.latched) || c.p.air.cooldown))
      then Nothing(w, v)
      else r == c.(p := c.p.(air := c.p.air.(requested := Percent(p.value)), stamp := r.p.stamp)) && v.at == Replying(q)
    case OffOrder => OffLeft(c, r, q.src) && v.at == Replying(q)
    case DryingStop =>
      if NamesSome(q) then OffLeft(c, r, q.src) && v.at == Replying(q)
      else Nothing(w, v)
    case Unknown => Nothing(w, v)
  }

  /** A request's percentage is cut to 0 .. 100 and rounded to the nearest whole one, half up. */
  lemma PercentRounds(x: real)
    ensures var p := Percent(x);
            && p <= 100 && (x <= 0.0 ==> p == 0) && (x >= 100.0 ==> p == 100)
            && (0.0 <= x <= 100.0 ==> p as real - 0.5 <= x < p as real + 0.5)
  {
  }

  lemma RevisionIsInForce(w: World, q: Request)
    requires WInv(w)
    ensures var c := w.dev.core;
            RevisionOf(q).Some? && (RevisionOf(q).value == 0xFFFF_FFFF || RevisionOf(q).value == c.p.stamp.revision)
            <==> NamesInForce(q, c)
    ensures RevisionOf(q).Some? <==> NamesSome(q)
  {
    RevisionOfDevice(w.dev);
    RevisionCycles(w.dev.core.p.stamp.epoch);
  }

  predicate HeatOrdered(o: Order) {
    o.PowerOnOrder? || o.AutoOrder? || o.DryingStart?
  }

  /** The command endpoint does what was ordered, exactly, and nothing else. */
  lemma OrderIsCarriedOut(w: World, now: int, storeOk: bool)
    requires WInv(w) && w.at.Calling? && Can(w, Call(now, storeOk))
    ensures OrderLeft(w, Do(w, Call(now, storeOk)), now, storeOk)
  {
    hide OrderLeft, WInv, Can, Do;
    if HeatOrdered(w.at.q.order) {
      HeatOrderIsCarriedOut(w, now, storeOk);
    } else {
      OtherOrderIsCarriedOut(w, now, storeOk);
    }
  }

  lemma HeatOrderIsCarriedOut(w: World, now: int, storeOk: bool)
    requires WInv(w) && w.at.Calling? && Can(w, Call(now, storeOk)) && HeatOrdered(w.at.q.order)
    ensures OrderLeft(w, Do(w, Call(now, storeOk)), now, storeOk)
  {
    hide Section, PowerOnLeft, AutoLeft, DryLeft, OffLeft, NamesInForce, NamesSome, RevisionOf, Inv, Ahead;
    RevisionIsInForce(w, w.at.q);
    if CallOf(w.at.q, now, storeOk).Some? {
      HeatOrder(w.dev, CallOf(w.at.q, now, storeOk).value);
    }
    hide Apply, Enabled;
  }

  lemma OtherOrderIsCarriedOut(w: World, now: int, storeOk: bool)
    requires WInv(w) && w.at.Calling? && Can(w, Call(now, storeOk)) && !HeatOrdered(w.at.q.order)
    ensures OrderLeft(w, Do(w, Call(now, storeOk)), now, storeOk)
  {
    hide Section, OffLeft, NamesInForce, NamesSome, RevisionOf, Inv, Ahead, Percent, Clamp;
    RevisionIsInForce(w, w.at.q);
    var call := CallOf(w.at.q, now, storeOk);
    if call.Some? {
      match call.value
      case FanCmd(percent, src) =>
        FanAnswers(w.dev, percent, src);
        PercentRounds(w.at.q.order.percent.value);
      case ClearCmd(src, expected, _) => ClearAnswers(w.dev, src, expected, storeOk);
      case OffCmd(_) => OffAndStopLeave(w.dev, call.value);
    }
  }

  lemma HeatOrder(d: Device, s: Step)
    requires Inv(d) && Enabled(d, s) && (s.PowerOnCmd? || s.AutoCmd? || s.DryCmd?)
    ensures AcceptedCommand(d, s) <==>
              && (s.expected == 0xFFFF_FFFF || s.expected == d.core.p.stamp.revision) && !Malformed(d, s)
              && s.target.Finite? && s.target.c >= 30.0 && !d.core.h.latch.inhibited && !d.core.h.latch.latched
    ensures !AcceptedCommand(d, s) ==> Apply(d, s) == d.(clock := Apply(d, s).clock)
    ensures var c, r := d.core, Apply(d, s).core;
            AcceptedCommand(d, s) ==>
              match s
              case PowerOnCmd(now, t, src, _) => Remote(src) ==> PowerOnLeft(c, r, now, t.c, src, 0)
              case AutoCmd(_, t, bed, src, _) => AutoLeft(c, r, t.c, bed.c, src)
              case DryCmd(now, t, hours, src, _) => DryLeft(c, r, now, t.c, hours, src)
              case _ => true
  {
    hide Section, PowerOnLeft, AutoLeft, DryLeft, Inv;
    AcceptedExactly(d, s);
    if AcceptedCommand(d, s) {
      AcceptedCommandLeaves(d, s);
    }
  }

  /** A request is taken up when it carries an id, an actor and one of the two kinds; it is answered from the cache
      exactly if it is cacheable and one of the two entries is its own. Taking it up changes nothing. */
  lemma RequestIsReceived(w: World, q: Request)
    requires WInv(w)
    ensures Can(w, Receive(q)) <==> w.at.Idle? && q.id != [] && q.actor != [] && (q.src == Web || q.src == Klipper)
    ensures Can(w, Receive(q)) ==>
              var v := Do(w, Receive(q));
              var kept := !(q.order.OffOrder? || q.order.DryingStop? || q.order.Filter?);
              && v == w.(at := v.at)
              && (v.at.Hit? <==>
                    kept && exists e <- w.cache.slots :: e.actor == q.actor && e.id == q.id)
              && (v.at.Hit? ==> v.at.q == q && v.at.e in w.cache.slots && v.at.e.actor == q.actor && v.at.e.id == q.id)
              && (!v.at.Hit? ==> v.at == Calling(q))
  {
    hide Inv, Ahead, Dated, Missed;
  }
}
