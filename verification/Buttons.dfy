/** Debounce and press classification of pb_buttons_sm.c, and the panel loop of pb_buttons.c. */
module Buttons {
  import opened Values

  const DEBOUNCE_TICKS := 2
  const TICK_MS := 10
  const LONG_PRESS_MS := 2000
  const RESET_TICKS := 500

  datatype Event = NoEvent | ShortPress | LongPress

  /** One button's struct. Levels are electrical; `activeLow` says which one means pressed. */
  datatype Button = Button(activeLow: bool, pressed: bool, hold: nat, longFired: bool, settle: nat, last: bool)

  predicate Down(b: Button, raw: bool) {
    raw != b.activeLow
  }

  function Seeded(activeLow: bool, raw: bool): Button {
    var down := raw != activeLow;
    Button(activeLow, down, 0, down, 0, raw)
  }

  function Step(b: Button, raw: bool): (Button, Event) {
    if raw != b.last then (b.(settle := DEBOUNCE_TICKS, last := raw), NoEvent)
    else if b.settle > 1 then (b.(settle := b.settle - 1), NoEvent)
    else
      var c := b.(settle := 0);
      if Down(b, raw) && !b.pressed then (c.(pressed := true, hold := 0, longFired := false), NoEvent)
      else if !Down(b, raw) && b.pressed then (c.(pressed := false), if b.longFired then NoEvent else ShortPress)
      else if Down(b, raw) then
        var long := !b.longFired && (b.hold + 1) * TICK_MS >= LONG_PRESS_MS;
        (c.(hold := b.hold + 1, longFired := b.longFired || long), if long then LongPress else NoEvent)
      else (c, NoEvent)
  }

  /** pb_buttons_sm_step on one slot of the button array. */
  method StepSlot(btns: array<Button>, i: nat, raw: bool) returns (ev: Event)
    requires i < btns.Length
    modifies btns
    ensures (btns[i], ev) == Step(old(btns[i]), raw)
    ensures forall k :: 0 <= k < btns.Length && k != i ==> btns[k] == old(btns[k])
  {
    var b := btns[i];
    if raw != b.last {
      btns[i] := b.(settle := DEBOUNCE_TICKS, last := raw);
      return NoEvent;
    }
    if b.settle > 0 {
      b := b.(settle := b.settle - 1);
      if b.settle > 0 {
        btns[i] := b;
        return NoEvent;
      }
    }
    ev := NoEvent;
    var down := if b.activeLow then !raw else raw;
    if down && !b.pressed {
      b := b.(pressed := true, hold := 0, longFired := false);
    } else if !down && b.pressed {
      b := b.(pressed := false);
      if !b.longFired {
        ev := ShortPress;
      }
    } else if down {
      b := b.(hold := b.hold + 1);
      if !b.longFired && b.hold * TICK_MS >= LONG_PRESS_MS {
        b := b.(longFired := true);
        ev := LongPress;
      }
    }
    btns[i] := b;
  }

  // --- Whole sample streams; index 0 is the seed ------------------------------------------------

  function After(activeLow: bool, samples: seq<bool>): Button
    requires samples != []
  {
    if |samples| == 1 then Seeded(activeLow, samples[0])
    else Step(After(activeLow, Front(samples)), Final(samples)).0
  }

  /** What the last sample produced; the seed never produces anything. */
  function Produced(activeLow: bool, samples: seq<bool>): Event
    requires samples != []
  {
    if |samples| == 1 then NoEvent else Step(After(activeLow, Front(samples)), Final(samples)).1
  }

  // --- The same stream read without the machine ----------------------------------------------------

  predicate LastThreeEqual(samples: seq<bool>) {
    var n := |samples|;
    n >= 3 && samples[n - 3] == samples[n - 2] == samples[n - 1]
  }

  /** Level of the latest run of three equal samples, else the seed's. */
  function Level(samples: seq<bool>): bool
    requires samples != []
  {
    if |samples| == 1 || LastThreeEqual(samples) then Final(samples) else Level(Front(samples))
  }

  predicate Constant(samples: seq<bool>) {
    forall i :: 0 <= i < |samples| ==> samples[i] == samples[0]
  }

  /** The debounce is not waiting: the last three agree, or nothing changed since the seed. */
  predicate Settled(samples: seq<bool>) {
    LastThreeEqual(samples) || Constant(samples)
  }

  predicate Pressed(activeLow: bool, samples: seq<bool>)
    requires samples != []
  {
    Level(samples) != activeLow
  }

  /** The current hold was already there at the seed. */
  predicate FromSeed(activeLow: bool, samples: seq<bool>)
    requires samples != []
  {
    Pressed(activeLow, samples) && (|samples| == 1 || FromSeed(activeLow, Front(samples)))
  }

  /** Settled ticks of the current hold after the one that accepted it. */
  function Held(activeLow: bool, samples: seq<bool>): nat
    requires samples != []
  {
    if |samples| == 1 || !Pressed(activeLow, samples) || !Pressed(activeLow, Front(samples)) then 0
    else Held(activeLow, Front(samples)) + if Settled(samples) then 1 else 0
  }

  const LONG_TICKS := 200

  /** The event the last sample deserves. */
  function Deserved(activeLow: bool, samples: seq<bool>): Event
    requires samples != []
  {
    if |samples| == 1 || !Pressed(activeLow, Front(samples)) || FromSeed(activeLow, Front(samples)) then NoEvent
    else if !Pressed(activeLow, samples)
    then (if Held(activeLow, Front(samples)) < LONG_TICKS then ShortPress else NoEvent)
    else if Settled(samples) && Held(activeLow, samples) == LONG_TICKS then LongPress
    else NoEvent
  }

  /** How far the debounce still has to wait. */
  function Waiting(samples: seq<bool>): nat
    requires samples != []
  {
    var n := |samples|;
    if Settled(samples) then 0
    else if samples[n - 1] == samples[n - 2] then 1
    else 2
  }

  lemma {:induction false} DebounceReadsStream(activeLow: bool, samples: seq<bool>)
    requires samples != []
    ensures var b := After(activeLow, samples);
            && b.activeLow == activeLow && b.last == Final(samples) && b.settle == Waiting(samples)
            && b.pressed == Pressed(activeLow, samples)
            && (b.settle == 0 ==> Level(samples) == Final(samples))
  {
    var n := |samples|;
    if n > 1 {
      var front := Front(samples);
      DebounceReadsStream(activeLow, front);
      assert Constant(samples) <==> Constant(front) && samples[n - 1] == samples[n - 2];
      if n > 2 {
        assert front[|front| - 1] == samples[n - 2] && front[|front| - 2] == samples[n - 3];
      }
    }
  }

  /** The machine's fields are exactly these readings of the stream. */
  lemma {:induction false} MachineReadsStream(activeLow: bool, samples: seq<bool>)
    requires samples != []
    ensures var b := After(activeLow, samples);
            && b.activeLow == activeLow && b.last == Final(samples) && b.settle == Waiting(samples)
            && b.pressed == Pressed(activeLow, samples)
            && (b.pressed ==>
                  && b.hold == Held(activeLow, samples)
                  && b.longFired == (FromSeed(activeLow, samples) || Held(activeLow, samples) >= LONG_TICKS))
    ensures Produced(activeLow, samples) == Deserved(activeLow, samples)
  {
    DebounceReadsStream(activeLow, samples);
    if |samples| > 1 {
      MachineReadsStream(activeLow, Front(samples));
      WaitingStep(samples);
      hide Level, Settled, Constant;
    }
  }

  lemma WaitingStep(samples: seq<bool>)
    requires |samples| > 1
    ensures Settled(samples) <==> Final(samples) == Final(Front(samples)) && Waiting(Front(samples)) <= 1
  {
    var n, front := |samples|, Front(samples);
    assert Constant(samples) <==> Constant(front) && samples[n - 1] == samples[n - 2];
    if n > 2 {
      assert front[|front| - 1] == samples[n - 2] && front[|front| - 2] == samples[n - 3];
    }
  }

  /** After any 0/1 stream the pressed state is the level of the latest run of three equal samples. */
  lemma DebounceIsLatestRun(activeLow: bool, samples: seq<bool>)
    requires samples != []
    ensures After(activeLow, samples).pressed <==> Level(samples) != activeLow
  {
    MachineReadsStream(activeLow, samples);
  }

  // --- One event per hold ---------------------------------------------------------------------------

  /** Events produced by samples a .. k - 1. */
  function EventCount(activeLow: bool, samples: seq<bool>, a: nat, k: nat): nat
    requires 0 < a <= k <= |samples|
  {
    if k == a then 0
    else EventCount(activeLow, samples, a, k - 1)
         + if Produced(activeLow, samples[..k]) != NoEvent then 1 else 0
  }

  /** Sample a is the one that accepts a press, and every sample from it up to k - 1 is in that hold. */
  ghost predicate Hold(activeLow: bool, samples: seq<bool>, a: nat, k: nat)
    requires 0 < a < k <= |samples|
  {
    !Pressed(activeLow, samples[..a]) && forall i :: a < i <= k ==> Pressed(activeLow, samples[..i])
  }

  lemma {:induction false} HoldSoFar(activeLow: bool, samples: seq<bool>, a: nat, k: nat)
    requires 0 < a < k <= |samples| && Hold(activeLow, samples, a, k)
    ensures !FromSeed(activeLow, samples[..k])
    ensures EventCount(activeLow, samples, a, k) == if Held(activeLow, samples[..k]) >= LONG_TICKS then 1 else 0
  {
    assert Front(samples[..k]) == samples[..k - 1];
    MachineReadsStream(activeLow, samples[..k]);
    hide After, Produced, Level, Waiting, Settled, Constant;
    if k > a + 1 {
      HoldSoFar(activeLow, samples, a, k - 1);
    }
  }

  /** A hold that was not there at the seed produces exactly one event by its release: LONG at its 200th settled
      tick if it lasts that long, and SHORT at the release otherwise. */
  lemma OneEventPerHold(activeLow: bool, samples: seq<bool>, a: nat, k: nat)
    requires 0 < a < k < |samples| && Hold(activeLow, samples, a, k) && !Pressed(activeLow, samples[..k + 1])
    ensures EventCount(activeLow, samples, a, k + 1) == 1
    ensures Produced(activeLow, samples[..k + 1]) == ShortPress <==> Held(activeLow, samples[..k]) < LONG_TICKS
  {
    HoldSoFar(activeLow, samples, a, k);
    assert Front(samples[..k + 1]) == samples[..k];
    MachineReadsStream(activeLow, samples[..k + 1]);
  }

  /** A hold present at the seed never produces anything, its release included. */
  lemma SeedHoldIsSilent(activeLow: bool, samples: seq<bool>)
    requires |samples| > 1 && FromSeed(activeLow, Front(samples))
    ensures Produced(activeLow, samples) == NoEvent
  {
    MachineReadsStream(activeLow, samples);
  }

  // --- The panel loop -----------------------------------------------------------------------------

  const POWER := 0
  const AUTO := 1
  const BUTTONS := 4

  datatype Delivery = ResetCombo | Press(button: nat, ev: Event)

  /** The deliveries of one poll, in order. */
  function Deliveries(evs: seq<Event>, joint: bool, i: nat): seq<Delivery>
    requires i <= |evs|
  {
    if i == 0 then []
    else Deliveries(evs, joint, i - 1)
         + if evs[i - 1] == NoEvent || (joint && (i - 1 == POWER || i - 1 == AUTO)) then []
           else [Press(i - 1, evs[i - 1])]
  }

  predicate Joint(btns: seq<Button>)
    requires |btns| == BUTTONS
  {
    btns[POWER].pressed && btns[AUTO].pressed
  }

  datatype PanelState = PanelState(btns: seq<Button>, combo: nat)

  function Events(before: seq<Button>, raw: seq<bool>): (evs: seq<Event>)
    requires |before| == |raw|
    ensures |evs| == |raw|
  {
    seq(|raw|, i requires 0 <= i < |raw| => Step(before[i], raw[i]).1)
  }

  function Stepped(before: seq<Button>, raw: seq<bool>): (after: seq<Button>)
    requires |before| == |raw|
    ensures |after| == |raw|
  {
    seq(|raw|, i requires 0 <= i < |raw| => Step(before[i], raw[i]).0)
  }

  /** One pass of the poll loop: every button stepped, the combo counted, the events delivered. */
  function PollStep(p: PanelState, raw: seq<bool>): (PanelState, seq<Delivery>)
    requires |p.btns| == |raw| == BUTTONS
  {
    var btns := Stepped(p.btns, raw);
    var combo := if Joint(btns) then p.combo + 1 else 0;
    (PanelState(btns, combo),
     (if combo == RESET_TICKS then [ResetCombo] else []) + Deliveries(Events(p.btns, raw), Joint(btns), BUTTONS))
  }

  class Panel {
    const btns: array<Button>
    var comboTicks: nat

    ghost predicate Valid() {
      btns.Length == BUTTONS
    }

    ghost function State(): PanelState
      reads this, btns
    {
      PanelState(btns[..], comboTicks)
    }

    constructor (raw: seq<bool>)
      requires |raw| == BUTTONS
      ensures Valid() && fresh(btns) && State() == PanelSeed(raw)
    {
      btns := new Button[BUTTONS](i requires 0 <= i < BUTTONS => Seeded(true, raw[i]));
      comboTicks := 0;
    }

    method StepAll(raw: seq<bool>) returns (evs: seq<Event>)
      requires Valid() && |raw| == BUTTONS
      modifies btns
      ensures btns[..] == Stepped(old(btns[..]), raw) && evs == Events(old(btns[..]), raw)
    {
      hide Step;
      evs := [];
      for i := 0 to BUTTONS
        invariant |evs| == i
        invariant forall k :: 0 <= k < i ==> (btns[k], evs[k]) == Step(old(btns[k]), raw[k])
        invariant forall k :: i <= k < BUTTONS ==> btns[k] == old(btns[k])
      {
        var ev := StepSlot(btns, i, raw[i]);
        evs := evs + [ev];
      }
    }

    method Poll(raw: seq<bool>) returns (out: seq<Delivery>)
      requires Valid() && |raw| == BUTTONS
      modifies this`comboTicks, btns
      ensures (State(), out) == PollStep(old(State()), raw)
    {
      hide Stepped, Events;
      var evs := StepAll(raw);
      var combo := btns[POWER].pressed && btns[AUTO].pressed;
      out := [];
      if combo {
        comboTicks := comboTicks + 1;
        if comboTicks == RESET_TICKS {
          out := [ResetCombo];
        }
      } else {
        comboTicks := 0;
      }
      ghost var head := out;
      for i := 0 to |evs|
        invariant out == head + Deliveries(evs, combo, i)
      {
        if evs[i] != NoEvent && !(combo && (i == POWER || i == AUTO)) {
          out := out + [Press(i, evs[i])];
        }
      }
    }
  }

  // --- The panel over whole sample streams; index 0 is the seed of every button -----------------------

  predicate Polls(polls: seq<seq<bool>>) {
    polls != [] && forall raw <- polls :: |raw| == BUTTONS
  }

  function PanelSeed(raw: seq<bool>): PanelState
    requires |raw| == BUTTONS
  {
    PanelState(seq(BUTTONS, i requires 0 <= i < BUTTONS => Seeded(true, raw[i])), 0)
  }

  function PanelAfter(polls: seq<seq<bool>>): (p: PanelState)
    requires Polls(polls)
    ensures |p.btns| == BUTTONS
  {
    if |polls| == 1 then PanelSeed(polls[0])
    else
      assert Polls(Front(polls)) by {
        FrontPolls(polls);
      }
      PollStep(PanelAfter(Front(polls)), Final(polls)).0
  }

  lemma FrontPolls(polls: seq<seq<bool>>)
    requires Polls(polls) && |polls| > 1
    ensures Polls(Front(polls)) && |Final(polls)| == BUTTONS
  {
    assert forall raw <- Front(polls) :: raw in polls;
    assert Final(polls) in polls;
  }

  /** What the last poll delivered. */
  function Delivered(polls: seq<seq<bool>>): seq<Delivery>
    requires Polls(polls) && |polls| > 1
  {
    FrontPolls(polls);
    PollStep(PanelAfter(Front(polls)), Final(polls)).1
  }

  /** The samples of one button. */
  function Column(polls: seq<seq<bool>>, b: nat): (samples: seq<bool>)
    requires Polls(polls) && b < BUTTONS
    ensures |samples| == |polls|
  {
    seq(|polls|, k requires 0 <= k < |polls| => assert polls[k] in polls; polls[k][b])
  }

  lemma {:induction false} PanelReadsColumns(polls: seq<seq<bool>>, b: nat)
    requires Polls(polls) && b < BUTTONS
    ensures PanelAfter(polls).btns[b] == After(true, Column(polls, b))
  {
    hide Step;
    if |polls| > 1 {
      FrontPolls(polls);
      PanelReadsColumns(Front(polls), b);
      assert Front(Column(polls, b)) == Column(Front(polls), b);
    }
  }

  /** Power and Auto are both held after the first k samples, as their debounced sample streams say. */
  predicate JointAt(polls: seq<seq<bool>>, k: nat)
    requires Polls(polls) && 0 < k <= |polls|
  {
    Pressed(true, Column(polls, POWER)[..k]) && Pressed(true, Column(polls, AUTO)[..k])
  }

  lemma JointIsDebounced(polls: seq<seq<bool>>)
    requires Polls(polls)
    ensures Joint(PanelAfter(polls).btns) <==> JointAt(polls, |polls|)
  {
    hide PanelAfter, After, Pressed;
    PanelReadsColumns(polls, POWER);
    PanelReadsColumns(polls, AUTO);
    DebounceIsLatestRun(true, Column(polls, POWER));
    DebounceIsLatestRun(true, Column(polls, AUTO));
    PressedIsLevel(true, Column(polls, POWER));
    PressedIsLevel(true, Column(polls, AUTO));
    assert Column(polls, POWER)[..|polls|] == Column(polls, POWER);
    assert Column(polls, AUTO)[..|polls|] == Column(polls, AUTO);
  }

  lemma PressedIsLevel(activeLow: bool, samples: seq<bool>)
    requires samples != []
    ensures Pressed(activeLow, samples) <==> Level(samples) != activeLow
  {
  }

  /** The last n polls are joint, and the poll before them, if there is one, is not. */
  predicate JointRun(polls: seq<seq<bool>>, n: nat)
    requires Polls(polls)
  {
    && n < |polls|
    && (forall k :: |polls| - n < k <= |polls| ==> JointAt(polls, k))
    && (|polls| - n > 1 ==> !JointAt(polls, |polls| - n))
  }

  lemma JointAtFront(polls: seq<seq<bool>>, k: nat)
    requires Polls(polls) && 0 < k < |polls|
    ensures Polls(Front(polls)) && (JointAt(polls, k) <==> JointAt(Front(polls), k))
  {
    FrontPolls(polls);
    assert Column(polls, POWER)[..k] == Column(Front(polls), POWER)[..k];
    assert Column(polls, AUTO)[..k] == Column(Front(polls), AUTO)[..k];
  }

  lemma {:induction false} ComboIsJointRun(polls: seq<seq<bool>>, n: nat)
    requires Polls(polls)
    ensures PanelAfter(polls).combo == n <==> JointRun(polls, n)
  {
    hide JointAt, Stepped;
    if |polls| > 1 {
      FrontPolls(polls);
      JointIsDebounced(polls);
      forall k | 0 < k < |polls|
        ensures JointAt(polls, k) <==> JointAt(Front(polls), k)
      {
        JointAtFront(polls, k);
      }
      if n > 0 {
        ComboIsJointRun(Front(polls), n - 1);
      }
    }
  }

  /** Over every sample stream RESET is delivered exactly by the 500th consecutive poll that finds Power and Auto
      both held, debounced. */
  lemma ResetOnFiveHundredth(polls: seq<seq<bool>>)
    requires Polls(polls) && |polls| > 1
    ensures ResetCombo in Delivered(polls) <==> JointRun(polls, 500)
  {
    FrontPolls(polls);
    ComboIsJointRun(polls, 500);
    hide JointRun, Stepped, Events;
    var before := PanelAfter(Front(polls));
    var btns := Stepped(before.btns, Final(polls));
    JointHoldMutesBoth(Events(before.btns, Final(polls)), Joint(btns), BUTTONS, 0);
  }

  /** And every other delivery is an event its button's own stream deserves: each one of them, except those of Power
      and Auto while both are held. */
  lemma DeliveriesAreDeserved(polls: seq<seq<bool>>, b: nat, ev: Event)
    requires Polls(polls) && |polls| > 1 && b < BUTTONS
    ensures Press(b, ev) in Delivered(polls) <==>
            && ev == Deserved(true, Column(polls, b)) && ev != NoEvent
            && !(JointAt(polls, |polls|) && (b == POWER || b == AUTO))
  {
    FrontPolls(polls);
    JointIsDebounced(polls);
    PanelReadsColumns(Front(polls), b);
    MachineReadsStream(true, Column(polls, b));
    assert Front(Column(polls, b)) == Column(Front(polls), b);
    hide JointAt, Stepped, Step, After, Deserved;
    var before := PanelAfter(Front(polls));
    var evs := Events(before.btns, Final(polls));
    var joint := Joint(Stepped(before.btns, Final(polls)));
    assert evs[b] == Deserved(true, Column(polls, b));
    JointHoldMutesBoth(evs, joint, BUTTONS, b);
  }

  /** While both are held no event of Power or Auto is delivered; every other event is, once. */
  lemma {:induction false} JointHoldMutesBoth(evs: seq<Event>, joint: bool, i: nat, b: nat)
    requires i <= |evs|
    ensures var out := Deliveries(evs, joint, i);
            && (forall d <- out :: d.Press? && d.button < i && evs[d.button] == d.ev != NoEvent)
            && (b < i && evs[b] != NoEvent && !(joint && (b == POWER || b == AUTO)) ==> Press(b, evs[b]) in out)
            && (joint ==> forall d <- out :: d.button != POWER && d.button != AUTO)
            && |out| <= i
  {
    if i > 0 {
      JointHoldMutesBoth(evs, joint, i - 1, b);
    }
  }
}
