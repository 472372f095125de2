/** The SSR time-proportioning window of pb_heater_pid.h. Times are microseconds. */
module SsrWindow {
  import opened Values

  const WINDOW_US := 30_000_000
  const MIN_DWELL_US := 2_000_000

  /** None until a positive duty first asks for drive, then the start of the current window. */
  type Window = Option<int>

  /** Drive time per window after the minimum-dwell squelch. */
  function OnTime(duty: real): int {
    var d := if duty > 1.0 then 1.0 else duty;
    var onUs := (d * (WINDOW_US as real)).Floor;
    if onUs < MIN_DWELL_US then 0
    else if WINDOW_US - onUs < MIN_DWELL_US then WINDOW_US
    else onUs
  }

  /** Where the window that contains `now` starts; a clock that jumped back starts a fresh one. */
  function Roll(w: Window, now: int): int {
    var start := if w.None? || now < w.value then now else w.value;
    start + (now - start) / WINDOW_US * WINDOW_US
  }

  /** One call: the new window and whether the SSR is driven. */
  function WindowOn(w: Window, duty: real, now: int): (Window, bool) {
    if duty <= 0.0 then (w, false)
    else
      var start := Roll(w, now);
      (Some(start), now - start < OnTime(duty))
  }

  /** The firmware's controller state but for dc_pid's own part: the window, and the sensor it was opened for. */
  class SsrDriver {
    var windowStart: int
    var initialized: bool
    var sourceKnown: bool
    var usingExternal: bool

    ghost function State(): Window
      reads this
    {
      if initialized then Some(windowStart) else None
    }

    ghost function Source(): Option<bool>
      reads this
    {
      if sourceKnown then Some(usingExternal) else None
    }

    constructor ()
      ensures State() == None && Source() == None
    {
      windowStart, initialized, sourceKnown, usingExternal := 0, false, false, false;
    }

    method Reset()
      modifies this
      ensures State() == None && Source() == None
    {
      windowStart, initialized, sourceKnown, usingExternal := 0, false, false, false;
    }

    /** A change of sensor drops everything learnt from the other one. */
    method SetSource(external: bool) returns (changed: bool)
      modifies this
      ensures Source() == Some(external) && changed == (old(Source()) != Some(external))
      ensures State() == if changed then None else old(State())
    {
      if sourceKnown && usingExternal == external {
        return false;
      }
      Reset();
      sourceKnown, usingExternal := true, external;
      return true;
    }

    method Drive(duty: real, now: int) returns (drive: bool)
      modifies `windowStart, `initialized
      ensures (State(), drive) == WindowOn(old(State()), duty, now)
    {
      if duty <= 0.0 {
        return false;
      }
      var d := if duty > 1.0 then 1.0 else duty;
      if !initialized || now < windowStart {
        windowStart, initialized := now, true;
      }
      var elapsed := now - windowStart;
      if elapsed >= WINDOW_US {
        var windows := elapsed / WINDOW_US;
        windowStart := windowStart + windows * WINDOW_US;
        elapsed := now - windowStart;
      }
      var onUs := (d * (WINDOW_US as real)).Floor;
      if onUs < MIN_DWELL_US {
        return false;
      }
      if WINDOW_US - onUs < MIN_DWELL_US {
        return true;
      }
      return elapsed < onUs;
    }
  }

  // --- Whole runs of calls -------------------------------------------------------

  datatype Call = Call(duty: real, now: int)

  function Last(calls: seq<Call>): Call
    requires |calls| > 0
  {
    calls[|calls| - 1]
  }

  /** Window and drive after the last of a series of calls that starts on a fresh window. */
  function After(calls: seq<Call>): (Window, bool)
    requires |calls| > 0
  {
    var before := if |calls| == 1 then None else After(calls[..|calls| - 1]).0;
    WindowOn(before, Last(calls).duty, Last(calls).now)
  }

  ghost predicate Ordered(calls: seq<Call>) {
    forall i, j :: 0 <= i <= j < |calls| ==> calls[i].now <= calls[j].now
  }

  /** When drive was first asked for, and when it was last asked for. */
  function FirstAsked(calls: seq<Call>): Option<int> {
    if calls == [] then None
    else
      var before := FirstAsked(calls[..|calls| - 1]);
      if before.Some? then before else if Last(calls).duty > 0.0 then Some(Last(calls).now) else None
  }

  function LastAsked(calls: seq<Call>): Option<int> {
    if calls == [] then None
    else if Last(calls).duty > 0.0 then Some(Last(calls).now)
    else LastAsked(calls[..|calls| - 1])
  }

  lemma {:induction false} AskedInOrder(calls: seq<Call>)
    requires Ordered(calls)
    ensures FirstAsked(calls).Some? <==> LastAsked(calls).Some?
    ensures FirstAsked(calls).Some? ==> FirstAsked(calls).value <= LastAsked(calls).value <= Last(calls).now
  {
    if calls != [] {
      AskedInOrder(calls[..|calls| - 1]);
    }
  }

  /** The windows stay locked to the call that first asked for drive, whatever duties are asked for on the way, none
      included; and the drive is "phase below the squelched on-time". */
  lemma {:induction false} WindowStaysPhaseLocked(calls: seq<Call>)
    requires |calls| > 0 && Ordered(calls)
    ensures var (w, drive) := After(calls);
            match FirstAsked(calls)
            case None => w == None && !drive
            case Some(first) =>
              var last := LastAsked(calls);
              && last.Some? && w == Some(last.value - (last.value - first) % WINDOW_US)
              && (drive <==> Last(calls).duty > 0.0 && (Last(calls).now - first) % WINDOW_US < OnTime(Last(calls).duty))
  {
    hide OnTime;
    AskedInOrder(calls);
    var n := |calls|;
    if n > 1 {
      var front := calls[..n - 1];
      WindowStaysPhaseLocked(front);
      AskedInOrder(front);
      if FirstAsked(front).Some? && Last(calls).duty > 0.0 {
        var first, t, u := FirstAsked(front).value, LastAsked(front).value, Last(calls).now;
        assert calls[n - 2].now <= calls[n - 1].now;
        Relock(t - first, u - t);
      }
    } else {
      assert calls[..0] == [];
    }
  }

  /** Rolling forward from the start of the current window keeps the phase against the origin. */
  lemma Relock(a: int, b: int)
    requires a >= 0 && b >= 0
    ensures (a % WINDOW_US + b) % WINDOW_US == (a + b) % WINDOW_US
  {
    var q := a / WINDOW_US;
    var r := a % WINDOW_US + b;
    assert a + b == q * WINDOW_US + r;
    assert (a + b) == (q + r / WINDOW_US) * WINDOW_US + r % WINDOW_US;
  }

  // --- The ideal waveform for one duty ---------------------------------------------

  predicate Level(duty: real, t: int) {
    t % WINDOW_US < OnTime(duty)
  }

  lemma LevelAt(duty: real, q: int, r: int)
    requires 0 <= r < WINDOW_US
    ensures Level(duty, q * WINDOW_US + r) <==> r < OnTime(duty)
  {
    assert (q * WINDOW_US + r) % WINDOW_US == r;
  }

  /** Whenever the waveform switches it then holds its level for at least the dwell. */
  lemma SegmentsOutlastDwell(duty: real, t: int, u: int)
    requires Level(duty, t - 1) != Level(duty, t)
    requires t <= u < t + MIN_DWELL_US
    ensures Level(duty, u) == Level(duty, t)
  {
    hide Level;
    var q, p, on := t / WINDOW_US, t % WINDOW_US, OnTime(duty);
    assert on == 0 || on == WINDOW_US || MIN_DWELL_US <= on <= WINDOW_US - MIN_DWELL_US;
    hide OnTime;
    LevelAt(duty, q, p);
    if p == 0 {
      LevelAt(duty, q - 1, WINDOW_US - 1);
      LevelAt(duty, q, u - t);
    } else {
      LevelAt(duty, q, p - 1);
      assert p == on;
      LevelAt(duty, q, p + u - t);
    }
  }

  /** Microseconds of drive among the first n of a window. */
  function Driven(duty: real, n: nat): nat {
    if n == 0 then 0 else Driven(duty, n - 1) + if Level(duty, n - 1) then 1 else 0
  }

  lemma {:induction false} DrivenIsOnTime(duty: real, n: nat)
    requires n <= WINDOW_US
    ensures Driven(duty, n) == if n < OnTime(duty) then n else if OnTime(duty) < 0 then 0 else OnTime(duty)
  {
    if n > 0 {
      DrivenIsOnTime(duty, n - 1);
    }
  }

  /** The driven fraction of a whole window is within 1/15 of the duty, plus one microsecond of truncation. */
  lemma RealisedFraction(duty: real)
    requires 0.0 <= duty <= 1.0
    ensures var realised := Driven(duty, WINDOW_US) as real / WINDOW_US as real;
            var slack := 1.0 / 15.0 + 1.0 / WINDOW_US as real;
            duty - slack <= realised <= duty + slack
  {
    DrivenIsOnTime(duty, WINDOW_US);
    var exact := duty * (WINDOW_US as real);
    assert (MIN_DWELL_US as real) / WINDOW_US as real == 1.0 / 15.0;
    assert exact - 2_000_001.0 <= OnTime(duty) as real <= exact + 2_000_001.0;
    assert duty == exact / WINDOW_US as real;
  }

  /** Duties between 1/15 and 14/15 are realised to the microsecond; shorter drives than 2 s are left out, and shorter
      pauses than 2 s are driven through. */
  lemma SquelchIsExact(duty: real)
    requires 0.0 <= duty <= 1.0
    ensures var exact, driven := (duty * 30_000_000.0).Floor, Driven(duty, WINDOW_US);
            && (2_000_000 <= exact <= 28_000_000 ==> driven == exact)
            && (exact < 2_000_000 ==> driven == 0)
            && (exact > 28_000_000 ==> driven == 30_000_000)
  {
    DrivenIsOnTime(duty, WINDOW_US);
  }

  // --- Switching rate ------------------------------------------------------------

  function Switches(drives: seq<bool>): nat {
    if |drives| < 2 then 0
    else (if drives[0] != drives[1] then 1 else 0) + Switches(drives[1..])
  }

  /** Drives of a series of calls at one duty, measured from the first call ever made. */
  function Drives(duty: real, origin: int, times: seq<int>): seq<bool> {
    seq(|times|, i requires 0 <= i < |times| => Level(duty, times[i] - origin))
  }

  ghost predicate InWindow(window: int, x: int) {
    window * WINDOW_US <= x < (window + 1) * WINDOW_US
  }

  lemma LevelInWindow(duty: real, window: int, x: int)
    requires InWindow(window, x)
    ensures Level(duty, x) == (x - window * WINDOW_US < OnTime(duty))
  {
    LevelAt(duty, window, x - window * WINDOW_US);
  }

  /** Calls inside one window see at most one change, from on to off. */
  lemma {:induction false} OneSwitchInside(duty: real, origin: int, window: int, times: seq<int>)
    requires forall i, j :: 0 <= i <= j < |times| ==> times[i] <= times[j]
    requires forall i :: 0 <= i < |times| ==> InWindow(window, times[i] - origin)
    ensures var d := Drives(duty, origin, times);
            Switches(d) <= (if |d| > 0 && d[0] then 1 else 0)
  {
    if |times| >= 2 {
      var d := Drives(duty, origin, times);
      OneSwitchInside(duty, origin, window, times[1..]);
      assert d[1..] == Drives(duty, origin, times[1..]);
      LevelInWindow(duty, window, times[0] - origin);
      LevelInWindow(duty, window, times[1] - origin);
      assert d[1] ==> d[0];
    }
  }

  /** The call that enters a window plus all the calls in it switch the relay at most twice. */
  lemma TwoSwitchesPerWindow(duty: real, origin: int, window: int, before: int, times: seq<int>)
    requires forall i, j :: 0 <= i <= j < |times| ==> times[i] <= times[j]
    requires forall i :: 0 <= i < |times| ==> InWindow(window, times[i] - origin)
    ensures Switches(Drives(duty, origin, [before] + times)) <= 2
  {
    OneSwitchInside(duty, origin, window, times);
    var d := Drives(duty, origin, [before] + times);
    assert d[1..] == Drives(duty, origin, times);
  }

  // --- The driver's own answers ----------------------------------------------------------------------

  /** What the driver answered to each call. */
  function Answers(calls: seq<Call>): (answers: seq<bool>)
    ensures |answers| == |calls|
  {
    if calls == [] then [] else Answers(calls[..|calls| - 1]) + [After(calls).1]
  }

  lemma {:induction false} AnswerAt(calls: seq<Call>, i: nat)
    requires i < |calls|
    ensures Answers(calls)[i] == After(calls[..i + 1]).1
  {
    hide After;
    if i == |calls| - 1 {
      assert calls[..i + 1] == calls;
    } else {
      var front := calls[..|calls| - 1];
      AnswerAt(front, i);
      assert front[..i + 1] == calls[..i + 1];
    }
  }

  lemma {:induction false} FirstAskedStays(calls: seq<Call>, i: nat)
    requires i < |calls| && calls[i].duty > 0.0
    ensures FirstAsked(calls[..i + 1]).Some? && FirstAsked(calls) == FirstAsked(calls[..i + 1])
  {
    if i == |calls| - 1 {
      assert calls[..i + 1] == calls;
    } else {
      var front := calls[..|calls| - 1];
      FirstAskedStays(front, i);
      assert front[..i + 1] == calls[..i + 1];
    }
  }

  /** A call that asks for drive is answered by the ideal waveform of its duty, counted from the call that first
      asked; any other call is answered by no drive. */
  lemma AnswerIsLevel(calls: seq<Call>, i: nat)
    requires Ordered(calls) && i < |calls|
    ensures calls[i].duty <= 0.0 ==> !Answers(calls)[i]
    ensures calls[i].duty > 0.0 ==>
              && FirstAsked(calls).Some?
              && Answers(calls)[i] == Level(calls[i].duty, calls[i].now - FirstAsked(calls).value)
  {
    hide After, OnTime, FirstAsked, LastAsked, Answers;
    AnswerAt(calls, i);
    var upTo := calls[..i + 1];
    WindowStaysPhaseLocked(upTo);
    if calls[i].duty > 0.0 {
      FirstAskedStays(calls, i);
    }
  }

  /** So under one duty the call that enters a window and all the calls in it switch the relay at most twice. */
  lemma DriverSwitchesTwice(calls: seq<Call>, duty: real, window: int, a: nat, b: nat)
    requires Ordered(calls) && 0 < a <= b <= |calls| && duty > 0.0 && FirstAsked(calls).Some?
    requires forall i :: a - 1 <= i < b ==> calls[i].duty == duty
    requires forall i :: a <= i < b ==> InWindow(window, calls[i].now - FirstAsked(calls).value)
    ensures Switches(Answers(calls)[a - 1..b]) <= 2
  {
    hide After, OnTime, FirstAsked, Answers, Level, Switches;
    var origin := FirstAsked(calls).value;
    var times := seq(b - a, k requires 0 <= k < b - a => calls[a + k].now);
    TwoSwitchesPerWindow(duty, origin, window, calls[a - 1].now, times);
    var all := [calls[a - 1].now] + times;
    forall k | 0 <= k < |all|
      ensures Answers(calls)[a - 1..b][k] == Drives(duty, origin, all)[k]
    {
      AnswerIsLevel(calls, a - 1 + k);
      assert all[k] == calls[a - 1 + k].now;
    }
    assert Answers(calls)[a - 1..b] == Drives(duty, origin, all);
  }
}
