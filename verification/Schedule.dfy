/** The control task's deadline arithmetic on a 32-bit tick counter that wraps. Times are true tick counts; the
    firmware sees them modulo 2^32. */
module Schedule {

  const TICKS := 0x1_0000_0000
  const HALF := 0x8000_0000

  /** 500 ms at 100 ticks a second. */
  const PERIOD := 50

  function Wrap(n: int): int {
    n % TICKS
  }

  /** The cast from uint32_t to int32_t. */
  function Signed(u: int): int {
    if u >= HALF then u - TICKS else u
  }

  /** One wait of the loop: the counter when the wait is computed, whether a notification ended it, and the
      counter at the overrun test and at the resync. */
  datatype Wake = Wake(asked: int, notified: bool, tested: int, resynced: int)

  // --- The same loop on unbounded integers ----------------------------------------------------------

  /** The deadline, and the counter when the loop last moved it. */
  datatype Due = Due(deadline: int, moved: int)

  function Start(now: int): Due {
    Due(now + PERIOD, now)
  }

  function NextDue(d: Due, w: Wake): Due {
    if w.notified then d
    else if d.deadline + PERIOD > w.tested then Due(d.deadline + PERIOD, w.tested)
    else Due(w.resynced + PERIOD, w.resynced)
  }

  function DueAfter(start: int, wakes: seq<Wake>): Due {
    if wakes == [] then Start(start) else NextDue(DueAfter(start, wakes[..|wakes| - 1]), wakes[|wakes| - 1])
  }

  function WaitAt(d: Due, w: Wake): int {
    if d.deadline > w.asked then d.deadline - w.asked else 0
  }

  // --- What the environment may do -----------------------------------------------------------------

  /** The counter only grows, a wait that times out lasts at least as long as it was asked to, and fewer than
      2^31 ticks pass from one timeout to the next. */
  ghost predicate Possible(d: Due, since: int, w: Wake) {
    && since <= w.asked <= w.tested <= w.resynced
    && w.resynced - d.moved < HALF
    && (!w.notified ==> w.tested >= w.asked + WaitAt(d, w))
  }

  function Since(start: int, wakes: seq<Wake>): int {
    if wakes == [] then start else wakes[|wakes| - 1].resynced
  }

  ghost predicate Feasible(start: int, wakes: seq<Wake>) {
    forall i :: 0 <= i < |wakes| ==> Possible(DueAfter(start, wakes[..i]), Since(start, wakes[..i]), wakes[i])
  }

  // --- Unwrapping ------------------------------------------------------------------------------------

  lemma SplitIs(n: int, q: int, r: int)
    requires n == q * TICKS + r && 0 <= r < TICKS
    ensures n % TICKS == r
  {
    var k := n / TICKS;
    assert (k - q) * TICKS == r - n % TICKS;
  }

  /** A signed 32-bit difference is the true one while the true one fits. */
  lemma SignedDelta(a: int, b: int)
    requires -HALF <= a - b < HALF
    ensures Signed(Wrap(Wrap(a) - Wrap(b))) == a - b
  {
    var qa, qb := a / TICKS, b / TICKS;
    var r := if a >= b then a - b else a - b + TICKS;
    SplitIs(Wrap(a) - Wrap(b), if a >= b then qb - qa else qb - qa - 1, r);
  }

  /** The limit is sharp: past it an overdue deadline looks as far ahead as it is overdue, wrapped. */
  lemma StallPastHalfLooksAhead(a: int, b: int)
    requires -TICKS < a - b < -HALF
    ensures Signed(Wrap(Wrap(a) - Wrap(b))) == a - b + TICKS > 0
  {
    var qa, qb := a / TICKS, b / TICKS;
    SplitIs(Wrap(a) - Wrap(b), qb - qa - 1, a - b + TICKS);
  }

  lemma WrapAdds(a: int)
    ensures Wrap(Wrap(a) + PERIOD) == Wrap(a + PERIOD)
  {
    SplitIs(Wrap(a) + PERIOD, (a + PERIOD) / TICKS - a / TICKS, Wrap(a + PERIOD));
  }

  // --- The source's loop ------------------------------------------------------------------------------

  /** control_task's scheduling, with the counter readings its waits meet. */
  method ControlTask(start: int, wakes: seq<Wake>) returns (waits: seq<int>, nextDeadline: int)
    requires Feasible(start, wakes)
    ensures nextDeadline == Wrap(DueAfter(start, wakes).deadline)
    ensures |waits| == |wakes|
    ensures forall i :: 0 <= i < |wakes| ==> waits[i] == WaitAt(DueAfter(start, wakes[..i]), wakes[i])
  {
    hide Possible;
    nextDeadline := Wrap(Wrap(start) + PERIOD);
    WrapAdds(start);
    waits := [];
    assert wakes[..0] == [];
    for i := 0 to |wakes|
      invariant nextDeadline == Wrap(DueAfter(start, wakes[..i]).deadline)
      invariant |waits| == i
      invariant forall k :: 0 <= k < i ==> waits[k] == WaitAt(DueAfter(start, wakes[..k]), wakes[k])
    {
      var w := wakes[i];
      ghost var d := DueAfter(start, wakes[..i]);
      assert wakes[..i + 1][..i] == wakes[..i];
      var wait, next := Iterate(nextDeadline, w, d, Since(start, wakes[..i])) by {
        DeadlineIsNear(start, wakes, i);
      }
      waits := waits + [wait];
      nextDeadline := next;
    }
    assert wakes[..|wakes|] == wakes;
  }

  method Iterate(deadline: int, w: Wake, ghost d: Due, ghost since: int) returns (wait: int, next: int)
    requires deadline == Wrap(d.deadline) && Possible(d, since, w) && d.moved < d.deadline <= d.moved + PERIOD
    requires d.moved <= since
    ensures wait == WaitAt(d, w)
    ensures next == Wrap(NextDue(d, w).deadline)
  {
    hide Wrap, Signed;
    SignedDelta(d.deadline, w.asked);
    var remaining := Signed(Wrap(deadline - Wrap(w.asked)));
    wait := if remaining > 0 then remaining else 0;
    next := deadline;
    if !w.notified {
      next := Wrap(next + PERIOD);
      WrapAdds(d.deadline);
      SignedDelta(d.deadline + PERIOD, w.tested);
      if Signed(Wrap(next - Wrap(w.tested))) <= 0 {
        next := Wrap(Wrap(w.resynced) + PERIOD);
        WrapAdds(w.resynced);
      }
    }
  }

  // --- What the schedule promises ----------------------------------------------------------------------

  /** After every timeout the deadline is ahead of the counter by at most one period, and it stays put until the
      next one. */
  lemma {:induction false} DeadlineIsNear(start: int, wakes: seq<Wake>, n: nat)
    requires Feasible(start, wakes) && n <= |wakes|
    ensures var d := DueAfter(start, wakes[..n]);
            d.moved < d.deadline <= d.moved + 50 && d.moved <= Since(start, wakes[..n])
  {
    if n > 0 {
      DeadlineIsNear(start, wakes, n - 1);
      assert wakes[..n][..n - 1] == wakes[..n - 1];
    }
  }

  /** Every wait ends at the deadline, or at once when that is past; and no wait is longer than one period, however
      often the loop was notified. */
  lemma WaitsAtMostOnePeriod(start: int, wakes: seq<Wake>, i: nat)
    requires Feasible(start, wakes) && i < |wakes|
    ensures var d, wait := DueAfter(start, wakes[..i]), WaitAt(DueAfter(start, wakes[..i]), wakes[i]);
            && 0 <= wait <= 50
            && (wakes[i].asked <= d.deadline ==> wakes[i].asked + wait == d.deadline)
            && (wakes[i].asked >= d.deadline ==> wait == 0)
  {
    DeadlineIsNear(start, wakes, i);
  }

  function Timeouts(wakes: seq<Wake>): seq<Wake> {
    if wakes == [] then []
    else
      var rest, w := Timeouts(wakes[..|wakes| - 1]), wakes[|wakes| - 1];
      if w.notified then rest else rest + [w]
  }

  /** Notifications neither drag nor hurry the schedule: the deadlines are those of the timeouts alone. */
  lemma {:induction false} NotificationsKeepSchedule(start: int, wakes: seq<Wake>)
    ensures DueAfter(start, wakes) == DueAfter(start, Timeouts(wakes))
  {
    if wakes != [] {
      NotificationsKeepSchedule(start, wakes[..|wakes| - 1]);
      var rest, w := Timeouts(wakes[..|wakes| - 1]), wakes[|wakes| - 1];
      assert (rest + [w])[..|rest|] == rest;
    }
  }

  /** Without an overrun the deadlines stay on the grid set at the start: one period per timeout. */
  lemma {:induction false} DeadlinesStayOnGrid(start: int, wakes: seq<Wake>)
    requires forall i :: 0 <= i < |wakes| && !wakes[i].notified
               ==> DueAfter(start, wakes[..i]).deadline + 50 > wakes[i].tested
    ensures DueAfter(start, wakes).deadline == start + 50 * (|Timeouts(wakes)| + 1)
  {
    if wakes != [] {
      var front := wakes[..|wakes| - 1];
      assert forall i :: 0 <= i < |front| ==> front[..i] == wakes[..i];
      DeadlinesStayOnGrid(start, front);
    }
  }
}
