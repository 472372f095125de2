/** When the start G-code rewriter refuses a file, and what it makes of one line by line, told from the file's own
    lines: a reading of the rewrite that does not go through its shifting indices. */
module GcodeEdit {
  import opened StartGcode

  /** Index of the first line of kind k at or after from. */
  ghost predicate FirstFrom(k: Kind, lines: seq<string>, from: nat, i: nat) {
    from <= i < |lines| && Is(k, lines[i]) && forall j :: from <= j < i ==> !Is(k, lines[j])
  }

  ghost predicate None(k: Kind, lines: seq<string>, from: nat, to: nat)
    requires to <= |lines|
  {
    forall j :: from <= j < to ==> !Is(k, lines[j])
  }

  /** The bed wait that counts: the first one after the bed target, or else the first one of all. */
  ghost predicate WaitOf(lines: seq<string>, bed: nat, wait: nat) {
    || FirstFrom(BedWait, lines, bed + 1, wait)
    || (FirstFrom(BedWait, lines, 0, wait) && None(BedWait, lines, bed + 1, |lines|))
  }

  /** The window ends before the next G28 or mesh line after the wait, or with the file. */
  ghost predicate EndOf(lines: seq<string>, wait: nat, end: nat) {
    FirstFrom(EndMark, lines, wait + 1, end) || (end == |lines| && None(EndMark, lines, wait + 1, |lines|))
  }

  /** Chamber commands where the rewrite would put its own. */
  ghost predicate Present(lines: seq<string>, wait: nat, end: nat)
    requires end <= |lines|
  {
    !None(ChamberTarget, lines, 0, end) || !None(ChamberWait, lines, 0, end) || !None(HelperFan, lines, wait + 1, end)
  }

  lemma FirstIs(k: Kind, lines: seq<string>, from: nat, i: nat)
    requires from <= |lines|
    ensures FirstFrom(k, lines, from, i) <==> i == First(k, lines, from) < |lines|
    ensures None(k, lines, from, |lines|) <==> First(k, lines, from) == |lines|
  {
    hide Is;
    var f := First(k, lines, from);
    assert f < |lines| ==> Is(k, lines[f]);
  }

  /** Exactly when, and why, a file is refused. */
  lemma RefusalsAre(lines: seq<string>, target: string)
    ensures var blank := forall l <- lines :: TrimStart(l) == [];
            var noBed, noWait := None(BedTarget, lines, 0, |lines|), None(BedWait, lines, 0, |lines|);
            var o := PlanOf(lines, target);
            && (o == Refused(EmptyInput) <==> blank)
            && (o == Refused(UnsafeTarget) <==> !blank && !SafeTarget(target))
            && (o == Refused(NoBedTarget) <==> !blank && SafeTarget(target) && noBed)
            && (o == Refused(NoBedWait) <==> !blank && SafeTarget(target) && !noBed && noWait)
  {
    hide Is, SafeTarget, TrimStart, PlanAt;
    FirstIs(BedTarget, lines, 0, 0);
    FirstIs(BedWait, lines, 0, 0);
    var bed := First(BedTarget, lines, 0);
    if bed < |lines| {
      FirstIs(BedWait, lines, bed + 1, 0);
    }
    hide First;
  }

  lemma BedLineIsNotBlank(lines: seq<string>, bed: nat)
    requires bed < |lines| && Is(BedTarget, lines[bed])
    ensures !Blank(lines)
  {
    if Blank(lines) {
      assert lines[bed] in lines;
      BlankHasNoCommand(lines[bed]);
    }
  }

  lemma WaitIs(lines: seq<string>, bed: nat, wait: nat)
    requires bed < |lines| && WaitOf(lines, bed, wait)
    ensures wait < |lines| && BedWaitIndex(lines, bed) == wait
  {
    hide Is;
    FirstIs(BedWait, lines, bed + 1, wait);
    FirstIs(BedWait, lines, 0, wait);
  }

  /** A file with a bed target and a bed wait is rewritten exactly if it holds no chamber commands yet. */
  lemma RewrittenExactly(lines: seq<string>, target: string, bed: nat, wait: nat, end: nat)
    requires SafeTarget(target) && FirstFrom(BedTarget, lines, 0, bed)
    requires WaitOf(lines, bed, wait) && EndOf(lines, wait, end)
    ensures end <= |lines|
    ensures PlanOf(lines, target) == if Present(lines, wait, end) then Refused(AlreadyPresent)
                                     else Planned(PlanAt(lines, target, bed, wait))
  {
    hide Is, SafeTarget, PlanAt, Blank;
    BedLineIsNotBlank(lines, bed);
    FirstIs(BedTarget, lines, 0, bed);
    WaitIs(lines, bed, wait);
    FirstIs(EndMark, lines, wait + 1, end);
    hide WaitOf, BedWaitIndex;
    assert Any(ChamberTarget, lines, 0, end) <==> !None(ChamberTarget, lines, 0, end);
    assert Any(ChamberWait, lines, 0, end) <==> !None(ChamberWait, lines, 0, end);
    assert Any(HelperFan, lines, wait + 1, end) <==> !None(HelperFan, lines, wait + 1, end);
    hide First, Any, None;
  }

  // --- Where everything goes -----------------------------------------------------------------------

  /** Index of an old line once M141 stands behind the bed target. */
  function Shift(bed: nat, i: nat): nat {
    if i > bed then i + 1 else i
  }

  lemma FirstShifts(k: Kind, lines: seq<string>, bed: nat, target: string, from: nat)
    requires bed < |lines| && from <= |lines| && SafeTarget(target) && k != ChamberTarget
    ensures var l1 := WithTarget(lines, bed, target);
            First(k, l1, Shift(bed, from)) == Shift(bed, First(k, lines, from))
  {
    hide Is, SafeTarget, TargetLine, First;
    InsertedKinds(target, k);
    var l1, f := WithTarget(lines, bed, target), First(k, lines, from);
    assert l1[bed + 1] == TargetLine(target);
    forall j | Shift(bed, from) <= j < Shift(bed, f)
      ensures !Is(k, l1[j])
    {
      assert l1[j] == if j <= bed then lines[j] else if j == bed + 1 then TargetLine(target) else lines[j - 1];
    }
    assert f < |lines| ==> l1[Shift(bed, f)] == lines[f];
    var g := First(k, l1, Shift(bed, from));
    assert g < |l1| ==> Is(k, l1[g]);
  }

  /** The place of the chamber wait among the old lines: behind the first safe Z move of the window, or else behind the
      bed wait. */
  ghost predicate PlaceOf(lines: seq<string>, wait: nat, end: nat, at: nat)
    requires end <= |lines|
  {
    (FirstFrom(SafeZ, lines, wait + 1, at) && at < end) || (at == wait && None(SafeZ, lines, wait + 1, end))
  }

  lemma NeitherIsBed(lines: seq<string>, bed: nat, wait: nat, end: nat, at: nat)
    requires FirstFrom(BedTarget, lines, 0, bed) && WaitOf(lines, bed, wait)
    requires end <= |lines| && PlaceOf(lines, wait, end, at)
    ensures wait != bed && at != bed && wait < |lines| && at < |lines|
  {
    hide Is, None;
    if wait == bed {
      OneKind(BedTarget, BedWait, lines[bed]);
    } else if at == bed {
      OneKind(BedTarget, SafeZ, lines[bed]);
    }
  }

  /** End and place in terms of first lines of their kinds. */
  lemma PlaceIs(lines: seq<string>, wait: nat, end: nat, at: nat)
    requires wait < |lines| && EndOf(lines, wait, end) && PlaceOf(lines, wait, end, at)
    ensures end == First(EndMark, lines, wait + 1)
    ensures var z := First(SafeZ, lines, wait + 1); at == if z < end then z else wait
  {
    hide Is;
    FirstIs(EndMark, lines, wait + 1, end);
    FirstIs(SafeZ, lines, wait + 1, at);
    var z := First(SafeZ, lines, wait + 1);
    assert z < end ==> Is(SafeZ, lines[z]);
  }

  lemma PlanShifts(lines: seq<string>, target: string, bed: nat, wait: nat)
    requires SafeTarget(target) && bed < |lines| && wait < |lines| && wait != bed
    ensures var e, z := First(EndMark, lines, wait + 1), First(SafeZ, lines, wait + 1);
            PlanAt(lines, target, bed, wait)
            == Plan(bed, Shift(bed, wait), Shift(bed, e), Shift(bed, if z < e then z else wait) + 1)
  {
    hide Is, SafeTarget, TargetLine, WithTarget, First, Shift;
    FirstMoves(EndMark, lines, bed, target, wait);
    FirstMoves(SafeZ, lines, bed, target, wait);
    ShiftKeepsOrder(bed, First(SafeZ, lines, wait + 1), First(EndMark, lines, wait + 1));
  }

  lemma ShiftKeepsOrder(bed: nat, i: nat, j: nat)
    ensures Shift(bed, i) < Shift(bed, j) <==> i < j
  {
  }

  lemma FirstMoves(k: Kind, lines: seq<string>, bed: nat, target: string, wait: nat)
    requires bed < |lines| && wait < |lines| && wait != bed && SafeTarget(target) && k != ChamberTarget
    ensures var w, l1 := if bed < wait then wait + 1 else wait, WithTarget(lines, bed, target);
            w == Shift(bed, wait) < |l1| == |lines| + 1 && First(k, l1, w + 1) == Shift(bed, First(k, lines, wait + 1))
  {
    hide Is, SafeTarget, TargetLine, First;
    FirstShifts(k, lines, bed, target, wait + 1);
  }

  lemma PlanIs(lines: seq<string>, target: string, bed: nat, wait: nat, end: nat, at: nat)
    requires SafeTarget(target) && FirstFrom(BedTarget, lines, 0, bed) && WaitOf(lines, bed, wait)
    requires EndOf(lines, wait, end) && PlaceOf(lines, wait, end, at)
    ensures wait != bed && at != bed
    ensures PlanAt(lines, target, bed, wait)
            == Plan(bed, Shift(bed, wait), Shift(bed, end), Shift(bed, at) + 1)
  {
    NeitherIsBed(lines, bed, wait, end, at);
    hide Is, SafeTarget, WaitOf, First, PlanAt;
    PlaceIs(lines, wait, end, at);
    PlanShifts(lines, target, bed, wait);
    hide FirstFrom, None, EndOf, PlaceOf;
  }

  /** An old wait of the window becomes a comment behind its indentation. */
  ghost predicate BecomesComment(line: string, out: string) {
    exists indent: string, rest: string ::
      line == indent + rest && out == indent + "; " + rest && (rest == [] || !IsSpace(rest[0]))
      && forall c <- indent :: IsSpace(c)
  }

  lemma {:induction false} IndentIsBlank(s: string)
    ensures (forall c <- Indent(s) :: IsSpace(c)) && (|Indent(s)| < |s| ==> !IsSpace(s[|Indent(s)|]))
  {
    hide IsSpace;
    if s != [] && IsSpace(s[0]) {
      IndentIsBlank(s[1..]);
    }
  }

  lemma CommentOutIs(line: string)
    ensures BecomesComment(line, CommentOut(line))
  {
    IndentIsBlank(line);
    var indent := Indent(line);
    var rest := line[|indent|..];
    assert line == indent + rest && CommentOut(line) == indent + "; " + rest;
  }

  /** What becomes of an old line. */
  ghost predicate Kept(lines: seq<string>, wait: nat, end: nat, i: nat, out: string)
    requires i < |lines|
  {
    if wait < i < end && Is(LegacyWait, lines[i]) then BecomesComment(lines[i], out) else out == lines[i]
  }

  /** Index of an old line in the output: one line is inserted behind the bed target, three more behind `at`. */
  function Out(bed: nat, at: nat, i: nat): nat {
    i + (if i > bed then 1 else 0) + (if i > at then 3 else 0)
  }

  /** The lines with the chamber target in place and the old waits commented out. */
  function Prepared(lines: seq<string>, target: string, bed: nat, wait: nat, end: nat): seq<string>
    requires bed < |lines|
  {
    Commented(WithTarget(lines, bed, target), Shift(bed, wait) + 1, Shift(bed, end))
  }

  lemma CommentedIs(lines: seq<string>, target: string, bed: nat, wait: nat, end: nat, i: nat)
    requires bed < |lines| && i < |lines| && wait != bed && wait < |lines| && wait < end <= |lines|
    ensures var c := Prepared(lines, target, bed, wait, end);
            |c| == |lines| + 1 && Kept(lines, wait, end, i, c[Shift(bed, i)])
  {
    hide Is, CommentOut, BecomesComment, TargetLine;
    CommentOutIs(lines[i]);
    assert WithTarget(lines, bed, target)[Shift(bed, i)] == lines[i];
  }

  lemma SpliceIs<T>(s: seq<T>, at: nat, added: seq<T>, i: nat)
    requires at <= |s| && i < |s|
    ensures var out := Splice(s, at, added);
            out[at..at + |added|] == added && out[if i < at then i else i + |added|] == s[i]
  {
  }

  lemma TargetInPlace(lines: seq<string>, target: string, bed: nat, wait: nat, end: nat)
    requires SafeTarget(target) && bed < |lines|
    ensures var c := Prepared(lines, target, bed, wait, end);
            |c| == |lines| + 1 == |WithTarget(lines, bed, target)| && c[bed + 1] == "M141" + " S" + target
  {
    hide Is, SafeTarget, CommentOut;
    InsertedKinds(target, LegacyWait);
  }

  lemma EditIs(lines: seq<string>, target: string, bed: nat, wait: nat, end: nat, at: nat)
    requires SafeTarget(target) && bed < |lines| && wait < end <= |lines| && wait <= at < end
    requires wait != bed && at != bed
    ensures var p := Plan(bed, Shift(bed, wait), Shift(bed, end), Shift(bed, at) + 1);
            var m141, block := Out(bed, at, bed) + 1, Out(bed, at, at) + 1;
            && Fits(lines, p)
            && var out := Edited(lines, target, p);
               && |out| == |lines| + 4
               && out[m141] == "M141" + " S" + target
               && out[block..block + 3] == ["M106 P2 S178", "M191" + " S" + target, "M107 P2"]
               && forall i :: 0 <= i < |lines| ==> Kept(lines, wait, end, i, out[Out(bed, at, i)])
  {
    hide Is, SafeTarget, Kept, Splice, WithTarget, Commented;
    TargetInPlace(lines, target, bed, wait, end);
    var p := Plan(bed, Shift(bed, wait), Shift(bed, end), Shift(bed, at) + 1);
    var c, block := Prepared(lines, target, bed, wait, end), [FAN_ON, WaitLine(target), FAN_OFF];
    assert Edited(lines, target, p) == Splice(c, p.place, block);
    hide Edited, TargetLine;
    SpliceIs(c, p.place, block, bed + 1);
    forall i | 0 <= i < |lines|
      ensures Kept(lines, wait, end, i, Splice(c, p.place, block)[Out(bed, at, i)])
    {
      CommentedIs(lines, target, bed, wait, end, i);
      SpliceIs(c, p.place, block, Shift(bed, i));
    }
    hide Prepared;
  }

  /** The rewrite, line by line: the chamber target stands right behind the bed target, the fan-assisted chamber wait as
      one block behind the place in the window, old waits of the window are comments, and every other line is there
      as it was and in its order. */
  lemma RewriteIs(lines: seq<string>, target: string, bed: nat, wait: nat, end: nat, at: nat)
    requires SafeTarget(target) && FirstFrom(BedTarget, lines, 0, bed) && WaitOf(lines, bed, wait)
    requires EndOf(lines, wait, end) && PlaceOf(lines, wait, end, at) && !Present(lines, wait, end)
    ensures PlanOf(lines, target).Planned? && Fits(lines, PlanOf(lines, target).plan)
    ensures var out := Edited(lines, target, PlanOf(lines, target).plan);
            var m141, block := Out(bed, at, bed) + 1, Out(bed, at, at) + 1;
            && |out| == |lines| + 4 && m141 < |out| && block + 3 <= |out|
            && out[m141] == "M141" + " S" + target
            && out[block..block + 3] == ["M106 P2 S178", "M191" + " S" + target, "M107 P2"]
            && forall i :: 0 <= i < |lines| ==> Kept(lines, wait, end, i, out[Out(bed, at, i)])
  {
    hide Is, SafeTarget, PlanAt, Present, Kept, None, PlanOf, Edited;
    RewrittenExactly(lines, target, bed, wait, end);
    PlanIs(lines, target, bed, wait, end, at);
    EditIs(lines, target, bed, wait, end, at);
  }

  // --- How many old waits were commented out -----------------------------------------------------------

  ghost function WaitsIn(lines: seq<string>, from: nat, to: nat): set<int>
    requires to <= |lines|
  {
    set i | from <= i < to && Is(LegacyWait, lines[i])
  }

  lemma {:induction false} CountIsNumber(lines: seq<string>, from: nat, to: nat)
    requires from <= to <= |lines|
    ensures CountWaits(lines, from, to) == |WaitsIn(lines, from, to)|
  {
    hide Is;
    if from < to {
      CountIsNumber(lines, from, to - 1);
      var before := WaitsIn(lines, from, to - 1);
      assert WaitsIn(lines, from, to) == if Is(LegacyWait, lines[to - 1]) then before + {to - 1} else before;
    }
  }

  lemma {:induction false} CountShifts(lines: seq<string>, target: string, bed: nat, from: nat, to: nat)
    requires SafeTarget(target) && bed < |lines| && from <= to <= |lines|
    ensures CountWaits(WithTarget(lines, bed, target), Shift(bed, from), Shift(bed, to)) == CountWaits(lines, from, to)
  {
    hide Is, SafeTarget, TargetLine;
    InsertedKinds(target, LegacyWait);
    var l1 := WithTarget(lines, bed, target);
    if from < to {
      CountShifts(lines, target, bed, from, to - 1);
      assert l1[Shift(bed, to - 1)] == lines[to - 1] && l1[bed + 1] == TargetLine(target);
    }
  }

  /** The count the helper reports is the number of old waits in the window. */
  lemma CountIs(lines: seq<string>, target: string, bed: nat, wait: nat, end: nat, at: nat)
    requires SafeTarget(target) && bed < |lines| && wait < end <= |lines| && wait <= at < end && wait != bed
    ensures var p := Plan(bed, Shift(bed, wait), Shift(bed, end), Shift(bed, at) + 1);
            Fits(lines, p) && WaitsCommented(lines, target, p) == |WaitsIn(lines, wait + 1, end)|
  {
    hide Is, SafeTarget, WithTarget;
    CountShifts(lines, target, bed, wait + 1, end);
    CountIsNumber(lines, wait + 1, end);
  }
}
