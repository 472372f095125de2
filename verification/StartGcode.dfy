/** The start G-code rewriter of processor.js, over the lines of the file. */
module StartGcode {

  // --- Reading one line ---------------------------------------------------------------------

  predicate IsSpace(c: char) {
    var n := c as int;
    9 <= n <= 13 || n == 32 || n == 0xA0 || n == 0x1680 || 0x2000 <= n <= 0x200A
    || n == 0x2028 || n == 0x2029 || n == 0x202F || n == 0x205F || n == 0x3000 || n == 0xFEFF
  }

  predicate IsDigit(c: char) {
    48 <= c as int <= 57
  }

  function BeforeSemicolon(s: string): string {
    if s == [] || s[0] == ';' then [] else [s[0]] + BeforeSemicolon(s[1..])
  }

  function TrimStart(s: string): string {
    if s != [] && IsSpace(s[0]) then TrimStart(s[1..]) else s
  }

  function TrimEnd(s: string): string {
    if s != [] && IsSpace(s[|s| - 1]) then TrimEnd(s[..|s| - 1]) else s
  }

  function SkipDigits(s: string): (rest: string)
    ensures |rest| <= |s| && rest == s[|s| - |rest|..]
    ensures forall i :: 0 <= i < |s| - |rest| ==> IsDigit(s[i])
  {
    if s != [] && IsDigit(s[0]) then SkipDigits(s[1..]) else s
  }

  /** Drops a leading N, digits and the spaces after them. */
  function DropLineNumber(s: string): string {
    if s == [] || s[0] != 'N' then s
    else
      var rest := SkipDigits(s[1..]);
      if |rest| < |s| - 1 && rest != [] && IsSpace(rest[0]) then TrimStart(rest) else s
  }

  function UpperChar(c: char): char {
    if 'a' <= c <= 'z' then c - 'a' + 'A' else c
  }

  function Upper(s: string): string {
    seq(|s|, i requires 0 <= i < |s| => UpperChar(s[i]))
  }

  function Command(line: string): string {
    Upper(DropLineNumber(TrimEnd(TrimStart(BeforeSemicolon(line)))))
  }

  /** s is the word w, alone or followed by white space. */
  predicate StartsWith(s: string, w: string) {
    w <= s && (|s| == |w| || IsSpace(s[|w|]))
  }

  /** What follows word w and at least one white space, without that white space. */
  function AfterWord(s: string, w: string): string
    requires w <= s
  {
    TrimStart(s[|w|..])
  }

  function SkipZeros(s: string): string {
    if s != [] && s[0] == '0' then SkipZeros(s[1..]) else s
  }

  predicate IsHelperFan(s: string) {
    && StartsWith(s, "M106")
    && StartsWith(AfterWord(s, "M106"), "P2")
    && StartsWith(AfterWord(AfterWord(s, "M106"), "P2"), "S178")
  }

  predicate IsSafeZ(s: string) {
    StartsWith(s, "G0")
    && var z := AfterWord(s, "G0");
       "Z5" <= z
       && var rest := z[2..];
          || rest == [] || IsSpace(rest[0])
          || (|rest| > 1 && rest[0] == '.' && rest[1] == '0'
              && var end := SkipZeros(rest[1..]); end == [] || IsSpace(end[0]))
  }

  /** The kinds of line the rewriter looks for. */
  datatype Kind = BedTarget | BedWait | EndMark | ChamberTarget | ChamberWait | HelperFan | SafeZ | LegacyWait

  predicate Is(k: Kind, line: string) {
    var c := Command(line);
    match k
    case BedTarget => StartsWith(c, "M140")
    case BedWait => StartsWith(c, "M190")
    case EndMark => StartsWith(c, "G28") || StartsWith(c, "BED_MESH_CALIBRATE")
    case ChamberTarget => StartsWith(c, "M141")
    case ChamberWait => StartsWith(c, "M191")
    case HelperFan => IsHelperFan(c)
    case SafeZ => IsSafeZ(c)
    case LegacyWait => StartsWith(c, "WAIT_CHAMBER_TEMP")
  }

  /** The characters that tell the kinds apart: a second, third and fourth one. */
  ghost predicate Marked(k: Kind, c: string) {
    match k
    case BedTarget => |c| > 3 && c[0] == 'M' && c[2] == '4' && c[3] == '0'
    case BedWait => |c| > 3 && c[0] == 'M' && c[2] == '9' && c[3] == '0'
    case EndMark => |c| > 2 && ((c[0] == 'G' && c[1] == '2') || c[0] == 'B')
    case ChamberTarget => |c| > 3 && c[0] == 'M' && c[2] == '4' && c[3] == '1'
    case ChamberWait => |c| > 3 && c[0] == 'M' && c[2] == '9' && c[3] == '1'
    case HelperFan => |c| > 3 && c[0] == 'M' && c[2] == '0'
    case SafeZ => |c| > 1 && c[0] == 'G' && c[1] == '0'
    case LegacyWait => |c| > 3 && c[0] == 'W'
  }

  lemma KindIsMarked(k: Kind, line: string)
    requires Is(k, line)
    ensures Marked(k, Command(line))
  {
    hide Command, AfterWord, IsSpace;
  }

  /** A line is of at most one kind. */
  lemma OneKind(j: Kind, k: Kind, line: string)
    requires Is(j, line) && Is(k, line)
    ensures j == k
  {
    hide Is, Command;
    KindIsMarked(j, line);
    KindIsMarked(k, line);
  }

  // --- Commenting out -----------------------------------------------------------------------------

  function Indent(s: string): (indent: string)
    ensures indent <= s
  {
    if s != [] && IsSpace(s[0]) then [s[0]] + Indent(s[1..]) else []
  }

  function CommentOut(line: string): string {
    Indent(line) + "; " + line[|Indent(line)|..]
  }

  /** Removes the two characters after the indentation. */
  function Uncomment(line: string): string {
    var n := |Indent(line)|;
    if |line| < n + 2 then line else line[..n] + line[n + 2..]
  }

  lemma {:induction false} IndentIsPrefix(s: string)
    ensures Indent(s) <= s && TrimStart(Indent(s)) == []
  {
    if s != [] && IsSpace(s[0]) {
      IndentIsPrefix(s[1..]);
      assert Indent(s)[1..] == Indent(s[1..]);
    }
  }

  lemma {:induction false} IndentStops(indent: string, rest: string)
    requires TrimStart(indent) == [] && rest != [] && rest[0] == ';'
    ensures Indent(indent + rest) == indent && BeforeSemicolon(indent + rest) == BeforeSemicolon(indent)
  {
    if indent == [] {
      assert indent + rest == rest;
    } else {
      assert (indent + rest)[1..] == indent[1..] + rest;
      IndentStops(indent[1..], rest);
    }
  }

  lemma {:induction false} BlankHasNoCommand(s: string)
    requires TrimStart(s) == []
    ensures TrimStart(BeforeSemicolon(s)) == []
  {
    if s != [] && s[0] != ';' {
      BlankHasNoCommand(s[1..]);
      assert BeforeSemicolon(s)[1..] == BeforeSemicolon(s[1..]);
    }
  }

  /** A commented-out line is no command of any kind, and un-commenting gives the line back. */
  lemma CommentOutUndone(line: string, k: Kind)
    ensures Uncomment(CommentOut(line)) == line
    ensures !Is(k, CommentOut(line))
  {
    IndentIsPrefix(line);
    var indent, rest := Indent(line), "; " + line[|Indent(line)|..];
    assert CommentOut(line) == indent + rest;
    IndentStops(indent, rest);
    BlankHasNoCommand(indent);
    assert Command(CommentOut(line)) == [];
  }

  // --- The inserted lines ----------------------------------------------------------------------

  predicate IsNameStart(c: char) {
    'A' <= c <= 'Z' || 'a' <= c <= 'z' || c == '_'
  }

  predicate IsVariable(t: string) {
    && |t| > 2 && t[0] == '{' && t[|t| - 1] == '}' && IsNameStart(t[1])
    && forall i :: 1 < i < |t| - 1 ==> IsNameStart(t[i]) || IsDigit(t[i])
  }

  function DigitsValue(t: string): nat
    requires forall i :: 0 <= i < |t| ==> IsDigit(t[i])
  {
    if |t| == 0 then 0
    else
      var d := t[|t| - 1];
      assert IsDigit(d);
      DigitsValue(t[..|t| - 1]) * 10 + (d as int - 48)
  }

  /** One to three digits and an optional fraction, from 0 to 120. */
  predicate IsTemperature(t: string) {
    var whole := t[..|t| - |SkipDigits(t)|];
    var tail := SkipDigits(t);
    && 1 <= |whole| <= 3
    && (tail == [] || (|tail| > 1 && tail[0] == '.' && forall i :: 1 <= i < |tail| ==> IsDigit(tail[i])))
    && (DigitsValue(whole) < 120
        || (DigitsValue(whole) == 120 && forall i :: 1 <= i < |tail| ==> tail[i] == '0'))
  }

  predicate SafeTarget(t: string) {
    IsVariable(t) || IsTemperature(t)
  }

  function TargetLine(t: string): string { "M141" + " S" + t }
  function WaitLine(t: string): string { "M191" + " S" + t }
  const FAN_ON := "M106 P2 S178"
  const FAN_OFF := "M107 P2"

  /** A line whose command is the line itself. */
  ghost predicate Plain(line: string) {
    && line != [] && line[0] == 'M'
    && forall i :: 0 <= i < |line| ==> line[i] != ';' && (IsSpace(line[i]) ==> i < |line| - 1)
  }

  lemma {:induction false} NoSemicolon(s: string)
    requires forall i :: 0 <= i < |s| ==> s[i] != ';'
    ensures BeforeSemicolon(s) == s
  {
    if s != [] {
      NoSemicolon(s[1..]);
    }
  }

  lemma PlainCommand(line: string)
    requires Plain(line)
    ensures Command(line) == Upper(line)
  {
    NoSemicolon(line);
  }

  predicate PlainChar(c: char) {
    c != ';' && !IsSpace(c)
  }

  lemma TargetCharsArePlain(c: char)
    requires IsDigit(c) || IsNameStart(c) || c == '.' || c == '{' || c == '}'
    ensures PlainChar(c)
  {
  }

  lemma VariableIsPlain(t: string)
    requires IsVariable(t)
    ensures forall i :: 0 <= i < |t| ==> PlainChar(t[i])
  {
    hide PlainChar;
    forall i | 0 <= i < |t|
      ensures PlainChar(t[i])
    {
      TargetCharsArePlain(t[i]);
    }
  }

  lemma TemperatureIsPlain(t: string)
    requires IsTemperature(t)
    ensures t != [] && forall i :: 0 <= i < |t| ==> PlainChar(t[i])
  {
    var tail := SkipDigits(t);
    hide SkipDigits, DigitsValue, PlainChar, IsDigit;
    forall i | 0 <= i < |t|
      ensures PlainChar(t[i])
    {
      var j := i - (|t| - |tail|);
      if j >= 0 {
        assert t[i] == tail[j];
      }
      TargetCharsArePlain(t[i]);
    }
  }

  lemma SafeTargetIsPlain(t: string)
    requires SafeTarget(t)
    ensures t != [] && forall i :: 0 <= i < |t| ==> PlainChar(t[i])
  {
    hide IsTemperature, PlainChar;
    if IsVariable(t) {
      VariableIsPlain(t);
    } else {
      TemperatureIsPlain(t);
    }
  }

  lemma ChamberLineKinds(word: string, t: string, k: Kind)
    requires SafeTarget(t) && word in {"M141", "M191"} && Is(k, word + " S" + t)
    ensures k == if word == "M141" then ChamberTarget else ChamberWait
  {
    ChamberLineCommand(word, t);
    hide SafeTarget, Command, AfterWord;
    KindIsMarked(k, word + " S" + t);
  }

  lemma ChamberLineCommand(word: string, t: string)
    requires SafeTarget(t) && word in {"M141", "M191"}
    ensures var c := Command(word + " S" + t); |c| > 4 && c[..4] == word && c[4] == ' '
  {
    SafeTargetIsPlain(t);
    hide SafeTarget, Command;
    var line := word + " S" + t;
    assert Plain(line);
    PlainCommand(line);
  }

  lemma FanLinesArePlain()
    ensures Plain(FAN_ON) && Plain(FAN_OFF)
  {
  }

  lemma FanLineKinds(line: string, k: Kind)
    requires line in {FAN_ON, FAN_OFF} && Is(k, line)
    ensures k == HelperFan
  {
    FanLinesArePlain();
    PlainCommand(line);
    KindIsMarked(k, line);
    var c := Command(line);
    assert c == Upper(line);
    hide Command, Is, Plain;
    assert c[0] == 'M' && c[2] == '0';
  }

  /** The four inserted lines are of the kinds they are meant to be. */
  lemma InsertedKinds(t: string, k: Kind)
    requires SafeTarget(t)
    ensures Is(ChamberTarget, TargetLine(t)) && Is(ChamberWait, WaitLine(t))
    ensures Is(k, TargetLine(t)) ==> k == ChamberTarget
    ensures Is(k, WaitLine(t)) ==> k == ChamberWait
    ensures Is(k, FAN_ON) || Is(k, FAN_OFF) ==> k == HelperFan
  {
    ChamberLineCommand("M141", t);
    ChamberLineCommand("M191", t);
    hide SafeTarget, Command;
    if Is(k, TargetLine(t)) {
      ChamberLineKinds("M141", t, k);
    }
    if Is(k, WaitLine(t)) {
      ChamberLineKinds("M191", t, k);
    }
    if Is(k, FAN_ON) {
      FanLineKinds(FAN_ON, k);
    }
    if Is(k, FAN_OFF) {
      FanLineKinds(FAN_OFF, k);
    }
  }

  // --- The rewrite, declaratively ---------------------------------------------------------------

  datatype Reason = EmptyInput | UnsafeTarget | NoBedTarget | NoBedWait | AlreadyPresent

  /** First line of kind k at index from or later, else the number of lines. */
  function First(k: Kind, lines: seq<string>, from: nat): (i: nat)
    requires from <= |lines|
    ensures from <= i <= |lines| && (i < |lines| ==> Is(k, lines[i]))
    ensures forall j :: from <= j < i ==> !Is(k, lines[j])
    decreases |lines| - from
  {
    if from == |lines| || Is(k, lines[from]) then from else First(k, lines, from + 1)
  }

  predicate Any(k: Kind, lines: seq<string>, from: nat, to: nat)
    requires from <= to <= |lines|
  {
    exists i :: from <= i < to && Is(k, lines[i])
  }

  /** Where the edit goes: the bed target and bed wait, and in the lines with M141 in place, the end of the
      window and the place of the chamber wait. */
  datatype Plan = Plan(bed: nat, wait: nat, end: nat, place: nat)

  function BedWaitIndex(lines: seq<string>, bed: nat): nat
    requires bed < |lines|
  {
    var after := First(BedWait, lines, bed + 1);
    if after < |lines| then after else First(BedWait, lines, 0)
  }

  function Splice<T>(s: seq<T>, at: nat, added: seq<T>): (out: seq<T>)
    requires at <= |s|
    ensures |out| == |s| + |added|
  {
    s[..at] + added + s[at..]
  }

  function WithTarget(lines: seq<string>, bed: nat, target: string): seq<string>
    requires bed < |lines|
  {
    Splice(lines, bed + 1, [TargetLine(target)])
  }

  predicate Blank(lines: seq<string>) {
    forall l <- lines :: TrimStart(l) == []
  }

  datatype Outcome = Refused(reason: Reason) | Planned(plan: Plan)

  /** Why the file is refused, or where the edit goes. */
  function PlanOf(lines: seq<string>, target: string): Outcome {
    if Blank(lines) then Refused(EmptyInput)
    else if !SafeTarget(target) then Refused(UnsafeTarget)
    else
      var bed := First(BedTarget, lines, 0);
      if bed == |lines| then Refused(NoBedTarget)
      else
        var wait := BedWaitIndex(lines, bed);
        if wait == |lines| then Refused(NoBedWait)
        else
          var end := First(EndMark, lines, wait + 1);
          if Any(ChamberTarget, lines, 0, end) || Any(ChamberWait, lines, 0, end)
             || Any(HelperFan, lines, wait + 1, end)
          then Refused(AlreadyPresent)
          else Planned(PlanAt(lines, target, bed, wait))
  }

  function PlanAt(lines: seq<string>, target: string, bed: nat, wait: nat): Plan
    requires bed < |lines| && wait < |lines|
  {
    var l1 := WithTarget(lines, bed, target);
    var w1 := if bed < wait then wait + 1 else wait;
    var e1 := First(EndMark, l1, w1 + 1);
    var z := First(SafeZ, l1, w1 + 1);
    Plan(bed, w1, e1, if z < e1 then z + 1 else w1 + 1)
  }

  /** The old waits between two indices commented out. */
  function Commented(lines: seq<string>, from: nat, to: nat): seq<string> {
    seq(|lines|, i requires 0 <= i < |lines| =>
          if from <= i < to && Is(LegacyWait, lines[i]) then CommentOut(lines[i]) else lines[i])
  }

  predicate Fits(lines: seq<string>, p: Plan) {
    p.bed < |lines| && p.wait < p.place <= p.end <= |lines| + 1
  }

  function CountWaits(lines: seq<string>, from: nat, to: nat): nat
    requires from <= to <= |lines|
  {
    if from == to then 0 else CountWaits(lines, from, to - 1) + if Is(LegacyWait, lines[to - 1]) then 1 else 0
  }

  /** How many old waits the edit comments out. */
  function WaitsCommented(lines: seq<string>, target: string, p: Plan): nat
    requires Fits(lines, p)
  {
    CountWaits(WithTarget(lines, p.bed, target), p.wait + 1, p.end)
  }

  function Edited(lines: seq<string>, target: string, p: Plan): seq<string>
    requires Fits(lines, p)
  {
    var c := Commented(WithTarget(lines, p.bed, target), p.wait + 1, p.end);
    Splice(c, p.place, [FAN_ON, WaitLine(target), FAN_OFF])
  }

  lemma PlanFits(lines: seq<string>, target: string)
    requires PlanOf(lines, target).Planned?
    ensures Fits(lines, PlanOf(lines, target).plan)
  {
    hide Is, SafeTarget, First, Any, Blank;
  }

  // --- The source's own form ------------------------------------------------------------------------

  method Find(k: Kind, lines: seq<string>, from: nat) returns (i: nat)
    requires from <= |lines|
    ensures i == First(k, lines, from)
  {
    hide Is;
    i := from;
    while i < |lines|
      invariant from <= i <= |lines| && First(k, lines, from) == First(k, lines, i)
    {
      if Is(k, lines[i]) {
        return;
      }
      i := i + 1;
    }
  }

  method CommentWaits(input: seq<string>, from: nat, to: nat) returns (lines: seq<string>, count: nat)
    requires from <= to <= |input|
    ensures lines == Commented(input, from, to) && |lines| == |input|
    ensures count == CountWaits(input, from, to)
  {
    hide Is, CommentOut;
    lines, count := input, 0;
    for i := from to to
      invariant lines == Commented(input, from, i)
      invariant count == CountWaits(input, from, i)
    {
      if Is(LegacyWait, lines[i]) {
        lines := lines[i := CommentOut(lines[i])];
        count := count + 1;
      }
    }
  }

  datatype Result = Rejected(reason: Reason) | Rewritten(lines: seq<string>, commented: nat)

  /** processGcode between splitting the input into lines and joining the result. */
  method ProcessGcode(input: seq<string>, target: string) returns (r: Result)
    ensures match PlanOf(input, target)
            case Refused(reason) => r == Rejected(reason)
            case Planned(p) =>
              Fits(input, p) && r == Rewritten(Edited(input, target, p), WaitsCommented(input, target, p))
  {
    hide Is, SafeTarget, First, Any, Blank, PlanAt, Edited, WaitsCommented;
    if Blank(input) {
      return Rejected(EmptyInput);
    }
    if !SafeTarget(target) {
      return Rejected(UnsafeTarget);
    }
    var lines := input;
    var bed := Find(BedTarget, lines, 0);
    if bed == |lines| {
      return Rejected(NoBedTarget);
    }
    var wait := Find(BedWait, lines, bed + 1);
    if wait == |lines| {
      wait := Find(BedWait, lines, 0);
    }
    if wait == |lines| {
      return Rejected(NoBedWait);
    }
    var end := Find(EndMark, lines, wait + 1);
    if Any(ChamberTarget, lines, 0, end) || Any(ChamberWait, lines, 0, end)
       || Any(HelperFan, lines, wait + 1, end)
    {
      return Rejected(AlreadyPresent);
    }
    var commented;
    lines, commented := Insert(lines, target, bed, wait);
    PlanFits(input, target);
    r := Rewritten(lines, commented);
  }

  /** The editing half, once the bed target and the bed wait are found. */
  method Insert(input: seq<string>, target: string, bed: nat, bedWait: nat) returns (lines: seq<string>, commented: nat)
    requires bed < |input| && bedWait < |input|
    ensures var p := PlanAt(input, target, bed, bedWait);
            Fits(input, p) && lines == Edited(input, target, p) && commented == WaitsCommented(input, target, p)
  {
    hide Is, Commented, First, TargetLine, WaitLine;
    var wait := bedWait;
    lines := input[..bed + 1] + [TargetLine(target)] + input[bed + 1..];
    if bed < wait {
      wait := wait + 1;
    }
    var end := Find(EndMark, lines, wait + 1);
    var safeZ := Find(SafeZ, lines, wait + 1);
    var insertAt := if safeZ < end then safeZ + 1 else wait + 1;
    lines, commented := CommentWaits(lines, wait + 1, end);
    lines := lines[..insertAt] + [FAN_ON, WaitLine(target), FAN_OFF] + lines[insertAt..];
  }

  // --- The rewrite can be undone ------------------------------------------------------------------

  function Unsplice<T>(s: seq<T>, at: nat, n: nat): (out: seq<T>)
    requires at + n <= |s|
    ensures |out| == |s| - n
  {
    s[..at] + s[at + n..]
  }

  function Unmark(lines: seq<string>, marks: set<nat>): (out: seq<string>)
    ensures |out| == |lines|
  {
    seq(|lines|, i requires 0 <= i < |lines| => if i in marks then Uncomment(lines[i]) else lines[i])
  }

  /** Deletes the four inserted lines and un-comments the marked ones. */
  function Undo(out: seq<string>, p: Plan, marks: set<nat>): seq<string>
    requires p.place + 3 <= |out| && p.bed + 2 <= |out| - 3
  {
    Unsplice(Unmark(Unsplice(out, p.place, 3), marks), p.bed + 1, 1)
  }

  function Marks(lines: seq<string>, target: string, p: Plan): set<nat>
    requires Fits(lines, p)
  {
    var l1 := WithTarget(lines, p.bed, target);
    set i: nat | i < |l1| && p.wait < i < p.end && Is(LegacyWait, l1[i])
  }

  /** Deleting the four lines and un-commenting the marked waits gives back the original lines. */
  lemma RewriteIsUndone(lines: seq<string>, target: string)
    requires PlanOf(lines, target).Planned?
    ensures var p := PlanOf(lines, target).plan;
            && Fits(lines, p)
            && Undo(Edited(lines, target, p), p, Marks(lines, target, p)) == lines
  {
    hide Is, SafeTarget, CommentOut, Uncomment, PlanOf;
    PlanFits(lines, target);
    EditIsUndone(lines, target, PlanOf(lines, target).plan);
  }

  lemma SpliceUndone<T>(s: seq<T>, at: nat, added: seq<T>)
    requires at <= |s|
    ensures Unsplice(Splice(s, at, added), at, |added|) == s
  {
  }

  lemma UndoInvertsSplices(lines: seq<string>, added: string, c: seq<string>, block: seq<string>, p: Plan,
                           marks: set<nat>)
    requires p.bed < |lines| && p.place <= |c| && |block| == 3
    requires Unmark(c, marks) == Splice(lines, p.bed + 1, [added])
    ensures Undo(Splice(c, p.place, block), p, marks) == lines
  {
    SpliceUndone(c, p.place, block);
    SpliceUndone(lines, p.bed + 1, [added]);
    hide Unmark, Splice, Unsplice;
  }

  lemma EditIsSplices(lines: seq<string>, target: string, p: Plan)
    requires Fits(lines, p)
    ensures var l1 := WithTarget(lines, p.bed, target);
            var c := Commented(l1, p.wait + 1, p.end);
            && l1 == Splice(lines, p.bed + 1, [TargetLine(target)]) && p.place <= |c|
            && Edited(lines, target, p) == Splice(c, p.place, [FAN_ON, WaitLine(target), FAN_OFF])
  {
    hide Is, CommentOut, Splice, TargetLine, WaitLine;
  }

  lemma EditIsUndone(lines: seq<string>, target: string, p: Plan)
    requires Fits(lines, p)
    ensures Undo(Edited(lines, target, p), p, Marks(lines, target, p)) == lines
  {
    MarksUndone(lines, target, p);
    EditIsSplices(lines, target, p);
    hide Is, Edited, Commented, Marks, Unmark, Splice, Undo, TargetLine, WaitLine, WithTarget;
    var l1 := WithTarget(lines, p.bed, target);
    UndoInvertsSplices(lines, TargetLine(target), Commented(l1, p.wait + 1, p.end),
                       [FAN_ON, WaitLine(target), FAN_OFF], p, Marks(lines, target, p));
  }

  lemma MarksUndone(lines: seq<string>, target: string, p: Plan)
    requires Fits(lines, p)
    ensures var l1 := WithTarget(lines, p.bed, target);
            Unmark(Commented(l1, p.wait + 1, p.end), Marks(lines, target, p)) == l1
  {
    var l1 := WithTarget(lines, p.bed, target);
    hide Is, CommentOut, Uncomment, WithTarget, TargetLine;
    forall i | 0 <= i < |l1|
      ensures Uncomment(CommentOut(l1[i])) == l1[i]
    {
      CommentOutUndone(l1[i], LegacyWait);
    }
  }

  // --- Where the lines end up, and running the helper twice -----------------------------------------

  /** Commenting out old waits changes the kind of no other line. */
  lemma CommentedKinds(lines: seq<string>, from: nat, to: nat, i: nat, k: Kind)
    requires i < |lines| && k != LegacyWait
    ensures Is(k, Commented(lines, from, to)[i]) <==> Is(k, lines[i])
  {
    hide Is, CommentOut;
    CommentOutUndone(lines[i], k);
    if Is(k, lines[i]) && Is(LegacyWait, lines[i]) {
      OneKind(k, LegacyWait, lines[i]);
    }
  }

  /** What a planned edit is made of: the facts about the original lines its positions stand for. */
  lemma PlanMeans(lines: seq<string>, target: string)
    requires PlanOf(lines, target).Planned?
    ensures var p := PlanOf(lines, target).plan;
            var l1 := WithTarget(lines, p.bed, target);
            && SafeTarget(target) && Fits(lines, p)
            && p.bed == First(BedTarget, lines, 0)
            && Is(BedWait, l1[p.wait]) && p.wait != p.bed + 1 && p.wait != p.bed
            && (p.wait < p.bed ==> p.wait == First(BedWait, lines, 0))
            && p.end == First(EndMark, l1, p.wait + 1)
            && (p.place == p.wait + 1 || Is(SafeZ, l1[p.place - 1]))
  {
    hide Is, SafeTarget, TargetLine, First, Blank, Any;
    PlanFits(lines, target);
    var p := PlanOf(lines, target).plan;
    var wait := BedWaitIndex(lines, p.bed);
    if wait == p.bed {
      OneKind(BedTarget, BedWait, lines[wait]);
    }
  }

  /** The chamber wait does not separate the bed target from the line inserted after it. */
  lemma PlaceAvoidsBed(lines: seq<string>, target: string)
    requires PlanOf(lines, target).Planned?
    ensures PlanOf(lines, target).plan.place != PlanOf(lines, target).plan.bed + 1
  {
    hide Is, SafeTarget, PlanOf, TargetLine;
    PlanMeans(lines, target);
    var p := PlanOf(lines, target).plan;
    var l1 := WithTarget(lines, p.bed, target);
    assert l1[p.bed] == lines[p.bed];
    if p.place == p.bed + 1 {
      OneKind(BedTarget, if p.place == p.wait + 1 then BedWait else SafeZ, l1[p.bed]);
    }
  }

  lemma BedInCommented(lines: seq<string>, target: string, p: Plan)
    requires Fits(lines, p) && SafeTarget(target) && p.bed == First(BedTarget, lines, 0)
    ensures var c := Commented(WithTarget(lines, p.bed, target), p.wait + 1, p.end);
            && |c| == |lines| + 1 && c[p.bed + 1] == TargetLine(target)
            && forall i :: 0 <= i <= p.bed ==> (Is(BedTarget, c[i]) <==> i == p.bed)
  {
    hide Is, SafeTarget, TargetLine, CommentOut, First;
    var l1 := WithTarget(lines, p.bed, target);
    var c := Commented(l1, p.wait + 1, p.end);
    assert c[p.bed + 1] == TargetLine(target) by {
      InsertedKinds(target, LegacyWait);
    }
    forall i | 0 <= i <= p.bed
      ensures Is(BedTarget, c[i]) <==> i == p.bed
    {
      CommentedKinds(l1, p.wait + 1, p.end, i, BedTarget);
      assert l1[i] == lines[i];
    }
  }

  /** M141 directly follows the first M140 of the output. */
  lemma TargetFollowsBed(lines: seq<string>, target: string)
    requires PlanOf(lines, target).Planned?
    ensures var p := PlanOf(lines, target).plan;
            && Fits(lines, p)
            && var out := Edited(lines, target, p);
               var bed := First(BedTarget, out, 0);
               && bed + 1 < |out| && out[bed + 1] == TargetLine(target)
               && bed == if p.place <= p.bed then p.bed + 3 else p.bed
  {
    hide Is, SafeTarget, PlanOf, TargetLine, WaitLine, First, Commented, Splice;
    PlanMeans(lines, target);
    PlaceAvoidsBed(lines, target);
    var p := PlanOf(lines, target).plan;
    BedInCommented(lines, target, p);
    InsertedKinds(target, BedTarget);
    var c := Commented(WithTarget(lines, p.bed, target), p.wait + 1, p.end);
    SpliceKeepsFirst(BedTarget, c, p.bed, p.place, [FAN_ON, WaitLine(target), FAN_OFF]);
  }

  /** Splicing in lines of other kinds, but not right after it, moves the first line of a kind together with the
      line after it. */
  lemma SpliceKeepsFirst(k: Kind, c: seq<string>, first: nat, at: nat, added: seq<string>)
    requires first + 1 < |c| && at <= |c| && at != first + 1
    requires forall i :: 0 <= i <= first ==> (Is(k, c[i]) <==> i == first)
    requires forall i :: 0 <= i < |added| ==> !Is(k, added[i])
    ensures var out := Splice(c, at, added);
            var moved := if at <= first then first + |added| else first;
            First(k, out, 0) == moved && out[moved + 1] == c[first + 1]
  {
    hide Is;
    var out := Splice(c, at, added);
    var moved := if at <= first then first + |added| else first;
    forall i | 0 <= i <= moved
      ensures Is(k, out[i]) <==> i == moved
    {
      assert out[i] == if i < at then c[i] else if i < at + |added| then added[i - at] else c[i - |added|];
    }
    assert Is(k, out[moved]);
  }

  /** M191 lies after the bed wait and before the next G28 or mesh line. */
  lemma WaitInsideWindow(lines: seq<string>, target: string)
    requires PlanOf(lines, target).Planned?
    ensures var p := PlanOf(lines, target).plan;
            && Fits(lines, p)
            && var out := Edited(lines, target, p);
               && Is(BedWait, out[p.wait]) && out[p.place + 1] == WaitLine(target)
               && p.wait < p.place + 1 < First(EndMark, out, p.wait + 1)
               && p.wait != p.bed && (p.wait < p.bed ==> First(BedWait, out, 0) == p.wait)
  {
    hide Is, SafeTarget, PlanOf, TargetLine, WaitLine, CommentOut;
    PlanMeans(lines, target);
    var p := PlanOf(lines, target).plan;
    var out := Edited(lines, target, p);
    var l1 := WithTarget(lines, p.bed, target);
    var c := Commented(l1, p.wait + 1, p.end);
    forall i | 0 <= i < p.place
      ensures out[i] == c[i] && (Is(BedWait, out[i]) <==> Is(BedWait, l1[i]))
      ensures (Is(EndMark, out[i]) <==> Is(EndMark, l1[i]))
    {
      CommentedKinds(l1, p.wait + 1, p.end, i, BedWait);
      CommentedKinds(l1, p.wait + 1, p.end, i, EndMark);
    }
    InsertedKinds(target, EndMark);
    assert out[p.place] == FAN_ON && out[p.place + 1] == WaitLine(target);
    assert forall i :: p.wait < i <= p.place + 1 ==> !Is(EndMark, out[i]);
  }

  /** Running the helper on any of its outputs is always refused, whatever target is asked for, and also when
      the bed wait comes before the bed target. */
  lemma TwiceIsRefused(lines: seq<string>, target: string, again: string)
    requires PlanOf(lines, target).Planned?
    ensures Fits(lines, PlanOf(lines, target).plan)
    ensures PlanOf(Edited(lines, target, PlanOf(lines, target).plan), again).Refused?
  {
    hide Is, SafeTarget, TargetLine, WaitLine, Edited, PlanAt;
    PlanFits(lines, target);
    TargetFollowsBed(lines, target);
    WaitInsideWindow(lines, target);
    PlanMeans(lines, target);
    InsertedKinds(target, BedWait);
    var p := PlanOf(lines, target).plan;
    var out := Edited(lines, target, p);
    var bed := First(BedTarget, out, 0);
    var wait := BedWaitIndex(out, bed);
    if wait < |out| {
      var end := First(EndMark, out, wait + 1);
      if wait > bed {
        assert Any(ChamberTarget, out, 0, end);
      } else {
        assert wait == p.wait;
        assert Any(ChamberWait, out, 0, end);
      }
    }
  }
}
