/** processor.js from the text box to the text box: splitting into lines, the rewrite, and joining again. */
module GcodeText {
  import opened StartGcode

  const LF := "\n"
  const CRLF := "\r\n"

  predicate StartsCrlf(s: string) {
    |s| > 1 && s[0] == '\r' && s[1] == '\n'
  }

  predicate HasCrlf(s: string) {
    s != [] && (StartsCrlf(s) || HasCrlf(s[1..]))
  }

  /** Every CRLF replaced by LF. */
  function Normalise(s: string): string {
    if s == [] then [] else if StartsCrlf(s) then LF + Normalise(s[2..]) else [s[0]] + Normalise(s[1..])
  }

  function Split(s: string): (lines: seq<string>)
    ensures lines != []
  {
    if s == [] then [[]]
    else if s[0] == '\n' then [[]] + Split(s[1..])
    else
      var rest := Split(s[1..]);
      [[s[0]] + rest[0]] + rest[1..]
  }

  function Join(lines: seq<string>, newline: string): string {
    if lines == [] then [] else if |lines| == 1 then lines[0] else lines[0] + newline + Join(lines[1..], newline)
  }

  predicate EndsLine(s: string) {
    s != [] && s[|s| - 1] == '\n'
  }

  function Newline(s: string): string {
    if HasCrlf(s) then CRLF else LF
  }

  /** The lines the helper works on. */
  function Lines(s: string): seq<string> {
    var lines := Split(Normalise(s));
    if EndsLine(s) then lines[..|lines| - 1] else lines
  }

  /** The text of rewritten lines, in the line ends of the input. */
  function Text(lines: seq<string>, input: string): string {
    Join(lines, Newline(input)) + if EndsLine(input) then Newline(input) else []
  }

  function Trim(s: string): string {
    TrimEnd(TrimStart(s))
  }

  // --- Blank input ---------------------------------------------------------------------------------------

  predicate AllSpace(s: string) {
    forall c <- s :: IsSpace(c)
  }

  lemma {:induction false} TrimStartIsEmpty(s: string)
    ensures TrimStart(s) == [] <==> AllSpace(s)
    ensures TrimStart(s) != [] ==> !IsSpace(TrimStart(s)[0])
  {
    hide IsSpace;
    if s != [] {
      TrimStartIsEmpty(s[1..]);
      assert s == [s[0]] + s[1..];
      assert s[0] in s;
    }
  }

  lemma {:induction false} TrimEndKeepsStart(s: string)
    requires s != [] && !IsSpace(s[0])
    ensures TrimEnd(s) != []
  {
    hide IsSpace;
    if IsSpace(s[|s| - 1]) {
      TrimEndKeepsStart(s[..|s| - 1]);
    }
  }

  lemma TrimIsEmpty(s: string)
    ensures Trim(s) == [] <==> AllSpace(s)
  {
    TrimStartIsEmpty(s);
    hide IsSpace, AllSpace;
    if TrimStart(s) != [] {
      TrimEndKeepsStart(TrimStart(s));
    }
  }

  lemma {:induction false} NormaliseSpace(s: string)
    ensures AllSpace(Normalise(s)) <==> AllSpace(s)
  {
    if StartsCrlf(s) {
      NormaliseSpace(s[2..]);
      assert s == ['\r', '\n'] + s[2..];
      assert IsSpace('\r') && IsSpace('\n');
      hide IsSpace;
    } else if s != [] {
      NormaliseSpace(s[1..]);
      assert s == [s[0]] + s[1..];
      hide IsSpace;
    }
  }

  lemma {:induction false} SplitSpace(s: string)
    ensures AllSpace(s) <==> Blank(Split(s))
  {
    if s == [] {
    } else {
      SplitSpace(s[1..]);
      assert s == [s[0]] + s[1..];
      assert IsSpace('\n');
      var rest := Split(s[1..]);
      assert rest == [rest[0]] + rest[1..];
      var first := if s[0] == '\n' then [] else [s[0]] + rest[0];
      assert TrimStart(first) == [] <==> s[0] == '\n' || (IsSpace(s[0]) && TrimStart(rest[0]) == []) by {
        assert s[0] != '\n' ==> first[1..] == rest[0];
      }
      assert forall l :: l in Split(s) <==> l == first || l in (if s[0] == '\n' then rest else rest[1..]);
      hide IsSpace, TrimStart;
    }
  }

  lemma SplitBreak(s: string)
    requires s != [] && s[0] == '\n'
    ensures Split(s) == [[]] + Split(s[1..])
  {
  }

  lemma SplitOther(s: string)
    requires s != [] && s[0] != '\n'
    ensures Split(s) == [[s[0]] + Split(s[1..])[0]] + Split(s[1..])[1..]
  {
  }

  lemma SplitNothing()
    ensures Split([]) == [[]]
  {
  }

  /** The last line is empty, and not the only one, exactly when the text ends its last line. */
  lemma {:induction false} LastSplit(s: string)
    requires s != []
    ensures var lines := Split(s);
            && (lines[|lines| - 1] == [] <==> s[|s| - 1] == '\n')
            && (s[|s| - 1] == '\n' ==> |lines| > 1)
  {
    hide Split;
    var rest := Split(s[1..]);
    if |s| == 1 {
      SplitNothing();
      assert s[1..] == [];
    } else {
      LastSplit(s[1..]);
      assert s[1..][|s| - 2] == s[|s| - 1];
    }
    if s[0] == '\n' {
      SplitBreak(s);
    } else {
      SplitOther(s);
    }
  }

  lemma {:induction false} NormaliseEnd(s: string)
    ensures Normalise(s) == [] <==> s == []
    ensures EndsLine(Normalise(s)) <==> EndsLine(s)
  {
    if StartsCrlf(s) {
      NormaliseEnd(s[2..]);
      hide Normalise;
      EndOfTail(LF, Normalise(s[2..]));
      EndOfTail(CRLF, s[2..]);
      assert s == CRLF + s[2..];
      NormaliseCrlf(s);
    } else if s != [] {
      NormaliseEnd(s[1..]);
      hide Normalise;
      EndOfTail([s[0]], Normalise(s[1..]));
      EndOfTail([s[0]], s[1..]);
      assert s == [s[0]] + s[1..];
      NormaliseOther(s);
    }
  }

  lemma EndOfTail(head: string, tail: string)
    ensures EndsLine(head + tail) <==> EndsLine(if tail == [] then head else tail)
  {
  }

  lemma NormaliseCrlf(s: string)
    requires StartsCrlf(s)
    ensures Normalise(s) == LF + Normalise(s[2..])
  {
  }

  lemma NormaliseOther(s: string)
    requires s != [] && !StartsCrlf(s)
    ensures Normalise(s) == [s[0]] + Normalise(s[1..])
  {
  }

  /** A blank text is one whose lines are all blank. */
  lemma BlankText(s: string)
    ensures Trim(s) == [] <==> Blank(Lines(s))
  {
    TrimIsEmpty(s);
    NormaliseSpace(s);
    SplitSpace(Normalise(s));
    NormaliseEnd(s);
    hide AllSpace, Split, Normalise, TrimStart, Trim;
    if EndsLine(s) {
      LastSplit(Normalise(s));
      var all := Split(Normalise(s));
      assert all == Lines(s) + [[]];
      assert TrimStart([]) == [] by {
        TrimStartIsEmpty([]);
        NothingIsSpace();
      }
      assert forall l :: l in all <==> l in Lines(s) || l == [];
    }
  }

  lemma NothingIsSpace()
    ensures AllSpace([])
  {
  }

  // --- The source's own form ------------------------------------------------------------------------------

  datatype TextResult = Failed(reason: Reason) | Done(text: string, commented: nat)

  /** processGcode whole. */
  method ProcessText(input: string, chamberTarget: string) returns (r: TextResult)
    ensures match PlanOf(Lines(input), Trim(chamberTarget))
            case Refused(reason) => r == Failed(reason)
            case Planned(p) =>
              && Fits(Lines(input), p)
              && r == Done(Text(Edited(Lines(input), Trim(chamberTarget), p), input),
                           WaitsCommented(Lines(input), Trim(chamberTarget), p))
  {
    hide PlanOf, Edited, WaitsCommented, Lines, Text;
    if Trim(input) == [] {
      BlankText(input);
      BlankIsRefused(Lines(input), Trim(chamberTarget));
      return Failed(EmptyInput);
    }
    var target := Trim(chamberTarget);
    var lines := Lines(input);
    var rewrite := ProcessGcode(lines, target);
    match rewrite
    case Rejected(reason) => r := Failed(reason);
    case Rewritten(out, commented) => r := Done(Text(out, input), commented);
  }

  lemma BlankIsRefused(lines: seq<string>, target: string)
    requires Blank(lines)
    ensures PlanOf(lines, target) == Refused(EmptyInput)
  {
  }

  // --- The text comes back ----------------------------------------------------------------------------------

  /** Every LF written as the given line end. */
  function Relined(s: string, newline: string): string {
    if s == [] then [] else (if s[0] == '\n' then newline else [s[0]]) + Relined(s[1..], newline)
  }

  lemma JoinCons(first: string, rest: seq<string>, newline: string)
    requires rest != []
    ensures Join([first] + rest, newline) == first + newline + Join(rest, newline)
  {
    assert ([first] + rest)[1..] == rest;
  }

  lemma JoinPrefix(c: string, lines: seq<string>, newline: string)
    requires lines != []
    ensures Join([c + lines[0]] + lines[1..], newline) == c + Join(lines, newline)
  {
    if |lines| > 1 {
      JoinCons(c + lines[0], lines[1..], newline);
      JoinCons(lines[0], lines[1..], newline);
      assert [lines[0]] + lines[1..] == lines;
    }
  }

  lemma {:induction false} JoinSplit(s: string, newline: string)
    ensures Join(Split(s), newline) == Relined(s, newline)
  {
    if s != [] {
      JoinSplit(s[1..], newline);
      if s[0] == '\n' {
        JoinCons([], Split(s[1..]), newline);
      } else {
        JoinPrefix([s[0]], Split(s[1..]), newline);
      }
      hide Join;
    }
  }

  lemma {:induction false} JoinPops(lines: seq<string>, newline: string)
    requires lines != [] && lines[|lines| - 1] == []
    ensures Join(lines, newline) == if |lines| == 1 then [] else Join(lines[..|lines| - 1], newline) + newline
  {
    if |lines| > 1 {
      JoinPops(lines[1..], newline);
      assert lines[..|lines| - 1][1..] == lines[1..][..|lines| - 2];
    }
  }

  lemma TextOfLines(s: string)
    requires s != []
    ensures Text(Lines(s), s) == Relined(Normalise(s), Newline(s))
  {
    JoinSplit(Normalise(s), Newline(s));
    NormaliseEnd(s);
    if EndsLine(s) {
      LastSplit(Normalise(s));
      JoinPops(Split(Normalise(s)), Newline(s));
    }
  }

  /** The text uses one kind of line end throughout. */
  predicate Uniform(s: string) {
    HasCrlf(s) ==> forall i :: 0 <= i < |s| && s[i] == '\n' ==> i > 0 && s[i - 1] == '\r'
  }

  lemma {:induction false} PlainIsKept(s: string)
    requires !HasCrlf(s)
    ensures Normalise(s) == s && Relined(s, LF) == s
  {
    if s != [] {
      PlainIsKept(s[1..]);
    }
  }

  lemma {:induction false} CrlfIsRestored(s: string)
    ensures var r := Relined(Normalise(s), CRLF);
            && |r| >= |s|
            && (r == s <==> forall i :: 0 <= i < |s| && s[i] == '\n' ==> i > 0 && s[i - 1] == '\r')
            && (r != s ==> |r| > |s|)
  {
    if s == [] {
    } else if StartsCrlf(s) {
      var t := s[2..];
      CrlfIsRestored(t);
      assert (LF + Normalise(t))[1..] == Normalise(t);
      assert s == CRLF + t;
      assert forall i :: 0 <= i < |t| ==> t[i] == s[i + 2];
    } else {
      var t := s[1..];
      CrlfIsRestored(t);
      assert ([s[0]] + Normalise(t))[1..] == Normalise(t);
      assert s == [s[0]] + t;
      assert forall i :: 0 <= i < |t| ==> t[i] == s[i + 1];
    }
  }

  /** Splitting a text and joining its lines gives it back exactly when it uses one kind of line end; otherwise it
      comes out longer, with CRLF throughout. */
  lemma TextComesBack(s: string)
    requires s != []
    ensures Text(Lines(s), s) == s <==> Uniform(s)
  {
    TextOfLines(s);
    if HasCrlf(s) {
      CrlfIsRestored(s);
    } else {
      PlainIsKept(s);
    }
  }

  /** The undo of the rewrite, on the text: it gives back the input exactly when that is uniform. */
  lemma RewrittenTextIsUndone(input: string, target: string)
    requires PlanOf(Lines(input), target).Planned?
    ensures var lines, p := Lines(input), PlanOf(Lines(input), target).plan;
            && Fits(lines, p)
            && (Text(Undo(Edited(lines, target, p), p, Marks(lines, target, p)), input) == input <==> Uniform(input))
  {
    hide PlanOf, Edited, Undo, Marks, Uniform, Text;
    RewriteIsUndone(Lines(input), target);
    if input == [] {
      EmptyHasNoPlan(target);
    } else {
      TextComesBack(input);
    }
  }

  lemma EmptyHasNoPlan(target: string)
    ensures Lines([]) == [[]] && PlanOf(Lines([]), target).Refused?
  {
    assert TrimStart([]) == [];
  }

  // --- Feeding an output text back in ------------------------------------------------------------------------

  predicate OneLine(l: string) {
    '\n' !in l
  }

  /** Equal, or equal but for a carriage return at the end of the first. */
  predicate Looks(l: string, m: string) {
    m == l || l == m + "\r"
  }

  lemma {:induction false} SplitIsOneLine(s: string)
    ensures forall l <- Split(s) :: OneLine(l)
  {
    if s != [] {
      SplitIsOneLine(s[1..]);
      var rest := Split(s[1..]);
      assert rest[0] in rest && forall l <- rest[1..] :: l in rest;
    }
  }

  lemma {:induction false} OneLineStays(l: string)
    requires OneLine(l)
    ensures Normalise(l) == l && Split(l) == [l]
  {
    if l != [] {
      assert forall c <- l[1..] :: c in l;
      assert l[0] in l && (|l| > 1 ==> l[1] in l);
      OneLineStays(l[1..]);
      assert [l[0]] + l[1..] == l;
    }
  }

  lemma {:induction false} SplitFirst(l: string, rest: string)
    requires OneLine(l)
    ensures Split(l + LF + rest) == [l] + Split(rest)
  {
    var s := l + LF + rest;
    if l == [] {
      assert s[1..] == rest;
    } else {
      assert forall c <- l[1..] :: c in l;
      assert l[0] in l;
      SplitFirst(l[1..], rest);
      assert s[1..] == l[1..] + LF + rest;
      assert [l[0]] + l[1..] == l;
    }
  }

  lemma CrlfAtBreak(l: string, newline: string, rest: string)
    requires OneLine(l) && l != [] && newline in {LF, CRLF} && StartsCrlf(l + newline + rest)
    ensures l == "\r" && newline == LF
  {
    assert forall i :: 0 <= i < |l| ==> l[i] in l;
  }

  lemma {:induction false} NormaliseFirst(l: string, newline: string, rest: string) returns (m: string)
    requires OneLine(l) && newline in {LF, CRLF}
    ensures OneLine(m) && Looks(l, m) && Normalise(l + newline + rest) == m + LF + Normalise(rest)
  {
    var s := l + newline + rest;
    hide Normalise;
    if l == [] {
      m := [];
      NormaliseBreak(newline, rest);
      assert s == newline + rest;
    } else if StartsCrlf(s) {
      CrlfAtBreak(l, newline, rest);
      NormaliseCrlf(s);
      assert s[2..] == rest;
      m := [];
    } else {
      NormaliseOther(s);
      assert s[1..] == l[1..] + newline + rest;
      assert l == [l[0]] + l[1..];
      var t := NormaliseFirst(l[1..], newline, rest);
      m := [l[0]] + t;
      assert m + LF + Normalise(rest) == [l[0]] + (t + LF + Normalise(rest));
    }
  }

  lemma NormaliseBreak(newline: string, rest: string)
    requires newline in {LF, CRLF}
    ensures Normalise(newline + rest) == LF + Normalise(rest)
  {
    var s := newline + rest;
    if newline == CRLF {
      assert s[2..] == rest;
    } else {
      assert s[1..] == rest;
    }
  }

  ghost predicate AllLook(a: seq<string>, b: seq<string>) {
    |a| == |b| && forall i :: 0 <= i < |a| ==> Looks(a[i], b[i])
  }

  lemma LooksSame(l: string)
    ensures Looks(l, l)
  {
  }

  lemma AllLookCons(l: string, a: seq<string>, m: string, b: seq<string>)
    requires Looks(l, m) && AllLook(a, b)
    ensures AllLook([l] + a, [m] + b)
  {
    hide Looks;
  }

  lemma {:induction false} SplitJoin(lines: seq<string>, newline: string)
    requires lines != [] && (forall l <- lines :: OneLine(l)) && newline in {LF, CRLF}
    ensures AllLook(lines, Split(Normalise(Join(lines, newline))))
  {
    hide Normalise, Split, Looks, OneLine;
    assert lines[0] in lines;
    if |lines| == 1 {
      OneLineStays(lines[0]);
      LooksSame(lines[0]);
    } else {
      var rest := Join(lines[1..], newline);
      assert forall l <- lines[1..] :: l in lines;
      SplitJoin(lines[1..], newline);
      var m := NormaliseFirst(lines[0], newline, rest);
      SplitFirst(m, Normalise(rest));
      AllLookCons(lines[0], lines[1..], m, Split(Normalise(rest)));
      assert lines == [lines[0]] + lines[1..];
    }
  }

  lemma {:induction false} JoinPushes(lines: seq<string>, newline: string)
    requires lines != []
    ensures Join(lines + [[]], newline) == Join(lines, newline) + newline
  {
    JoinPops(lines + [[]], newline);
    assert (lines + [[]])[..|lines|] == lines;
  }

  lemma {:induction false} JoinEnd(lines: seq<string>, newline: string)
    requires lines != [] && lines[|lines| - 1] != []
    ensures var s := Join(lines, newline); s != [] && s[|s| - 1] == lines[|lines| - 1][|lines[|lines| - 1]| - 1]
  {
    if |lines| > 1 {
      JoinEnd(lines[1..], newline);
    }
  }

  /** Every line is one line, and the last one is not empty if it is not to be. */
  ghost predicate Clean(lines: seq<string>, full: bool) {
    lines != [] && (forall l <- lines :: OneLine(l)) && (full ==> lines[|lines| - 1] != [])
  }

  /** Reading a rewritten text gives the rewritten lines back, but for carriage returns at line ends. */
  lemma LinesOfText(lines: seq<string>, input: string)
    requires Clean(lines, !EndsLine(input))
    ensures AllLook(lines, Lines(Text(lines, input)))
  {
    var newline := Newline(input);
    hide Normalise, Split, HasCrlf;
    if EndsLine(input) {
      var all := lines + [[]];
      JoinPushes(lines, newline);
      assert forall l <- all :: l in lines || l == [];
      SplitJoin(all, newline);
      assert EndsLine(Text(lines, input));
      assert forall i :: 0 <= i < |lines| ==> all[i] == lines[i];
    } else {
      SplitJoin(lines, newline);
      JoinEnd(lines, newline);
      assert Text(lines, input) == Join(lines, newline);
      var last := lines[|lines| - 1];
      assert last in lines && last[|last| - 1] in last;
    }
  }

  lemma {:induction false} CrAfterSemicolon(l: string)
    ensures var b := BeforeSemicolon(l + "\r"); b == BeforeSemicolon(l) || b == BeforeSemicolon(l) + "\r"
  {
    if l != [] && l[0] != ';' {
      CrAfterSemicolon(l[1..]);
      assert (l + "\r")[1..] == l[1..] + "\r";
    }
  }

  lemma {:induction false} CrAfterTrimStart(l: string)
    ensures TrimStart(l + "\r") == if TrimStart(l) == [] then [] else TrimStart(l) + "\r"
  {
    assert IsSpace('\r');
    hide IsSpace;
    if l == [] {
      assert TrimStart("\r"[1..]) == [];
    } else {
      assert (l + "\r")[1..] == l[1..] + "\r";
      if IsSpace(l[0]) {
        CrAfterTrimStart(l[1..]);
      }
    }
  }

  lemma CrAfterTrimEnd(l: string)
    ensures TrimEnd(l + "\r") == TrimEnd(l)
  {
    assert (l + "\r")[..|l|] == l;
  }

  /** Lines that look alike are the same command. */
  lemma LooksSameCommand(l: string, m: string)
    requires Looks(l, m)
    ensures Command(l) == Command(m) && (TrimStart(l) == [] <==> TrimStart(m) == [])
  {
    CrAfterSemicolon(m);
    var b := BeforeSemicolon(m);
    CrAfterTrimStart(b);
    CrAfterTrimStart(m);
    CrAfterTrimEnd(TrimStart(b));
  }

  lemma {:induction false} FirstLooks(k: Kind, a: seq<string>, b: seq<string>, from: nat)
    requires AllLook(a, b) && from <= |a|
    ensures First(k, a, from) == First(k, b, from)
    decreases |a| - from
  {
    if from < |a| {
      LooksSameCommand(a[from], b[from]);
      FirstLooks(k, a, b, from + 1);
    }
  }

  lemma AnyLooks(k: Kind, a: seq<string>, b: seq<string>, from: nat, to: nat)
    requires AllLook(a, b) && from <= to <= |a|
    ensures Any(k, a, from, to) <==> Any(k, b, from, to)
  {
    forall i | 0 <= i < |a|
      ensures Is(k, a[i]) <==> Is(k, b[i])
    {
      LooksSameCommand(a[i], b[i]);
      hide Command, Looks;
    }
    hide Is;
  }

  lemma RefusalLooks(a: seq<string>, b: seq<string>, target: string)
    requires AllLook(a, b) && PlanOf(a, target).Refused?
    ensures PlanOf(b, target).Refused?
  {
    hide Is, First, SafeTarget, Any, Blank, PlanAt, Looks;
    if Blank(a) {
      BlankLooks(a, b);
    } else {
      FirstLooks(BedTarget, a, b, 0);
      var bed := First(BedTarget, a, 0);
      FirstLooks(BedWait, a, b, 0);
      if bed < |a| {
        FirstLooks(BedWait, a, b, bed + 1);
        var wait := BedWaitIndex(a, bed);
        if wait < |a| {
          FirstLooks(EndMark, a, b, wait + 1);
          var end := First(EndMark, a, wait + 1);
          AnyLooks(ChamberTarget, a, b, 0, end);
          AnyLooks(ChamberWait, a, b, 0, end);
          AnyLooks(HelperFan, a, b, wait + 1, end);
        }
      }
    }
  }

  lemma BlankLooks(a: seq<string>, b: seq<string>)
    requires AllLook(a, b) && Blank(a)
    ensures Blank(b)
  {
    forall i | 0 <= i < |b|
      ensures TrimStart(b[i]) == []
    {
      LooksSameCommand(a[i], b[i]);
      assert a[i] in a;
    }
  }

  lemma LinesAreOneLine(s: string)
    ensures forall l <- Lines(s) :: OneLine(l)
    ensures s != [] && !EndsLine(s) ==> Lines(s)[|Lines(s)| - 1] != []
  {
    SplitIsOneLine(Normalise(s));
    NormaliseEnd(s);
    if s != [] {
      LastSplit(Normalise(s));
    }
    hide Split, Normalise;
  }

  lemma InsertedAreOneLine(target: string)
    requires SafeTarget(target)
    ensures OneLine(TargetLine(target)) && OneLine(WaitLine(target)) && OneLine(FAN_ON) && OneLine(FAN_OFF)
  {
    SafeTargetIsPlain(target);
    assert IsSpace('\n');
    hide SafeTarget, IsSpace;
  }

  lemma InsertedAreClean(target: string)
    requires SafeTarget(target)
    ensures Clean([TargetLine(target)], true) && Clean([FAN_ON, WaitLine(target), FAN_OFF], true)
  {
    InsertedAreOneLine(target);
    hide SafeTarget, OneLine;
  }

  lemma SpliceIsClean(lines: seq<string>, at: nat, added: seq<string>, full: bool)
    requires at <= |lines| && Clean(lines, full) && Clean(added, true)
    ensures Clean(Splice(lines, at, added), full)
  {
    hide OneLine;
    var out := Splice(lines, at, added);
    assert forall l <- out :: l in lines || l in added;
    assert out[|out| - 1] == if at < |lines| then lines[|lines| - 1] else added[|added| - 1];
  }

  lemma CommentedIsClean(lines: seq<string>, from: nat, to: nat, full: bool)
    requires Clean(lines, full)
    ensures Clean(Commented(lines, from, to), full) && |Commented(lines, from, to)| == |lines|
  {
    hide OneLine, Is, CommentOut;
    var c := Commented(lines, from, to);
    forall i | 0 <= i < |c|
      ensures OneLine(c[i]) && (lines[i] != [] ==> c[i] != [])
    {
      assert lines[i] in lines;
      CommentIsOneLine(lines[i]);
    }
  }

  lemma WithTargetIsClean(lines: seq<string>, bed: nat, target: string, full: bool)
    requires bed < |lines| && SafeTarget(target) && Clean(lines, full)
    ensures Clean(WithTarget(lines, bed, target), full) && |WithTarget(lines, bed, target)| == |lines| + 1
  {
    InsertedAreClean(target);
    hide SafeTarget, Splice, Clean, TargetLine, WaitLine;
    SpliceIsClean(lines, bed + 1, [TargetLine(target)], full);
  }

  lemma BlockIsClean(lines: seq<string>, from: nat, to: nat, place: nat, target: string, full: bool)
    requires place <= |lines| && SafeTarget(target) && Clean(lines, full)
    ensures |Commented(lines, from, to)| == |lines|
    ensures Clean(Splice(Commented(lines, from, to), place, [FAN_ON, WaitLine(target), FAN_OFF]), full)
  {
    InsertedAreClean(target);
    hide SafeTarget, Commented, Splice, Clean, TargetLine, WaitLine, Is, CommentOut;
    CommentedIsClean(lines, from, to, full);
    SpliceIsClean(Commented(lines, from, to), place, [FAN_ON, WaitLine(target), FAN_OFF], full);
  }

  /** The edit neither breaks a line nor ends on an empty one that the input did not end on. */
  lemma EditedIsClean(lines: seq<string>, target: string, p: Plan, full: bool)
    requires Fits(lines, p) && SafeTarget(target) && Clean(lines, full)
    ensures Clean(Edited(lines, target, p), full)
  {
    hide SafeTarget, Commented, Splice, Clean, TargetLine, WaitLine, WithTarget, Is, CommentOut, OneLine;
    WithTargetIsClean(lines, p.bed, target, full);
    BlockIsClean(WithTarget(lines, p.bed, target), p.wait + 1, p.end, p.place, target, full);
  }

  lemma CommentIsOneLine(l: string)
    requires OneLine(l)
    ensures OneLine(CommentOut(l)) && CommentOut(l) != []
  {
    assert Indent(l) <= l;
    assert forall c <- Indent(l) :: c in l;
    assert forall c <- l[|Indent(l)|..] :: c in l;
  }

  /** Feeding any output text back in is refused, whatever target is asked for. */
  lemma TwiceTextIsRefused(input: string, target: string, again: string)
    requires PlanOf(Lines(input), target).Planned?
    ensures Fits(Lines(input), PlanOf(Lines(input), target).plan)
    ensures var out := Edited(Lines(input), target, PlanOf(Lines(input), target).plan);
            PlanOf(Lines(Text(out, input)), again).Refused?
  {
    hide PlanOf, Edited, Lines, Text, AllLook;
    TwiceIsRefused(Lines(input), target, again);
    OutputReadsBack(input, target);
    var out := Edited(Lines(input), target, PlanOf(Lines(input), target).plan);
    RefusalLooks(out, Lines(Text(out, input)), again);
  }

  /** Reading an output text gives the edited lines back, but for carriage returns at line ends. */
  lemma OutputReadsBack(input: string, target: string)
    requires PlanOf(Lines(input), target).Planned?
    ensures Fits(Lines(input), PlanOf(Lines(input), target).plan)
    ensures var out := Edited(Lines(input), target, PlanOf(Lines(input), target).plan);
            AllLook(out, Lines(Text(out, input)))
  {
    hide PlanOf, Edited, Lines, Text, SafeTarget, AllLook, Clean, WithTarget;
    var lines, p := Lines(input), PlanOf(Lines(input), target).plan;
    PlanMeans(lines, target);
    InputIsClean(input, target);
    EditedIsClean(lines, target, p, !EndsLine(input));
    LinesOfText(Edited(lines, target, p), input);
  }

  lemma InputIsClean(input: string, target: string)
    requires PlanOf(Lines(input), target).Planned?
    ensures Clean(Lines(input), !EndsLine(input))
  {
    hide PlanOf, Lines;
    EmptyHasNoPlan(target);
    LinesAreOneLine(input);
    if Lines(input) == [] {
      BlankIsRefused(Lines(input), target);
    }
  }
}
