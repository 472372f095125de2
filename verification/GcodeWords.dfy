/** The lines and targets that processor.js's patterns accept, told from words and numbers instead of patterns. */
module GcodeWords {
  import opened StartGcode

  // --- Words -------------------------------------------------------------------------------------

  /** White space of the patterns, code by code. */
  lemma SpacesAre(c: char)
    ensures IsSpace(c) <==>
              c as int in {9, 10, 11, 12, 13, 32, 0xA0, 0x1680, 0x2000, 0x2001, 0x2002, 0x2003, 0x2004, 0x2005, 0x2006,
                           0x2007, 0x2008, 0x2009, 0x200A, 0x2028, 0x2029, 0x202F, 0x205F, 0x3000, 0xFEFF}
  {
  }

  function FirstWord(s: string): (w: string)
    ensures w <= s && (forall i :: 0 <= i < |w| ==> !IsSpace(w[i])) && (|w| == |s| || IsSpace(s[|w|]))
  {
    if s == [] || IsSpace(s[0]) then [] else [s[0]] + FirstWord(s[1..])
  }

  /** The stretches between white space. */
  function Words(s: string): seq<string>
    decreases |s|
  {
    if s == [] then []
    else if IsSpace(s[0]) then Words(s[1..])
    else [FirstWord(s)] + Words(s[|FirstWord(s)|..])
  }

  ghost predicate NoSpace(w: string) {
    w != [] && forall i :: 0 <= i < |w| ==> !IsSpace(w[i])
  }

  /** Where white space first comes, or the text ends, the first word ends. */
  lemma {:induction false} FirstWordEnds(s: string, n: nat)
    requires n <= |s| && (n < |s| ==> IsSpace(s[n])) && forall i :: 0 <= i < n ==> !IsSpace(s[i])
    ensures FirstWord(s) == s[..n]
  {
    hide IsSpace;
    if n > 0 {
      FirstWordEnds(s[1..], n - 1);
      assert s[..n] == [s[0]] + s[1..][..n - 1];
    }
  }

  lemma FirstWordIs(s: string, w: string)
    requires NoSpace(w)
    ensures StartsWith(s, w) <==> FirstWord(s) == w
  {
    hide IsSpace;
    if StartsWith(s, w) {
      assert forall i :: 0 <= i < |w| ==> s[i] == w[i];
      FirstWordEnds(s, |w|);
    }
  }

  lemma {:induction false} WordsSkipBlanks(s: string)
    ensures Words(TrimStart(s)) == Words(s) && (TrimStart(s) != [] ==> !IsSpace(TrimStart(s)[0]))
  {
    hide IsSpace;
    if s != [] && IsSpace(s[0]) {
      WordsSkipBlanks(s[1..]);
    }
  }

  lemma FirstWordStays(s: string, c: char)
    requires IsSpace(c)
    ensures FirstWord(s + [c]) == FirstWord(s)
  {
    hide IsSpace;
    var f := FirstWord(s);
    assert forall i :: 0 <= i < |f| ==> (s + [c])[i] == f[i];
    FirstWordEnds(s + [c], |f|);
  }

  lemma {:induction false} WordsDropBlank(s: string, c: char)
    requires IsSpace(c)
    ensures Words(s + [c]) == Words(s)
    decreases |s|
  {
    hide IsSpace;
    if s == [] {
      assert (s + [c])[1..] == [];
    } else if IsSpace(s[0]) {
      assert (s + [c])[1..] == s[1..] + [c];
      WordsDropBlank(s[1..], c);
    } else {
      FirstWordStays(s, c);
      var n := |FirstWord(s)|;
      assert (s + [c])[n..] == s[n..] + [c];
      WordsDropBlank(s[n..], c);
    }
  }

  lemma {:induction false} WordsSkipEnd(s: string)
    ensures Words(TrimEnd(s)) == Words(s) && TrimEnd(s) <= s
    ensures TrimEnd(s) != [] ==> !IsSpace(TrimEnd(s)[|TrimEnd(s)| - 1])
  {
    hide IsSpace;
    if s != [] && IsSpace(s[|s| - 1]) {
      assert s == s[..|s| - 1] + [s[|s| - 1]];
      WordsDropBlank(s[..|s| - 1], s[|s| - 1]);
      WordsSkipEnd(s[..|s| - 1]);
    }
  }

  /** A command word of a text that starts with no space is its first word, and what follows it are the other words. */
  lemma CommandIsFirstWord(s: string, w: string)
    requires NoSpace(w) && (s == [] || !IsSpace(s[0]))
    ensures StartsWith(s, w) <==> Words(s) != [] && Words(s)[0] == w
    ensures StartsWith(s, w) ==> Words(AfterWord(s, w)) == Words(s)[1..]
    ensures StartsWith(s, w) ==> var a := AfterWord(s, w); a == [] || !IsSpace(a[0])
  {
    hide IsSpace;
    FirstWordIs(s, w);
    if StartsWith(s, w) {
      WordsSkipBlanks(s[|w|..]);
    }
  }

  // --- Upper case and line numbers -----------------------------------------------------------------

  function UpperAll(ws: seq<string>): (us: seq<string>)
    ensures |us| == |ws| && forall i :: 0 <= i < |ws| ==> us[i] == Upper(ws[i])
  {
    if ws == [] then [] else [Upper(ws[0])] + UpperAll(ws[1..])
  }

  lemma UpperKeepsSpace(c: char)
    ensures IsSpace(UpperChar(c)) <==> IsSpace(c)
  {
  }

  lemma FirstWordUpper(s: string)
    ensures FirstWord(Upper(s)) == Upper(FirstWord(s))
  {
    hide IsSpace, UpperChar;
    var f := FirstWord(s);
    forall i | 0 <= i < |s|
      ensures IsSpace(Upper(s)[i]) <==> IsSpace(s[i])
    {
      UpperKeepsSpace(s[i]);
    }
    assert forall i :: 0 <= i < |f| ==> s[i] == f[i];
    FirstWordEnds(Upper(s), |f|);
    assert Upper(s)[..|f|] == Upper(f);
  }

  lemma {:induction false} WordsUpper(s: string)
    ensures Words(Upper(s)) == UpperAll(Words(s))
    decreases |s|
  {
    hide IsSpace, UpperChar;
    if s != [] {
      UpperKeepsSpace(s[0]);
      if IsSpace(s[0]) {
        assert Upper(s)[1..] == Upper(s[1..]);
        WordsUpper(s[1..]);
      } else {
        FirstWordUpper(s);
        var n := |FirstWord(s)|;
        assert Upper(s)[n..] == Upper(s[n..]);
        WordsUpper(s[n..]);
        assert Words(s)[1..] == Words(s[n..]);
      }
    }
  }

  /** A line number: N and digits. */
  predicate Numbered(w: string) {
    |w| > 1 && w[0] == 'N' && forall i :: 1 <= i < |w| ==> '0' <= w[i] <= '9'
  }

  lemma {:induction false} NonBlankHasWords(s: string)
    requires s != [] && !IsSpace(s[|s| - 1])
    ensures Words(s) != []
    decreases |s|
  {
    hide IsSpace;
    if IsSpace(s[0]) {
      NonBlankHasWords(s[1..]);
    }
  }

  function WithoutNumber(ws: seq<string>): seq<string> {
    if |ws| > 1 && Numbered(ws[0]) then ws[1..] else ws
  }

  lemma {:induction false} DigitsEnd(s: string, n: nat)
    requires n <= |s| && (n < |s| ==> !IsDigit(s[n])) && forall i :: 0 <= i < n ==> IsDigit(s[i])
    ensures SkipDigits(s) == s[n..]
  {
    if n > 0 {
      DigitsEnd(s[1..], n - 1);
    }
  }

  lemma DigitIsNoSpace(c: char)
    ensures IsDigit(c) || c == 'N' ==> !IsSpace(c)
    ensures IsDigit(c) <==> '0' <= c <= '9'
  {
  }

  /** N and digits up to white space are a first word that is a line number. */
  lemma NumberIsWord(s: string, n: nat)
    requires 1 < n <= |s| && s[0] == 'N' && (n < |s| ==> IsSpace(s[n])) && forall i :: 1 <= i < n ==> IsDigit(s[i])
    ensures FirstWord(s) == s[..n] && Numbered(s[..n])
  {
    hide IsSpace, IsDigit, FirstWord;
    forall i | 0 <= i < n
      ensures !IsSpace(s[i]) && (i > 0 ==> '0' <= s[i] <= '9')
    {
      DigitIsNoSpace(s[i]);
    }
    FirstWordEnds(s, n);
  }

  /** And such a first word leaves what follows it when N and the digits are skipped. */
  lemma WordIsNumber(s: string)
    requires s != [] && Numbered(FirstWord(s))
    ensures s[0] == 'N' && SkipDigits(s[1..]) == s[|FirstWord(s)|..]
  {
    hide IsSpace, IsDigit, FirstWord, SkipDigits;
    var f := FirstWord(s);
    var n := |f| - 1;
    forall i | 0 <= i < n
      ensures IsDigit(s[1..][i])
    {
      assert s[1..][i] == f[i + 1];
      DigitIsNoSpace(f[i + 1]);
    }
    if n < |s[1..]| {
      assert s[1..][n] == s[|f|];
      DigitIsNoSpace(s[|f|]);
    }
    DigitsEnd(s[1..], n);
  }

  lemma NumberIsFirstWord(s: string)
    requires s != [] && s[0] == 'N'
    ensures var rest := SkipDigits(s[1..]);
            (|rest| < |s| - 1 && rest != [] && IsSpace(rest[0])) <==> Numbered(FirstWord(s)) && |FirstWord(s)| < |s|
    ensures Numbered(FirstWord(s)) ==> SkipDigits(s[1..]) == s[|FirstWord(s)|..]
  {
    hide IsSpace, IsDigit, SkipDigits, FirstWord, Numbered;
    var rest := SkipDigits(s[1..]);
    if Numbered(FirstWord(s)) {
      WordIsNumber(s);
      NumberedStartsWithN(FirstWord(s));
    }
    if |rest| < |s| - 1 && rest != [] && IsSpace(rest[0]) {
      var n := |s| - |rest|;
      assert forall i :: 1 <= i < n ==> s[i] == s[1..][i - 1];
      NumberIsWord(s, n);
    }
  }

  lemma WordsFromFirst(s: string)
    requires s != [] && !IsSpace(s[0])
    ensures var f := FirstWord(s); f != [] && f[0] == s[0] && Words(s) == [f] + Words(s[|f|..])
  {
    hide IsSpace;
    assert FirstWord(s) != [];
  }

  /** The line number goes if another word follows it. */
  lemma WordsWithoutNumber(s: string)
    requires s == [] || (!IsSpace(s[0]) && !IsSpace(s[|s| - 1]))
    ensures var r := DropLineNumber(s);
            Words(r) == WithoutNumber(Words(s)) && (r == [] || !IsSpace(r[0]))
  {
    hide IsSpace, SkipDigits, TrimStart, Numbered, Words, FirstWord;
    if s == [] {
      NoWords();
    } else {
      var f := FirstWord(s);
      WordsFromFirst(s);
      NumberedStartsWithN(f);
      if s[0] == 'N' {
        NumberIsFirstWord(s);
        WordsSkipBlanks(s[|f|..]);
        if |f| < |s| {
          NonBlankHasWords(s[|f|..]);
        } else {
          NoWords();
        }
      }
    }
  }

  lemma NoWords()
    ensures Words([]) == []
  {
  }

  lemma NumberedStartsWithN(w: string)
    ensures Numbered(w) ==> |w| > 1 && w[0] == 'N'
  {
  }

  // --- The kinds of line ----------------------------------------------------------------------------

  /** The part of a line before its comment. */
  ghost predicate IsCode(line: string, code: string) {
    code <= line && ';' !in code && (|code| < |line| ==> line[|code|] == ';')
  }

  lemma {:induction false} CodeIsBeforeSemicolon(line: string)
    ensures IsCode(line, BeforeSemicolon(line))
  {
    if line != [] && line[0] != ';' {
      CodeIsBeforeSemicolon(line[1..]);
      assert line == [line[0]] + line[1..];
    }
  }

  lemma CodeIsNoShorter(line: string, a: string, b: string)
    requires IsCode(line, a) && IsCode(line, b)
    ensures |a| >= |b|
  {
    assert forall i :: 0 <= i < |b| ==> line[i] == b[i] && b[i] != ';';
  }

  lemma OneCode(line: string, a: string, b: string)
    requires IsCode(line, a) && IsCode(line, b)
    ensures a == b
  {
    CodeIsNoShorter(line, a, b);
    CodeIsNoShorter(line, b, a);
    assert a == line[..|a|] && b == line[..|b|];
  }

  predicate AllZeros(w: string) {
    forall i :: 0 <= i < |w| ==> w[i] == '0'
  }

  /** 5, or 5.0 with any number of zeros. */
  predicate SaysFive(w: string) {
    w == "Z5" || (|w| > 3 && w[..3] == "Z5." && AllZeros(w[3..]))
  }

  /** What the command words of each kind of line are. */
  predicate Spells(k: Kind, ws: seq<string>) {
    |ws| > 0
    && match k
       case BedTarget => ws[0] == "M140"
       case BedWait => ws[0] == "M190"
       case EndMark => ws[0] == "G28" || ws[0] == "BED_MESH_CALIBRATE"
       case ChamberTarget => ws[0] == "M141"
       case ChamberWait => ws[0] == "M191"
       case HelperFan => |ws| > 2 && ws[..3] == ["M106", "P2", "S178"]
       case SafeZ => |ws| > 1 && ws[0] == "G0" && SaysFive(ws[1])
       case LegacyWait => ws[0] == "WAIT_CHAMBER_TEMP"
  }

  /** The words a line's command is read from: those before the comment, in upper case, without a line number. */
  function CommandWords(code: string): seq<string> {
    UpperAll(WithoutNumber(Words(code)))
  }

  lemma WordsOfCommand(line: string, code: string)
    requires IsCode(line, code)
    ensures Words(Command(line)) == CommandWords(code)
    ensures Command(line) == [] || !IsSpace(Command(line)[0])
  {
    hide IsSpace, UpperChar, Words, DropLineNumber;
    CodeIsBeforeSemicolon(line);
    OneCode(line, code, BeforeSemicolon(line));
    var a := TrimStart(code);
    WordsSkipBlanks(code);
    var b := TrimEnd(a);
    WordsSkipEnd(a);
    assert b == [] || b[0] == a[0];
    WordsWithoutNumber(b);
    var c := DropLineNumber(b);
    WordsUpper(c);
    if c != [] {
      UpperKeepsSpace(c[0]);
    }
  }

  /** A line is of a kind exactly when its command words spell that kind. */
  lemma KindIsWords(k: Kind, line: string, code: string)
    requires IsCode(line, code)
    ensures Is(k, line) <==> Spells(k, CommandWords(code))
  {
    hide Command, CommandWords, Words, AfterWord, StartsWith, IsHelperFan, IsSafeZ, SaysFive;
    WordsOfCommand(line, code);
    var c := Command(line);
    match k
    case HelperFan => HelperFanIsWords(c);
    case SafeZ => SafeZIsWords(c);
    case EndMark => OneWordCommand(c, "G28"); OneWordCommand(c, "BED_MESH_CALIBRATE");
    case BedTarget => OneWordCommand(c, "M140");
    case BedWait => OneWordCommand(c, "M190");
    case ChamberTarget => OneWordCommand(c, "M141");
    case ChamberWait => OneWordCommand(c, "M191");
    case LegacyWait => OneWordCommand(c, "WAIT_CHAMBER_TEMP");
  }

  ghost predicate Plainly(w: string) {
    w != [] && forall i :: 0 <= i < |w| ==> 'A' <= w[i] <= 'Z' || '0' <= w[i] <= '9' || w[i] == '_' || w[i] == '.'
  }

  lemma OneWordCommand(c: string, w: string)
    requires Plainly(w) && (c == [] || !IsSpace(c[0]))
    ensures StartsWith(c, w) <==> Words(c) != [] && Words(c)[0] == w
    ensures StartsWith(c, w) ==> Words(AfterWord(c, w)) == Words(c)[1..]
    ensures StartsWith(c, w) ==> var a := AfterWord(c, w); a == [] || !IsSpace(a[0])
  {
    hide Words, AfterWord;
    CommandIsFirstWord(c, w);
  }

  lemma HelperFanIsWords(c: string)
    requires c == [] || !IsSpace(c[0])
    ensures IsHelperFan(c) <==> Spells(HelperFan, Words(c))
  {
    hide IsSpace, Words, AfterWord;
    OneWordCommand(c, "M106");
    if StartsWith(c, "M106") {
      var a := AfterWord(c, "M106");
      OneWordCommand(a, "P2");
      if StartsWith(a, "P2") {
        OneWordCommand(AfterWord(a, "P2"), "S178");
      }
    }
  }

  lemma ZerosBefore(z: string, w: string)
    requires AllZeros(z)
    ensures AllZeros(z + w) <==> AllZeros(w)
  {
    var all := z + w;
    if AllZeros(all) {
      assert forall i :: 0 <= i < |w| ==> w[i] == all[|z| + i];
    }
  }

  lemma {:induction false} ZerosEnd(s: string)
    ensures var end := SkipZeros(s);
            (end == [] || IsSpace(end[0])) <==> AllZeros(FirstWord(s))
  {
    hide IsSpace;
    if s != [] && s[0] == '0' {
      ZerosEnd(s[1..]);
      DigitIsNoSpace('0');
      ZerosBefore(['0'], FirstWord(s[1..]));
    } else if s != [] && !IsSpace(s[0]) {
      assert FirstWord(s)[0] == s[0];
    }
  }

  /** The pattern of the second word of a safe Z move. */
  predicate LooksFive(z: string) {
    "Z5" <= z
    && var rest := z[2..];
       || rest == [] || IsSpace(rest[0])
       || (|rest| > 1 && rest[0] == '.' && rest[1] == '0'
           && var end := SkipZeros(rest[1..]); end == [] || IsSpace(end[0]))
  }

  lemma TailOfFirstWord(s: string, n: nat)
    requires n <= |s| && forall i :: 0 <= i < n ==> !IsSpace(s[i])
    ensures FirstWord(s) == s[..n] + FirstWord(s[n..])
  {
    hide IsSpace, FirstWord;
    var g := FirstWord(s[n..]);
    var all := s[..n] + g;
    assert all == s[..n + |g|];
    forall i | 0 <= i < n + |g|
      ensures !IsSpace(s[i])
    {
      assert s[i] == if i < n then s[i] else g[i - n];
    }
    FirstWordEnds(s, n + |g|);
  }

  lemma FiveIsWord(z: string)
    ensures LooksFive(z) <==> SaysFive(FirstWord(z))
  {
    assert !IsSpace('Z') && !IsSpace('5') && !IsSpace('.') && !IsSpace('0');
    hide IsSpace, FirstWord, SkipZeros;
    var f := FirstWord(z);
    if "Z5" <= z {
      TailOfFirstWord(z, 2);
      var rest := z[2..];
      if rest == [] || IsSpace(rest[0]) {
        FirstWordEnds(rest, 0);
        assert f == "Z5";
      } else if rest[0] == '.' {
        TailOfFirstWord(z, 3);
        FivePointZeros(z, rest[1..]);
      } else {
        TailOfFirstWord(z, 3);
        assert f[2] == rest[0];
      }
    }
  }

  lemma FivePointZeros(z: string, zeros: string)
    requires z == "Z5." + zeros && FirstWord(z) == "Z5." + FirstWord(zeros)
    ensures LooksFive(z) <==> SaysFive(FirstWord(z))
  {
    assert !IsSpace('.') && !IsSpace('0');
    hide IsSpace;
    ZerosEnd(zeros);
    var f, g := FirstWord(z), FirstWord(zeros);
    assert z[2..][1..] == zeros && f[..3] == "Z5." && f[3..] == g;
    if zeros != [] && !IsSpace(zeros[0]) {
      assert g[0] == zeros[0];
    }
  }

  lemma SafeZIsWords(c: string)
    requires c == [] || !IsSpace(c[0])
    ensures IsSafeZ(c) <==> Spells(SafeZ, Words(c))
  {
    hide IsSpace, AfterWord, StartsWith, SaysFive, SkipZeros, FirstWord;
    OneWordCommand(c, "G0");
    if StartsWith(c, "G0") {
      var z := AfterWord(c, "G0");
      FiveIsWord(z);
      assert Words(z) == Words(c)[1..];
      assert z != [] ==> Words(z)[0] == FirstWord(z);
    }
  }

  // --- Targets ----------------------------------------------------------------------------------------

  predicate Letter(c: char) {
    'A' <= c <= 'Z' || 'a' <= c <= 'z' || c == '_'
  }

  predicate Digits(s: string) {
    forall i :: 0 <= i < |s| ==> '0' <= s[i] <= '9'
  }

  /** A slicer variable: a name in braces. */
  ghost predicate Named(t: string, name: string) {
    && t == "{" + name + "}" && name != [] && Letter(name[0])
    && forall i :: 0 <= i < |name| ==> Letter(name[i]) || '0' <= name[i] <= '9'
  }

  ghost predicate IsNamed(t: string) {
    exists name: string :: Named(t, name)
  }

  /** One to three digits, and perhaps a point and some more. */
  ghost predicate Decimal(t: string, whole: string, fraction: string) {
    && 1 <= |whole| <= 3 && Digits(whole) && Digits(fraction)
    && t == whole + if fraction == [] then [] else "." + fraction
  }

  function PowerOfTen(n: nat): int {
    if n == 0 then 1 else 10 * PowerOfTen(n - 1)
  }

  /** The number digits stand for, and the one they stand for behind a point. */
  function Whole(s: string): int
    requires Digits(s)
  {
    if s == [] then 0 else (s[0] as int - '0' as int) * PowerOfTen(|s| - 1) + Whole(s[1..])
  }

  function Fraction(s: string): (v: real)
    requires Digits(s)
    ensures 0.0 <= v < 1.0 && (v == 0.0 <==> AllZeros(s))
  {
    if s == [] then 0.0
    else
      assert AllZeros(s) <==> s[0] == '0' && AllZeros(s[1..]) by {
        ZerosBefore([], s);
        assert s == [s[0]] + s[1..];
        if s[0] == '0' {
          ZerosBefore([s[0]], s[1..]);
        }
      }
      ((s[0] as int - '0' as int) as real + Fraction(s[1..])) / 10.0
  }

  ghost predicate Heat(t: string, whole: string, fraction: string) {
    Decimal(t, whole, fraction) && Whole(whole) as real + Fraction(fraction) <= 120.0
  }

  ghost predicate IsHeat(t: string) {
    exists whole: string, fraction: string :: Heat(t, whole, fraction)
  }

  lemma DigitsAreDigits(s: string)
    ensures Digits(s) <==> forall i :: 0 <= i < |s| ==> IsDigit(s[i])
  {
  }

  lemma OneDigit(s: string)
    requires |s| == 1 && Digits(s)
    ensures IsDigit(s[0]) && DigitsValue(s) == Whole(s) == s[0] as int - 48
  {
    DigitsAreDigits(s);
    assert s[..0] == [] && s[1..] == [];
  }

  lemma TwoDigits(s: string)
    requires |s| == 2 && Digits(s)
    ensures (forall i :: 0 <= i < |s| ==> IsDigit(s[i]))
    ensures DigitsValue(s) == Whole(s) == 10 * (s[0] as int - 48) + (s[1] as int - 48)
  {
    DigitsAreDigits(s);
    OneDigit(s[..1]);
    OneDigit(s[1..]);
    assert PowerOfTen(1) == 10;
  }

  lemma WholeIsValue(s: string)
    requires 1 <= |s| <= 3 && Digits(s)
    ensures (forall i :: 0 <= i < |s| ==> IsDigit(s[i])) && DigitsValue(s) == Whole(s)
  {
    DigitsAreDigits(s);
    if |s| == 1 {
      OneDigit(s);
    } else if |s| == 2 {
      TwoDigits(s);
    } else {
      TwoDigits(s[..2]);
      TwoDigits(s[1..]);
      assert PowerOfTen(2) == 10 * PowerOfTen(1) && PowerOfTen(1) == 10;
      hide Whole, PowerOfTen;
      WholeOfThree(s);
    }
  }

  lemma WholeOfThree(s: string)
    requires |s| == 3 && Digits(s)
    ensures Whole(s) == 100 * (s[0] as int - 48) + Whole(s[1..])
  {
    assert PowerOfTen(2) == 10 * PowerOfTen(1) && PowerOfTen(1) == 10;
  }

  lemma FractionOfTail(tail: string)
    requires tail == [] || (|tail| > 1 && tail[0] == '.' && forall i :: 1 <= i < |tail| ==> IsDigit(tail[i]))
    ensures var fraction := if tail == [] then [] else tail[1..];
            && Digits(fraction) && tail == (if fraction == [] then [] else "." + fraction)
            && (AllZeros(fraction) <==> forall i :: 1 <= i < |tail| ==> tail[i] == '0')
  {
    if tail != [] {
      var fraction := tail[1..];
      DigitsAreDigits(fraction);
      assert forall i :: 1 <= i < |tail| ==> tail[i] == fraction[i - 1];
      assert forall i :: 0 <= i < |fraction| ==> fraction[i] == tail[i + 1];
    }
  }

  lemma NumberIsHeat(t: string, whole: string, tail: string)
    requires t == whole + tail && 1 <= |whole| <= 3 && forall i :: 0 <= i < |whole| ==> IsDigit(whole[i])
    requires tail == [] || (|tail| > 1 && tail[0] == '.' && forall i :: 1 <= i < |tail| ==> IsDigit(tail[i]))
    requires || DigitsValue(whole) < 120
             || (DigitsValue(whole) == 120 && forall i :: 1 <= i < |tail| ==> tail[i] == '0')
    ensures IsHeat(t)
  {
    hide Whole, DigitsValue, IsDigit, AllZeros;
    DigitsAreDigits(whole);
    WholeIsValue(whole);
    FractionOfTail(tail);
    hide Digits;
    assert Heat(t, whole, if tail == [] then [] else tail[1..]);
  }

  lemma TemperatureIsHeat(t: string)
    requires IsTemperature(t)
    ensures IsHeat(t)
  {
    hide SkipDigits, DigitsValue, IsDigit, IsHeat;
    var tail := SkipDigits(t);
    NumberIsHeat(t, t[..|t| - |tail|], tail);
  }

  lemma TailOfFraction(fraction: string)
    requires Digits(fraction)
    ensures var tail := if fraction == [] then [] else "." + fraction;
            && (tail == [] || (|tail| > 1 && tail[0] == '.' && forall i :: 1 <= i < |tail| ==> IsDigit(tail[i])))
            && (AllZeros(fraction) ==> forall i :: 1 <= i < |tail| ==> tail[i] == '0')
  {
    hide IsDigit;
    DigitsAreDigits(fraction);
    var tail := if fraction == [] then [] else "." + fraction;
    assert forall i :: 1 <= i < |tail| ==> tail[i] == fraction[i - 1];
  }

  lemma SkipsWhole(t: string, whole: string, tail: string)
    requires t == whole + tail && Digits(whole) && (tail == [] || tail[0] == '.')
    ensures SkipDigits(t) == tail
  {
    hide SkipDigits, IsDigit;
    DigitsAreDigits(whole);
    DigitIsNoSpace('.');
    assert forall i :: 0 <= i < |whole| ==> t[i] == whole[i];
    DigitsEnd(t, |whole|);
  }

  lemma HeatIsTemperature(t: string, whole: string, fraction: string)
    requires Heat(t, whole, fraction)
    ensures IsTemperature(t)
  {
    var tail := if fraction == [] then [] else "." + fraction;
    assert t == whole + tail;
    WholeIsValue(whole);
    TailOfFraction(fraction);
    SkipsWhole(t, whole, tail);
    assert t[..|t| - |tail|] == whole;
    hide SkipDigits, IsDigit, Digits, Whole, DigitsValue, AllZeros;
  }

  lemma VariableIsNamed(t: string)
    ensures IsVariable(t) <==> IsNamed(t)
  {
    if IsVariable(t) {
      var name := t[1..|t| - 1];
      assert t == "{" + name + "}";
      assert Named(t, name);
    }
    if IsNamed(t) {
      var name :| Named(t, name);
      assert forall i :: 0 <= i < |name| ==> t[i + 1] == name[i];
      assert forall i :: 1 <= i < |t| - 1 ==> t[i] == name[i - 1];
    }
  }

  /** The helper takes a slicer variable, or a number from 0 to 120 of at most three digits before the point; nothing
      else. */
  lemma SafeTargetsAre(t: string)
    ensures SafeTarget(t) <==> IsNamed(t) || IsHeat(t)
  {
    hide IsTemperature, IsVariable, IsNamed, Heat;
    VariableIsNamed(t);
    if IsTemperature(t) {
      TemperatureIsHeat(t);
    }
    if IsHeat(t) {
      var whole: string, fraction: string :| Heat(t, whole, fraction);
      HeatIsTemperature(t, whole, fraction);
    }
  }
}
