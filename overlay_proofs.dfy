/** What `getMonthWithAppointments` produces: every covered day is
    highlighted in its own cell, except in one case. The `"%2d"` text of day
    31 is also the parameter of the red SGR sequence, so in a 31-day month
    with a red day before the 31st the replacement for day 31 lands inside
    that earlier sequence. */
module OverlayProofs {
  import opened JavaText
  import opened JavaTime
  import opened ColorManager
  import opened Entities
  import opened MonthGrid
  import opened Occurrences
  import opened GridTokens
  import opened Overlay

  /** The text of day `day` once the loop has handled the days before
      `upto`: highlighted when an appointment covers it, `"%2d"` otherwise. */
  function DayText(date: LocalDate, apps: seq<AppointmentValue>, upto: nat, day: nat): string
    requires 1 <= day <= LengthOfMonth(date.year, date.month)
  {
    match DayColor(apps, WithDayOfMonth(date, day))
    case Some(color) => if day < upto then Highlighted(color, day) else Format2d(day)
    case None => Format2d(day)
  }

  function DayTexts(date: LocalDate, apps: seq<AppointmentValue>, upto: nat): seq<string> {
    var n := LengthOfMonth(date.year, date.month);
    seq(n, i requires 0 <= i < n => DayText(date, apps, upto, i + 1))
  }

  /** Day `k` is coloured with the SGR sequence whose parameter, written
      out, is the `"%2d"` text of day `d`. */
  predicate Seizes(date: LocalDate, apps: seq<AppointmentValue>, k: nat, d: nat) {
    1 <= k <= LengthOfMonth(date.year, date.month)
    && DayColor(apps, WithDayOfMonth(date, k)).Some?
    && 10 <= d && SgrParameter(ToLower(DayColor(apps, WithDayOfMonth(date, k)).value)) == d
  }

  /** Some day before `d` is coloured with a sequence that holds day `d`. */
  predicate Hijacked(date: LocalDate, apps: seq<AppointmentValue>, d: nat) {
    exists k :: 1 <= k < d && Seizes(date, apps, k, d)
  }

  /** Day `k` is coloured red. */
  predicate RedDay(date: LocalDate, apps: seq<AppointmentValue>, k: nat) {
    1 <= k <= LengthOfMonth(date.year, date.month)
    && DayColor(apps, WithDayOfMonth(date, k)).Some?
    && ToLower(DayColor(apps, WithDayOfMonth(date, k)).value) == "red"
  }

  predicate RedBefore31(date: LocalDate, apps: seq<AppointmentValue>) {
    exists k :: 1 <= k < 31 && RedDay(date, apps, k)
  }

  /** Only red, whose parameter is 31, can hold a day's text, and only the
      31st's. */
  lemma SeizesIsRed(date: LocalDate, apps: seq<AppointmentValue>, k: nat, d: nat)
    requires d <= 31
    ensures Seizes(date, apps, k, d) <==> d == 31 && RedDay(date, apps, k)
  {
    if 1 <= k <= LengthOfMonth(date.year, date.month) && DayColor(apps, WithDayOfMonth(date, k)).Some? {
      ParameterRange(ToLower(DayColor(apps, WithDayOfMonth(date, k)).value));
    }
  }

  lemma HijackedIsRed(date: LocalDate, apps: seq<AppointmentValue>, d: nat)
    requires d <= 31
    ensures Hijacked(date, apps, d) <==> d == 31 && RedBefore31(date, apps)
  {
    if Hijacked(date, apps, d) {
      var k :| 1 <= k < d && Seizes(date, apps, k, d);
      SeizesIsRed(date, apps, k, d);
    }
    if d == 31 && RedBefore31(date, apps) {
      var k :| 1 <= k < 31 && RedDay(date, apps, k);
      SeizesIsRed(date, apps, k, d);
    }
  }

  // ---------------------------------------------------------------------
  // The `"%2d"` pattern and the pieces before a day's cell

  lemma PatternOfDay(d: nat)
    requires 1 <= d < 100
    ensures DayPattern(Format2d(d))
    ensures d < 10 ==> Format2d(d) == [' '] + NatToString(d)
    ensures d >= 10 ==> Format2d(d) == NatToString(d)
  {
    var digits := NatToString(d);
    if d < 10 {
      assert Format2d(d) == Spaces(1) + digits;
      assert Spaces(1) == [' '];
    }
  }

  /** The digits of a number other than `d` are not the `"%2d"` text of `d`. */
  lemma OtherNumber(q: nat, d: nat)
    requires 1 <= d < 100 && q != d
    ensures NatToString(q) != Format2d(d)
  {
    var x, f := NatToString(q), Format2d(d);
    PatternOfDay(d);
    if d < 10 {
      assert x[0] != f[0];
    } else {
      NatToStringDistinct(q, d);
    }
  }

  /** Distinct days have distinct `"%2d"` texts. */
  lemma DayTextsDistinct(k: nat, d: nat)
    requires 1 <= k < d < 100
    ensures Format2d(k) != Format2d(d)
  {
    PatternOfDay(k);
    PatternOfDay(d);
    NatToStringDistinct(k, d);
    DistinctPadded(Format2d(k), NatToString(k), k < 10, Format2d(d), NatToString(d), d < 10);
  }

  /** Two texts that are distinct digits, each perhaps after a space, are
      distinct when both or neither have the space. */
  lemma DistinctPadded(x: string, xs: string, xp: bool, y: string, ys: string, yp: bool)
    requires xs != ys && AllDigits(xs) && xs != [] && AllDigits(ys) && ys != []
    requires x == (if xp then [' '] + xs else xs) && y == (if yp then [' '] + ys else ys)
    requires yp ==> xp
    ensures x != y
  {
    if yp {
      assert x == [' '] + xs && y == [' '] + ys;
      assert x[1..] == xs && y[1..] == ys;
    } else if xp {
      assert x == [' '] + xs && y == ys;
      assert IsDigit(ys[0]);
    }
  }

  lemma PlainTokenInert(k: nat, d: nat, nl: string)
    requires 1 <= k < d <= 31 && (nl == "" || nl == "\n")
    ensures Inert(Format2d(k) + " " + nl, Format2d(d))
  {
    DayPair(k, d);
    PlainPieceInert(Format2d(k), Format2d(d), nl);
  }

  /** The `"%2d"` texts of two days: when the later one starts with a
      space, so does the earlier one. */
  lemma DayPair(k: nat, d: nat)
    requires 1 <= k < d < 100
    ensures |Format2d(k)| == 2 && Format2d(k) != Format2d(d) && DayPattern(Format2d(d))
    ensures Format2d(d)[0] == ' ' ==> Format2d(k)[0] == ' '
  {
    PatternOfDay(k);
    PatternOfDay(d);
    DayTextsDistinct(k, d);
  }

  lemma BlankTokenInert(d: nat, nl: string)
    requires 1 <= d <= 31 && (nl == "" || nl == "\n")
    ensures Inert("   " + nl, Format2d(d))
  {
    PatternOfDay(d);
    BlankPieceInert(Format2d(d), nl);
  }

  /** The piece of a blank cell: three spaces and perhaps a newline. */
  lemma BlankPieceInert(pat: string, nl: string)
    requires DayPattern(pat) && (nl == "" || nl == "\n")
    ensures Inert("   " + nl, pat)
  {
    NoDigitsAvoid("   " + nl, pat);
  }

  /** The piece of a highlighted day: padding, the colour's sequence, the
      digits, the reset sequence, a space and perhaps a newline. Neither
      parameter nor digits being the pattern, it holds no occurrence. */
  lemma HighlightedPieceInert(pad: string, sgr: string, code: string, digits: string, ct: string, pat: string, nl: string)
    requires DayPattern(pat) && (nl == "" || nl == "\n")
    requires forall i :: 0 <= i < |pad| ==> pad[i] == ' '
    requires |code| <= 2 && code != pat && |digits| <= 2 && digits != pat
    requires pat[0] == ' ' ==> |pad| > 0
    requires sgr == [Esc, '['] + code + "m" && ct == sgr + digits + Reset
    ensures Inert(pad + ct + " " + nl, pat)
  {
    var part1, part2, part3 := pad + [Esc, '['] + code + "m", digits + [Esc, '['], "0" + ("m " + nl);
    SequenceAvoids(pad, code, pat);
    FencedDigits([], digits, [Esc, '['], pat);
    assert [] + digits + [Esc, '['] == part2;
    FencedDigits([], "0", "m " + nl, pat);
    assert [] + "0" + ("m " + nl) == part3;
    JoinThree(part1, part2, part3, pat);
    PieceParts(pad, code, digits, nl);
  }

  /** Blanks and the introducer of a sequence, its parameter and its final
      `m`. */
  lemma SequenceAvoids(pad: string, code: string, pat: string)
    requires DayPattern(pat) && |code| <= 2 && code != pat
    requires forall i :: 0 <= i < |pad| ==> pad[i] == ' '
    ensures Avoids(pad + [Esc, '['] + code + "m", pat)
  {
    var a := pad + [Esc, '['];
    assert NoDigits(a);
    FencedDigits(a, code, "m", pat);
  }

  lemma JoinThree(a: string, b: string, c: string, pat: string)
    requires DayPattern(pat) && Avoids(a, pat) && Avoids(b, pat) && Avoids(c, pat)
    requires a != [] && a[|a| - 1] == 'm' && b != [] && b[|b| - 1] == '['
    ensures Avoids(a + b + c, pat)
  {
    AvoidsJoin(a, b, pat);
    assert (a + b)[|a + b| - 1] == '[';
    AvoidsJoin(a + b, c, pat);
  }

  lemma PieceParts(pad: string, code: string, digits: string, nl: string)
    requires nl == "" || nl == "\n"
    ensures var t := pad + ([Esc, '['] + code + "m" + digits + Reset) + " " + nl;
      t == (pad + [Esc, '['] + code + "m") + (digits + [Esc, '[']) + ("0" + ("m " + nl))
      && |t| > 0 && !IsDigit(t[|t| - 1])
      && (pad != [] ==> t[0] == pad[0])
  {
  }

  /** A number's digits, for the parameters and days that occur here: at
      most two, and not the `"%2d"` text of `d` unless the number is `d`. */
  lemma NumberNotPattern(q: nat, d: nat)
    requires q < 100 && 1 <= d <= 31 && !(10 <= d && q == d)
    ensures |NatToString(q)| <= 2 && NatToString(q) != Format2d(d)
  {
    PatternOfDay(d);
    if 10 <= d {
      OtherNumber(q, d);
    } else {
      assert NatToString(q)[0] != Format2d(d)[0];
    }
  }

  /** A highlighted day before day `d` holds no `"%2d"` text of `d` unless
      its colour's parameter is `d`. */
  lemma HighlightedTokenInert(color: string, k: nat, d: nat, nl: string)
    requires 1 <= k < d <= 31 && (nl == "" || nl == "\n")
    requires !(10 <= d && SgrParameter(ToLower(color)) == d)
    ensures Inert(Highlighted(color, k) + " " + nl, Format2d(d))
  {
    ParameterRange(ToLower(color));
    HighlightedParts(color, k);
    ShapedTokenInert(Highlighted(color, k), SgrParameter(ToLower(color)), k, d, nl);
  }

  /** The numbers of a highlighted piece, its parameter `code` and its day
      `digits`, are short and differ from the pattern. */
  predicate ShortNumbers(code: string, digits: string, pat: string) {
    DayPattern(pat) && |code| <= 2 && code != pat && |digits| <= 2 && digits != pat
  }

  /** The same, for any text of the shape of a highlighted day. */
  lemma ShapedTokenInert(h: string, q: nat, k: nat, d: nat, nl: string)
    requires 1 <= k < d <= 31 && (nl == "" || nl == "\n") && q < 100
    requires !(10 <= d && q == d)
    requires PaddedTo11(h, Sgr(q) + NatToString(k) + Reset)
    ensures Inert(h + " " + nl, Format2d(d))
  {
    TokenFacts(q, k, d);
    PaddedPieceInert(h, Sgr(q), NatToString(q), NatToString(k), Format2d(d), nl);
  }

  /** What the pattern of day `d` and the numbers of an earlier highlighted
      day have to do with each other. */
  lemma TokenFacts(q: nat, k: nat, d: nat)
    requires 1 <= k < d <= 31 && q < 100 && !(10 <= d && q == d)
    ensures ShortNumbers(NatToString(q), NatToString(k), Format2d(d))
    ensures Format2d(d)[0] == ' ' ==> |Sgr(q) + NatToString(k) + Reset| < 11
    ensures Sgr(q) == [Esc, '['] + NatToString(q) + "m"
  {
    PatternOfDay(d);
    NumberNotPattern(q, d);
    NumberNotPattern(k, d);
    if Format2d(d)[0] == ' ' {
      assert k < 10;
      ShortSequence(NatToString(q), NatToString(k));
    }
  }

  /** A sequence with a parameter of at most two digits around one digit
      is shorter than eleven characters. */
  lemma ShortSequence(code: string, digits: string)
    requires |code| <= 2 && |digits| == 1
    ensures |[Esc, '['] + code + "m" + digits + Reset| < 11
  {
  }

  /** A padded piece of a highlighted day, for any parameter and digits. */
  lemma PaddedPieceInert(h: string, sgr: string, code: string, digits: string, pat: string, nl: string)
    requires ShortNumbers(code, digits, pat) && (nl == "" || nl == "\n")
    requires sgr == [Esc, '['] + code + "m"
    requires PaddedTo11(h, sgr + digits + Reset) && (pat[0] == ' ' ==> |sgr + digits + Reset| < 11)
    ensures Inert(h + " " + nl, pat)
  {
    var ct := sgr + digits + Reset;
    var pad := Spaces(|h| - |ct|);
    assert forall i :: 0 <= i < |pad| ==> pad[i] == ' ';
    HighlightedPieceInert(pad, sgr, code, digits, ct, pat, nl);
  }

  /** The piece of a day before day `d` takes no part in an occurrence of
      the `"%2d"` text of `d`, unless that day seizes it. */
  lemma DayTokenInert(date: LocalDate, apps: seq<AppointmentValue>, upto: nat, k: nat, d: nat, nl: string)
    requires 1 <= k < d <= LengthOfMonth(date.year, date.month)
    requires !Seizes(date, apps, k, d) && (nl == "" || nl == "\n")
    ensures Inert(DayText(date, apps, upto, k) + " " + nl, Format2d(d))
  {
    match DayColor(apps, WithDayOfMonth(date, k))
    case Some(color) =>
      if k < upto {
        HighlightedTokenInert(color, k, d, nl);
      } else {
        PlainTokenInert(k, d, nl);
      }
    case None =>
      PlainTokenInert(k, d, nl);
  }

  /** The pieces before the cell of day `m` take no part in an occurrence
      of the `"%2d"` text of day `d`, when no day before `m` seizes it. */
  lemma PrefixInert(offset: nat, date: LocalDate, apps: seq<AppointmentValue>, upto: nat, d: nat, m: nat)
    requires 1 <= m <= d <= LengthOfMonth(date.year, date.month)
    requires forall k :: 1 <= k < m ==> !Seizes(date, apps, k, d)
    ensures forall i :: 0 <= i < offset + m - 1 ==>
      Inert(Tokens(offset, DayTexts(date, apps, upto))[i], Format2d(d))
  {
    var texts := DayTexts(date, apps, upto);
    var ts := Tokens(offset, texts);
    forall i | 0 <= i < offset + m - 1 ensures Inert(ts[i], Format2d(d)) {
      var nl := Newline(offset, |texts|, i);
      assert ts[i] == Cell(offset, texts, i) + nl;
      if i < offset {
        BlankTokenInert(d, nl);
      } else {
        DayTokenInert(date, apps, upto, i - offset + 1, d, nl);
      }
    }
  }

  // ---------------------------------------------------------------------
  // The loop, turn by turn

  lemma FirstTexts(date: LocalDate, apps: seq<AppointmentValue>)
    ensures DayTexts(date, apps, 1) == PlainTexts(LengthOfMonth(date.year, date.month))
  {
  }

  /** Turn `d` rewrites the text of day `d` and nothing else, when no
      earlier day seizes it. */
  lemma StepOnGrid(offset: nat, date: LocalDate, apps: seq<AppointmentValue>, d: nat)
    requires 1 <= d <= LengthOfMonth(date.year, date.month)
    requires !Hijacked(date, apps, d)
    ensures OverlayStep(GridOf(offset, DayTexts(date, apps, d)), date, apps, d)
         == GridOf(offset, DayTexts(date, apps, d + 1))
  {
    var texts := DayTexts(date, apps, d);
    NextTexts(date, apps, d);
    match DayColor(apps, WithDayOfMonth(date, d))
    case None =>
      assert DayTexts(date, apps, d + 1) == texts;
    case Some(color) =>
      PrefixInert(offset, date, apps, d, d, d);
      PatternOfDay(d);
      HighlightedIsLiteral(color, d);
      ReplaceInGrid(offset, texts, d - 1, Format2d(d), Highlighted(color, d));
  }

  /** Turn `d` changes the text of day `d` alone, which was still plain. */
  lemma NextTexts(date: LocalDate, apps: seq<AppointmentValue>, d: nat)
    requires 1 <= d <= LengthOfMonth(date.year, date.month)
    ensures d - 1 < |DayTexts(date, apps, d)| && DayTexts(date, apps, d)[d - 1] == Format2d(d)
    ensures DayTexts(date, apps, d + 1)
         == DayTexts(date, apps, d)[d - 1 := DayText(date, apps, d + 1, d)]
  {
    var n := LengthOfMonth(date.year, date.month);
    var before, after := DayTexts(date, apps, d), DayTexts(date, apps, d + 1);
    var next := before[d - 1 := DayText(date, apps, d + 1, d)];
    TextAt(date, apps, d, d - 1);
    forall i | 0 <= i < n ensures after[i] == next[i] {
      TextAt(date, apps, d + 1, i);
      if i != d - 1 {
        TextAt(date, apps, d, i);
        OtherDayUnchanged(date, apps, d, i + 1);
      }
    }
  }

  lemma TextAt(date: LocalDate, apps: seq<AppointmentValue>, upto: nat, i: nat)
    requires i < LengthOfMonth(date.year, date.month)
    ensures |DayTexts(date, apps, upto)| == LengthOfMonth(date.year, date.month)
    ensures DayTexts(date, apps, upto)[i] == DayText(date, apps, upto, i + 1)
  {
  }

  /** Turn `d` leaves the text of every other day as it was. */
  lemma OtherDayUnchanged(date: LocalDate, apps: seq<AppointmentValue>, d: nat, day: nat)
    requires 1 <= day <= LengthOfMonth(date.year, date.month) && day != d
    ensures DayText(date, apps, d + 1, day) == DayText(date, apps, d, day)
  {
  }

  lemma {:induction false} OverlaidSteps(offset: nat, grid: string, date: LocalDate, apps: seq<AppointmentValue>, m: nat)
    requires m <= LengthOfMonth(date.year, date.month)
    requires grid == GridOf(offset, DayTexts(date, apps, 1))
    requires forall d :: 1 <= d <= m ==> !Hijacked(date, apps, d)
    ensures Overlaid(grid, date, apps, m) == GridOf(offset, DayTexts(date, apps, m + 1))
    decreases m
  {
    if m > 0 {
      OverlaidSteps(offset, grid, date, apps, m - 1);
      OverlaidStep(offset, grid, date, apps, m);
    }
  }

  /** Turn `m` of the loop, from the texts after the turns before it. */
  lemma OverlaidStep(offset: nat, grid: string, date: LocalDate, apps: seq<AppointmentValue>, m: nat)
    requires 1 <= m <= LengthOfMonth(date.year, date.month) && !Hijacked(date, apps, m)
    requires Overlaid(grid, date, apps, m - 1) == GridOf(offset, DayTexts(date, apps, m))
    ensures Overlaid(grid, date, apps, m) == GridOf(offset, DayTexts(date, apps, m + 1))
  {
    assert Overlaid(grid, date, apps, m) == OverlayStep(Overlaid(grid, date, apps, m - 1), date, apps, m);
    StepOnGrid(offset, date, apps, m);
  }

  /** The grid of `getMonth` is the grid of the texts before the first turn. */
  lemma GridBeforeLoop(date: LocalDate, apps: seq<AppointmentValue>)
    ensures Grid(DayOffset(date), LengthOfMonth(date.year, date.month))
         == GridOf(DayOffset(date), DayTexts(date, apps, 1))
  {
    FirstTexts(date, apps);
  }

  // ---------------------------------------------------------------------
  // The result

  /** `getMonthWithAppointments` returns the month grid whose day texts are
      the highlighted day, in the colour of the first covering appointment,
      for every covered day and the plain `"%2d"` day for every other one;
      this holds unless the month has 31 days and a red day comes before
      the 31st. */
  lemma MonthHighlightsCoveredDays(date: LocalDate, apps: seq<AppointmentValue>)
    requires !(LengthOfMonth(date.year, date.month) == 31 && RedBefore31(date, apps))
    ensures var n := LengthOfMonth(date.year, date.month);
      Overlaid(Grid(DayOffset(date), n), date, apps, n) == GridOf(DayOffset(date), DayTexts(date, apps, n + 1))
  {
    var n := LengthOfMonth(date.year, date.month);
    forall d | 1 <= d <= n ensures !Hijacked(date, apps, d) {
      HijackedIsRed(date, apps, d);
    }
    GridBeforeLoop(date, apps);
    OverlaidSteps(DayOffset(date), Grid(DayOffset(date), n), date, apps, n);
  }

  /** When no appointment covers a day of the month the grid is returned
      as `getMonth` built it. */
  lemma UncoveredMonthIsPlain(date: LocalDate, apps: seq<AppointmentValue>)
    requires forall k :: 1 <= k <= LengthOfMonth(date.year, date.month) ==>
      DayColor(apps, WithDayOfMonth(date, k)).None?
    ensures var n := LengthOfMonth(date.year, date.month);
      Overlaid(Grid(DayOffset(date), n), date, apps, n) == Grid(DayOffset(date), n)
  {
    var n := LengthOfMonth(date.year, date.month);
    forall d | 1 <= d <= n ensures !Hijacked(date, apps, d) {
      forall k | 1 <= k < d ensures !Seizes(date, apps, k, d) {
      }
    }
    GridBeforeLoop(date, apps);
    OverlaidSteps(DayOffset(date), Grid(DayOffset(date), n), date, apps, n);
    UncoveredTexts(date, apps, n + 1);
  }

  /** Without covered days every day keeps its plain text. */
  lemma UncoveredTexts(date: LocalDate, apps: seq<AppointmentValue>, upto: nat)
    requires forall k :: 1 <= k <= LengthOfMonth(date.year, date.month) ==>
      DayColor(apps, WithDayOfMonth(date, k)).None?
    ensures DayTexts(date, apps, upto) == PlainTexts(LengthOfMonth(date.year, date.month))
  {
    var n := LengthOfMonth(date.year, date.month);
    forall i | 0 <= i < n ensures DayTexts(date, apps, upto)[i] == PlainTexts(n)[i] {
      TextAt(date, apps, upto, i);
    }
  }
}
