/** The one case `getMonthWithAppointments` gets wrong. Red is written
    with the SGR parameter 31, and `String.format("%2d", 31)` is `"31"`: in
    a 31-day month whose first red day comes before the 31st, the first
    `"31"` in the text by the time the loop reaches day 31 is the parameter
    of that red day's sequence, not the cell of day 31. */
module RedCollision {
  import opened JavaText
  import opened JavaTime
  import opened ColorManager
  import opened Entities
  import opened MonthGrid
  import opened Occurrences
  import opened GridTokens
  import opened Overlay
  import opened OverlayProofs

  /** The first occurrence of `pat` in `s` is the parameter of a control
      sequence: it comes right after an escape character and `[`. */
  ghost predicate FirstInsideSequence(s: string, pat: string) {
    exists i :: 2 <= i <= |s| && IndexOf(s, pat) == Some(i) && s[i - 2..i] == [Esc, '[']
  }

  /** In a 31-day month with a red day before the 31st, after thirty turns
      of the loop the first `"31"` (the `"%2d"` text of the last day, see
      `ThirtyOne`) sits inside the sequence of the first red day, which is
      where turn 31 puts its replacement instead of the cell of day 31. */
  lemma RedHijacksDay31(date: LocalDate, apps: seq<AppointmentValue>)
    requires LengthOfMonth(date.year, date.month) == 31 && RedBefore31(date, apps)
    ensures var n := LengthOfMonth(date.year, date.month);
      FirstInsideSequence(Overlaid(Grid(DayOffset(date), n), date, apps, n - 1), Format2d(n))
  {
    TokensOfLastTurn(date, apps);
    RedInTokens(DayOffset(date), date, apps);
  }

  /** After thirty turns, the text is the pieces of the grid whose red days
      are highlighted. */
  lemma TokensOfLastTurn(date: LocalDate, apps: seq<AppointmentValue>)
    requires LengthOfMonth(date.year, date.month) == 31
    ensures var n := LengthOfMonth(date.year, date.month);
      Overlaid(Grid(DayOffset(date), n), date, apps, n - 1) == Concat(Tokens(DayOffset(date), DayTexts(date, apps, n)))
  {
    GridBeforeLastTurn(date, apps);
    GridIsTokens(DayOffset(date), DayTexts(date, apps, LengthOfMonth(date.year, date.month)));
  }

  /** In those pieces the first occurrence of the last day's text is the
      parameter of the first red day's sequence. */
  lemma RedInTokens(offset: nat, date: LocalDate, apps: seq<AppointmentValue>)
    requires LengthOfMonth(date.year, date.month) == 31 && RedBefore31(date, apps)
    ensures var n := LengthOfMonth(date.year, date.month);
      FirstInsideSequence(Concat(Tokens(offset, DayTexts(date, apps, n))), Format2d(n))
  {
    var n := LengthOfMonth(date.year, date.month);
    var k := PiecesBeforeRed(offset, date, apps);
    var pad, rest := RedToken(offset, date, apps, k);
    PatternOfDay(n);
    CellInGrid(offset, n, offset + k - 1);
    FirstInSequence(Tokens(offset, DayTexts(date, apps, n)), offset + k - 1, pad, rest, Format2d(n));
  }

  /** The first red day `k`: the pieces before its cell take no part in an
      occurrence of `"31"`. */
  lemma PiecesBeforeRed(offset: nat, date: LocalDate, apps: seq<AppointmentValue>) returns (k: nat)
    requires LengthOfMonth(date.year, date.month) == 31 && RedBefore31(date, apps)
    ensures 1 <= k < 31 && RedDay(date, apps, k)
    ensures var n := LengthOfMonth(date.year, date.month);
      forall i :: 0 <= i < offset + k - 1 ==> Inert(Tokens(offset, DayTexts(date, apps, n))[i], Format2d(n))
  {
    var n := LengthOfMonth(date.year, date.month);
    k := FirstRed(date, apps, 30);
    forall j | 1 <= j < k ensures !Seizes(date, apps, j, n) {
      SeizesIsRed(date, apps, j, n);
    }
    PrefixInert(offset, date, apps, n, n, k);
  }

  /** The first red day among days 1 to `m`, when there is one. */
  lemma {:induction false} FirstRed(date: LocalDate, apps: seq<AppointmentValue>, m: nat) returns (k: nat)
    requires exists j :: 1 <= j <= m && RedDay(date, apps, j)
    ensures 1 <= k <= m && RedDay(date, apps, k)
    ensures forall j :: 1 <= j < k ==> !RedDay(date, apps, j)
    decreases m
  {
    if exists j :: 1 <= j < m && RedDay(date, apps, j) {
      k := FirstRed(date, apps, m - 1);
    } else {
      k := m;
    }
  }

  /** Pieces whose first `j` are inert, then a piece whose sequence has
      the pattern as its parameter, after blanks. */
  ghost predicate RedPieceAt(ts: seq<string>, j: nat, pad: string, rest: string, pat: string) {
    && j < |ts| && DayPattern(pat)
    && (forall i :: 0 <= i < j ==> Inert(ts[i], pat))
    && OpensWith(ts[j], pad, pat, rest)
  }

  /** The first occurrence of the pattern in such pieces is the parameter
      of that sequence. */
  lemma FirstInSequence(ts: seq<string>, j: nat, pad: string, rest: string, pat: string)
    requires RedPieceAt(ts, j, pad, rest, pat)
    ensures FirstInsideSequence(Concat(ts), pat)
  {
    var s := Concat(ts);
    InertPrefix(ts, j, pat);
    ConcatSplit(ts, j);
    SequenceFirst(Concat(ts[..j]), ts[j], Concat(ts[j + 1..]), pad, rest, pat);
    var i := |Concat(ts[..j])| + |pad| + 2;
    assert 2 <= i <= |s|;
  }

  /** The loop has highlighted every covered day before the last in its own
      cell: no day up to the 30th can be seized. */
  lemma GridBeforeLastTurn(date: LocalDate, apps: seq<AppointmentValue>)
    requires LengthOfMonth(date.year, date.month) == 31
    ensures var n := LengthOfMonth(date.year, date.month);
      Overlaid(Grid(DayOffset(date), n), date, apps, n - 1) == GridOf(DayOffset(date), DayTexts(date, apps, n))
  {
    var n := LengthOfMonth(date.year, date.month);
    forall d | 1 <= d <= n - 1 ensures !Hijacked(date, apps, d) {
      HijackedIsRed(date, apps, d);
    }
    GridBeforeLoop(date, apps);
    OverlaidSteps(DayOffset(date), Grid(DayOffset(date), n), date, apps, n - 1);
  }

  lemma ThirtyOne()
    ensures Format2d(31) == "31" && DayPattern("31")
  {
    PatternOfDay(31);
    assert NatToString(31) == NatToString(3) + [DigitChar(1)];
  }

  /** The piece of a red day once it is highlighted: blanks, the escape
      character and `[`, the parameter `31`, and the rest. */
  lemma RedToken(offset: nat, date: LocalDate, apps: seq<AppointmentValue>, k: nat) returns (pad: string, rest: string)
    requires LengthOfMonth(date.year, date.month) == 31
    requires 1 <= k < 31 && RedDay(date, apps, k)
    ensures var n := LengthOfMonth(date.year, date.month);
      OpensWith(Tokens(offset, DayTexts(date, apps, n))[offset + k - 1], pad, Format2d(n), rest)
  {
    var after := HighlightedPiece(offset, date, apps, k);
    pad, rest := RedText(DayColor(apps, WithDayOfMonth(date, k)).value, k, after);
    ThirtyOne();
  }

  /** `t` is blanks, the escape character and `[`, `p`, and the rest. */
  predicate OpensWith(t: string, pad: string, p: string, rest: string) {
    (forall i :: 0 <= i < |pad| ==> pad[i] == ' ') && t == pad + [Esc, '['] + p + rest
  }

  /** The piece of a day highlighted before the last turn. */
  lemma HighlightedPiece(offset: nat, date: LocalDate, apps: seq<AppointmentValue>, k: nat) returns (after: string)
    requires 1 <= k < LengthOfMonth(date.year, date.month)
    requires DayColor(apps, WithDayOfMonth(date, k)).Some?
    ensures var n := LengthOfMonth(date.year, date.month);
      Tokens(offset, DayTexts(date, apps, n))[offset + k - 1]
      == Highlighted(DayColor(apps, WithDayOfMonth(date, k)).value, k) + after
  {
    var n := LengthOfMonth(date.year, date.month);
    after := TokenOfDay(offset, DayTexts(date, apps, n), k);
    EarlierDayHighlighted(date, apps, n, k);
  }

  /** The piece of day `k`: its text, then what follows it. */
  lemma TokenOfDay(offset: nat, texts: seq<string>, k: nat) returns (after: string)
    requires 1 <= k <= |texts|
    ensures Tokens(offset, texts)[offset + k - 1] == texts[k - 1] + after
  {
    var nl := Newline(offset, |texts|, offset + k - 1);
    after := " " + nl;
    assert Tokens(offset, texts)[offset + k - 1] == texts[k - 1] + " " + nl;
  }

  /** A coloured day before turn `upto` shows its highlighted text. */
  lemma EarlierDayHighlighted(date: LocalDate, apps: seq<AppointmentValue>, upto: nat, k: nat)
    requires 1 <= k < upto && k <= LengthOfMonth(date.year, date.month)
    requires DayColor(apps, WithDayOfMonth(date, k)).Some?
    ensures |DayTexts(date, apps, upto)| == LengthOfMonth(date.year, date.month)
    ensures DayTexts(date, apps, upto)[k - 1] == Highlighted(DayColor(apps, WithDayOfMonth(date, k)).value, k)
  {
    TextAt(date, apps, upto, k - 1);
  }

  /** A day highlighted in red, then `after`: blanks, the escape
      character and `[`, the parameter `31`, and the rest. */
  lemma RedText(color: string, k: nat, after: string) returns (pad: string, rest: string)
    requires ToLower(color) == "red"
    ensures OpensWith(Highlighted(color, k) + after, pad, "31", rest)
  {
    HighlightedParts(color, k);
    RedCode(color);
    var ct := Sgr(31) + NatToString(k) + Reset;
    pad := Spaces(|Highlighted(color, k)| - |ct|);
    rest := "m" + NatToString(k) + Reset + after;
    ThirtyOneCode();
    RedPiece(Highlighted(color, k), pad, NatToString(k), after);
  }

  lemma CellInGrid(offset: nat, n: nat, j: nat)
    requires j < offset + n
    ensures j < 7 * RowCount(offset, n)
  {
  }

  lemma RedCode(color: string)
    requires ToLower(color) == "red"
    ensures SgrParameter(ToLower(color)) == 31
  {
  }

  lemma ThirtyOneCode()
    ensures Sgr(31) == [Esc, '['] + "31" + "m"
  {
    assert NatToString(31) == NatToString(3) + [DigitChar(1)];
  }

  lemma RedPiece(h: string, pad: string, digits: string, after: string)
    requires h == pad + ([Esc, '['] + "31" + "m" + digits + Reset)
    ensures h + after == pad + [Esc, '['] + "31" + ("m" + digits + Reset + after)
  {
  }

  /** Text that holds no occurrence and does not end in a digit, then a
      piece whose sequence has the pattern as its parameter: the first
      occurrence is that parameter. */
  lemma SequenceFirst(pre: string, t: string, after: string, pad: string, rest: string, pat: string)
    requires DayPattern(pat) && Avoids(pre, pat) && (pre == [] || !IsDigit(pre[|pre| - 1]))
    requires forall i :: 0 <= i < |pad| ==> pad[i] == ' '
    requires t == pad + [Esc, '['] + pat + rest
    ensures var i := |pre| + |pad| + 2;
      IndexOf(pre + t + after, pat) == Some(i) && (pre + t + after)[i - 2..i] == [Esc, '[']
  {
    var intro := pad + [Esc, '['];
    assert NoDigits(intro);
    NoDigitsAvoid(intro, pat);
    AvoidsJoin(pre, intro, pat);
    var b := pre + intro;
    assert pre + t + after == b + pat + (rest + after);
    FirstOccurrence(b, pat, rest + after);
    assert b[|b| - 2..] == [Esc, '['];
    var whole := b + pat + (rest + after);
    assert whole[..|b|] == b;
    assert whole[|b| - 2..|b|] == b[|b| - 2..];
  }
}
