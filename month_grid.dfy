/** The month grid of View/CalendarInterface.java (`getDayOffset`,
    `getMonth`): a month laid out as rows of seven three-character cells,
    Monday first, with blank cells before day 1 and after the last day. */
module MonthGrid {
  import opened JavaText
  import opened JavaTime

  /** Seven cells of three characters. */
  const RowWidth: nat := 21

  /** `getDayOffset`: the number of blank cells before day 1, the ISO
      weekday of the first of the month minus one. */
  function DayOffset(date: LocalDate): (offset: nat)
    ensures offset <= 6
    ensures offset == DayOfWeek(FirstOfMonth(date)) - 1
  {
    DayOfWeek(Date(date.year, date.month, date.day - (date.day - 1))) - 1
  }

  // ---------------------------------------------------------------------
  // The grid as cells, pieces and rows

  /** The number of rows: enough for `offset + n` cells, plus one more. When
      `offset + n` is a multiple of seven that last row is blank. */
  function RowCount(offset: nat, n: nat): nat {
    (offset + n) / 7 + 1
  }

  /** Cell `j` (row-major) of a grid whose day texts are `texts`: day
      `j - offset + 1` followed by a space, or three blanks. */
  function Cell(offset: nat, texts: seq<string>, j: nat): string {
    if offset <= j < offset + |texts| then texts[j - offset] + " " else "   "
  }

  /** Strings written one after the other. */
  function Concat(xs: seq<string>): string
    decreases |xs|
  {
    if xs == [] then "" else Concat(xs[..|xs| - 1]) + xs[|xs| - 1]
  }

  /** The first `c` cells of row `r`. */
  function RowCells(offset: nat, texts: seq<string>, r: nat, c: nat): (cells: seq<string>)
    ensures |cells| == c
    ensures forall i :: 0 <= i < c ==> cells[i] == Cell(offset, texts, 7 * r + i)
  {
    seq(c, i requires 0 <= i => Cell(offset, texts, 7 * r + i))
  }

  /** The text of the first `c` cells of row `r`. */
  function RowText(offset: nat, texts: seq<string>, r: nat, c: nat): string {
    Concat(RowCells(offset, texts, r, c))
  }

  /** The rows of the grid, without their newlines. */
  function Rows(offset: nat, texts: seq<string>): (rows: seq<string>)
    ensures |rows| == RowCount(offset, |texts|)
    ensures forall r :: 0 <= r < |rows| ==> rows[r] == RowText(offset, texts, r, 7)
  {
    seq(RowCount(offset, |texts|), r requires 0 <= r => RowText(offset, texts, r, 7))
  }

  /** The whole grid: the rows joined by newlines, so that a newline follows
      exactly the cells in the seventh column, except in the last row. */
  function GridOf(offset: nat, texts: seq<string>): string {
    Join(Rows(offset, texts), "\n")
  }

  /** Rows, each followed by a newline: what the builder has written once
      these rows are complete. */
  function Lines(rows: seq<string>): string
    decreases |rows|
  {
    if rows == [] then "" else Lines(rows[..|rows| - 1]) + rows[|rows| - 1] + "\n"
  }

  /** `String.format("%2d", d)` for each day `d` of an `n`-day month. */
  function PlainTexts(n: nat): (texts: seq<string>)
    ensures |texts| == n
    ensures forall i :: 0 <= i < n ==> texts[i] == Format2d(i + 1)
  {
    seq(n, i requires 0 <= i => Format2d(i + 1))
  }

  /** The plain grid of a month of `n` days starting after `offset` blanks. */
  function Grid(offset: nat, n: nat): string {
    GridOf(offset, PlainTexts(n))
  }

  // ---------------------------------------------------------------------
  // getMonth

  /** `getMonth(date)`: the blank cells before day 1, then one `"%2d "` cell
      per day with a newline after every seventh cell, then blank cells up
      to the end of the row. */
  method Month(date: LocalDate) returns (s: string)
    ensures s == Grid(DayOffset(date), LengthOfMonth(date.year, date.month))
  {
    var offset := DayOffset(date);
    var n := LengthOfMonth(date.year, date.month);
    ghost var texts := PlainTexts(n);
    ghost var rows := Rows(offset, texts);
    s := "";
    RowTextEmpty(offset, texts, 0);
    var i := 0;
    while i < offset
      invariant 0 <= i <= offset
      invariant s == RowText(offset, texts, 0, i)
    {
      RowTextStep(offset, texts, 0, i);
      s := s + "   ";
      i := i + 1;
    }
    assert s == Lines(rows[..0]) + RowText(offset, texts, 0, offset);
    var dayPosition := offset;
    var day := 1;
    ghost var r := 0;
    while day <= n
      invariant 1 <= day <= n + 1
      invariant 0 <= dayPosition < 7
      invariant offset + day - 1 == 7 * r + dayPosition
      invariant s == Lines(rows[..r]) + RowText(offset, texts, r, dayPosition)
    {
      DayStep(offset, n, r, dayPosition, day, Lines(rows[..r]), s);
      s := s + (Format2d(day) + " ");
      NextColumn(dayPosition);
      dayPosition := (dayPosition + 1) % 7;
      if dayPosition == 0 {
        s := s + "\n";
        NextLine(rows, r);
        r := r + 1;
      }
      day := day + 1;
    }
    LastRow(offset, n, r, dayPosition);
    Finish(offset, texts, r, dayPosition, Lines(rows[..r]), s);
    s := s + Spaces(3 * (7 - dayPosition));
  }

  /** Blank cells up to the end of the row complete the grid. */
  lemma Finish(offset: nat, texts: seq<string>, r: nat, c: nat, lines: string, s: string)
    requires c < 7 && offset + |texts| == 7 * r + c
    requires lines == Lines(Rows(offset, texts)[..r])
    requires s == lines + RowText(offset, texts, r, c)
    ensures s + Spaces(3 * (7 - c)) == GridOf(offset, texts)
  {
    var rows := Rows(offset, texts);
    LastRow(offset, |texts|, r, c);
    assert rows[r] == RowText(offset, texts, r, c) + Spaces(3 * (7 - c)) by {
      BlankTail(offset, texts, r, c, 7);
    }
    CompleteLast(rows, r, RowText(offset, texts, r, c), Spaces(3 * (7 - c)), s);
  }

  /** The finished lines, the written part of the last row and the rest of
      it are the rows joined by newlines. */
  lemma CompleteLast(rows: seq<string>, r: nat, head: string, tail: string, s: string)
    requires r + 1 == |rows| && rows[r] == head + tail
    requires s == Lines(rows[..r]) + head
    ensures s + tail == Join(rows, "\n")
  {
    Associative(Lines(rows[..r]), head, tail);
    LinesThenLast(rows[..r], rows[r]);
    assert rows[..r] + [rows[r]] == rows;
  }

  lemma NextColumn(c: nat)
    requires c < 7
    ensures (c + 1) % 7 == if c == 6 then 0 else c + 1
  {
  }

  /** The row the last day ends in is the last row. */
  lemma LastRow(offset: nat, n: nat, r: nat, c: nat)
    requires c < 7 && offset + n == 7 * r + c
    ensures RowCount(offset, n) == r + 1
  {
  }

  /** Writing the cell of `day` extends the current row by that cell. */
  lemma DayStep(offset: nat, n: nat, r: nat, c: nat, day: nat, lines: string, s: string)
    requires c < 7 && 1 <= day <= n && offset + day - 1 == 7 * r + c
    requires s == lines + RowText(offset, PlainTexts(n), r, c)
    ensures s + (Format2d(day) + " ") == lines + RowText(offset, PlainTexts(n), r, c + 1)
  {
    DayCell(offset, n, 7 * r + c, day);
    RowTextStep(offset, PlainTexts(n), r, c);
    Associative(lines, RowText(offset, PlainTexts(n), r, c), Format2d(day) + " ");
  }

  lemma DayCell(offset: nat, n: nat, j: nat, day: nat)
    requires 1 <= day <= n && j == offset + day - 1
    ensures Cell(offset, PlainTexts(n), j) == Format2d(day) + " "
  {
  }

  lemma RowTextStep(offset: nat, texts: seq<string>, r: nat, c: nat)
    ensures RowText(offset, texts, r, c + 1) == RowText(offset, texts, r, c) + Cell(offset, texts, 7 * r + c)
  {
    var cells := RowCells(offset, texts, r, c + 1);
    assert cells[..c] == RowCells(offset, texts, r, c);
  }

  lemma RowTextEmpty(offset: nat, texts: seq<string>, r: nat)
    ensures RowText(offset, texts, r, 0) == ""
  {
    assert RowCells(offset, texts, r, 0) == [];
  }

  lemma Associative(x: string, y: string, z: string)
    ensures (x + y) + z == x + (y + z)
  {
  }

  /** Completing row `r` adds it and its newline to the finished lines. */
  lemma NextLine(rows: seq<string>, r: nat)
    requires r < |rows|
    ensures Lines(rows[..r]) + rows[r] + "\n" == Lines(rows[..r + 1])
  {
    assert rows[..r + 1][..r] == rows[..r];
  }

  /** Finished lines followed by the last row are the rows joined by
      newlines. */
  lemma {:induction false} LinesThenLast(rows: seq<string>, last: string)
    ensures Lines(rows) + last == Join(rows + [last], "\n")
    decreases |rows|
  {
    if rows == [] {
      assert rows + [last] == [last];
    } else {
      var init := rows[..|rows| - 1];
      LinesThenLast(init, rows[|rows| - 1]);
      assert (rows + [last])[..|rows|] == rows;
      assert init + [rows[|rows| - 1]] == rows;
    }
  }

  /** After the last day a row holds only blank cells. */
  lemma {:induction false} BlankTail(offset: nat, texts: seq<string>, r: nat, c: nat, m: nat)
    requires c <= m <= 7 && 7 * r + c >= offset + |texts|
    ensures RowText(offset, texts, r, m) == RowText(offset, texts, r, c) + Spaces(3 * (m - c))
    decreases m - c
  {
    if m == c {
      assert RowText(offset, texts, r, c) + Spaces(0) == RowText(offset, texts, r, c);
    } else {
      BlankTail(offset, texts, r, c, m - 1);
      RowTextStep(offset, texts, r, m - 1);
      BlankCell(offset, texts, 7 * r + m - 1);
      AppendBlank(RowText(offset, texts, r, m - 1), RowText(offset, texts, r, c), 3 * (m - 1 - c));
      assert 3 * (m - 1 - c) + 3 == 3 * (m - c);
    }
  }

  lemma BlankCell(offset: nat, texts: seq<string>, j: nat)
    requires j >= offset + |texts|
    ensures Cell(offset, texts, j) == "   "
  {
  }

  lemma AppendBlank(x: string, a: string, k: nat)
    requires x == a + Spaces(k)
    ensures x + "   " == a + Spaces(k + 3)
  {
    SpacesAppend(k, 3);
    assert Spaces(3) == "   ";
    Associative(a, Spaces(k), Spaces(3));
  }

  lemma SpacesAppend(a: nat, b: nat)
    ensures Spaces(a) + Spaces(b) == Spaces(a + b)
  {
    var x, y := Spaces(a) + Spaces(b), Spaces(a + b);
    assert |x| == |y|;
    forall i | 0 <= i < |x| ensures x[i] == y[i] {
      if i < a {
        assert x[i] == Spaces(a)[i];
      } else {
        assert x[i] == Spaces(b)[i - a];
      }
    }
  }

  // ---------------------------------------------------------------------
  // Cells

  /** No line break anywhere in `s`. */
  predicate Flat(s: string) {
    forall k :: 0 <= k < |s| ==> s[k] != '\n'
  }

  /** Two-character day texts: every `%2d` text of a day of the month is
      one. */
  predicate TwoCharTexts(texts: seq<string>) {
    forall i :: 0 <= i < |texts| ==> |texts[i]| == 2
  }

  /** Day texts without line breaks. */
  predicate FlatTexts(texts: seq<string>) {
    forall i :: 0 <= i < |texts| ==> Flat(texts[i])
  }

  lemma FlatConcat(a: string, b: string)
    requires Flat(a) && Flat(b)
    ensures Flat(a + b)
  {
    var x := a + b;
    forall k | 0 <= k < |x| ensures x[k] != '\n' {
      if k < |a| {
        assert x[k] == a[k];
      } else {
        assert x[k] == b[k - |a|];
      }
    }
  }

  lemma FlatHasNoNewline(s: string)
    requires Flat(s)
    ensures '\n' !in s
  {
  }

  lemma CellLength(offset: nat, texts: seq<string>, j: nat)
    requires TwoCharTexts(texts)
    ensures |Cell(offset, texts, j)| == 3
  {
  }

  lemma CellIsFlat(offset: nat, texts: seq<string>, j: nat)
    requires FlatTexts(texts)
    ensures Flat(Cell(offset, texts, j))
  {
    if offset <= j < offset + |texts| {
      FlatConcat(texts[j - offset], " ");
    }
  }

  lemma SliceLeft(s: string, a: string, b: string, i: nat, j: nat)
    requires s == a + b && i <= j <= |a|
    ensures s[i..j] == a[i..j]
  {
  }

  lemma SliceRight(s: string, a: string, b: string)
    requires s == a + b
    ensures s[|a|..] == b
    ensures s[|a|..|a| + |b|] == b
  {
  }

  lemma PlainTextsAreTwoChars(n: nat)
    requires n <= 31
    ensures TwoCharTexts(PlainTexts(n)) && FlatTexts(PlainTexts(n))
  {
    var texts := PlainTexts(n);
    forall i | 0 <= i < |texts|
      ensures |texts[i]| == 2 && Flat(texts[i])
    {
      DayTextIsTwoChars(i + 1);
    }
  }

  /** `%2d` of a day of the month: two characters, digits or a leading
      blank. */
  lemma DayTextIsTwoChars(d: nat)
    requires 1 <= d <= 31
    ensures |Format2d(d)| == 2 && Flat(Format2d(d))
  {
    var t := NatToString(d);
    assert IntToString(d) == t;
    DigitsAreFlat(t);
    if |t| == 1 {
      assert Format2d(d) == Spaces(1) + t;
      FlatConcat(Spaces(1), t);
    } else {
      assert Format2d(d) == t;
    }
  }

  lemma DigitsAreFlat(t: string)
    requires AllDigits(t)
    ensures Flat(t)
  {
  }


}

/** Reading the grid back: its rows, their width, and which cell holds
    which day. */
module GridRows {
  import opened JavaText
  import opened MonthGrid

  // ---------------------------------------------------------------------
  // Rows

  /** Strings of three characters each. */
  predicate Width3(xs: seq<string>) {
    forall i :: 0 <= i < |xs| ==> |xs[i]| == 3
  }

  /** Strings without line breaks. */
  predicate AllFlat(xs: seq<string>) {
    forall i :: 0 <= i < |xs| ==> Flat(xs[i])
  }

  lemma {:induction false} ConcatLength(xs: seq<string>)
    requires Width3(xs)
    ensures |Concat(xs)| == 3 * |xs|
    decreases |xs|
  {
    if xs != [] {
      ConcatLength(xs[..|xs| - 1]);
    }
  }

  lemma {:induction false} ConcatFlat(xs: seq<string>)
    requires AllFlat(xs)
    ensures Flat(Concat(xs))
    decreases |xs|
  {
    if xs != [] {
      ConcatFlat(xs[..|xs| - 1]);
      FlatConcat(Concat(xs[..|xs| - 1]), xs[|xs| - 1]);
    }
  }

  /** The `k`-th string sits at positions 3k..3k+2. */
  lemma {:induction false} ConcatAt(xs: seq<string>, k: nat)
    requires Width3(xs) && k < |xs|
    ensures |Concat(xs)| == 3 * |xs|
    ensures Concat(xs)[3 * k..3 * k + 3] == xs[k]
    decreases |xs|
  {
    var init := xs[..|xs| - 1];
    ConcatLength(xs);
    ConcatLength(init);
    if k < |init| {
      ConcatAt(init, k);
      SliceLeft(Concat(xs), Concat(init), xs[|xs| - 1], 3 * k, 3 * k + 3);
    } else {
      SliceRight(Concat(xs), Concat(init), xs[|xs| - 1]);
    }
  }

  /** Cells of three characters make a row of `3c` characters. */
  lemma RowLength(offset: nat, texts: seq<string>, r: nat, c: nat)
    requires TwoCharTexts(texts)
    ensures |RowText(offset, texts, r, c)| == 3 * c
  {
    RowWidth3(offset, texts, r, c);
    ConcatLength(RowCells(offset, texts, r, c));
  }

  lemma RowWidth3(offset: nat, texts: seq<string>, r: nat, c: nat)
    requires TwoCharTexts(texts)
    ensures Width3(RowCells(offset, texts, r, c))
  {
    var cells := RowCells(offset, texts, r, c);
    forall i | 0 <= i < c ensures |cells[i]| == 3 {
      CellLength(offset, texts, 7 * r + i);
    }
  }

  /** A row holds no line break when no day text does. */
  lemma RowIsFlat(offset: nat, texts: seq<string>, r: nat, c: nat)
    requires FlatTexts(texts)
    ensures Flat(RowText(offset, texts, r, c))
  {
    var cells := RowCells(offset, texts, r, c);
    forall i | 0 <= i < c ensures Flat(cells[i]) {
      CellIsFlat(offset, texts, 7 * r + i);
    }
    ConcatFlat(cells);
  }

  /** Cell `k` of a row can be read back at columns 3k..3k+2. */
  lemma CellAt(offset: nat, texts: seq<string>, r: nat, c: nat, k: nat)
    requires TwoCharTexts(texts)
    requires k < c
    ensures |RowText(offset, texts, r, c)| == 3 * c
    ensures RowText(offset, texts, r, c)[3 * k..3 * k + 3] == Cell(offset, texts, 7 * r + k)
  {
    RowWidth3(offset, texts, r, c);
    ConcatAt(RowCells(offset, texts, r, c), k);
  }

  /** Splitting the grid at newlines, as `split("\n")` does, gives the rows
      back, each 21 characters long. */
  lemma SplitGrid(offset: nat, texts: seq<string>)
    requires TwoCharTexts(texts) && FlatTexts(texts)
    ensures Split(GridOf(offset, texts), '\n') == Rows(offset, texts)
    ensures forall r :: 0 <= r < RowCount(offset, |texts|) ==> |Rows(offset, texts)[r]| == RowWidth
  {
    var rows := Rows(offset, texts);
    forall r | 0 <= r < |rows|
      ensures |rows[r]| == RowWidth && '\n' !in rows[r]
    {
      RowLength(offset, texts, r, 7);
      RowIsFlat(offset, texts, r, 7);
      FlatHasNoNewline(rows[r]);
    }
    SplitJoin(rows, '\n');
  }

  // ---------------------------------------------------------------------
  // Where the days are

  /** Row `r`, column `c` of the grid holds day j - offset + 1 followed by
      a blank, where j = 7r + c, when that is a day of the month; otherwise
      three blanks. So day `d` sits in row (offset + d - 1) / 7 at column
      (offset + d - 1) % 7. */
  lemma DayPlacement(offset: nat, texts: seq<string>, r: nat, c: nat)
    requires TwoCharTexts(texts)
    requires r < RowCount(offset, |texts|) && c < 7
    ensures |Rows(offset, texts)[r]| == RowWidth
    ensures var j := 7 * r + c;
      Rows(offset, texts)[r][3 * c..3 * c + 3]
        == if offset <= j < offset + |texts| then texts[j - offset] + " " else "   "
  {
    CellAt(offset, texts, r, 7, c);
  }

  /** The last row is blank exactly when the days end in the seventh column:
      the builder's newline after that column is followed by a row of
      blank cells. */
  lemma ExtraBlankRow(offset: nat, texts: seq<string>)
    requires TwoCharTexts(texts) && offset <= 6 && |texts| >= 1
    requires forall i :: 0 <= i < |texts| ==> texts[i] != "  "
    ensures var rows := Rows(offset, texts);
      rows[|rows| - 1] == Spaces(RowWidth) <==> (offset + |texts|) % 7 == 0
    ensures (offset + |texts|) % 7 == 0 ==>
      GridOf(offset, texts) == Join(Rows(offset, texts)[..|Rows(offset, texts)| - 1], "\n") + "\n" + Spaces(RowWidth)
  {
    if (offset + |texts|) % 7 == 0 {
      BlankLastRow(offset, texts);
    } else {
      DaysInLastRow(offset, texts);
    }
  }

  /** Days that end in the seventh column leave the last row blank. */
  lemma BlankLastRow(offset: nat, texts: seq<string>)
    requires |texts| >= 1 && (offset + |texts|) % 7 == 0
    ensures var rows := Rows(offset, texts);
      rows[|rows| - 1] == Spaces(RowWidth)
      && GridOf(offset, texts) == Join(rows[..|rows| - 1], "\n") + "\n" + Spaces(RowWidth)
  {
    var rows := Rows(offset, texts);
    var last := |rows| - 1;
    BlankTail(offset, texts, last, 0, 7);
    RowTextEmpty(offset, texts, last);
    assert rows[last] == Spaces(RowWidth);
    assert rows == rows[..last] + [rows[last]];
    JoinAppend(rows[..last], rows[last], "\n");
  }

  /** Otherwise the last day sits in the last row, which is not blank. */
  lemma DaysInLastRow(offset: nat, texts: seq<string>)
    requires TwoCharTexts(texts) && |texts| >= 1 && (offset + |texts|) % 7 != 0
    requires texts[|texts| - 1] != "  "
    ensures var rows := Rows(offset, texts);
      rows[|rows| - 1] != Spaces(RowWidth)
  {
    var rows := Rows(offset, texts);
    var last := |rows| - 1;
    var k := offset + |texts|;
    var c := (k - 1) % 7;
    LastCellPosition(k);
    assert last == k / 7 && 7 * last + c == k - 1;
    CellAt(offset, texts, last, 7, c);
    assert Cell(offset, texts, 7 * last + c) == texts[|texts| - 1] + " ";
    NotBlankRow(rows[last], c, texts[|texts| - 1]);
  }

  lemma LastCellPosition(k: nat)
    requires k % 7 != 0
    ensures 7 * (k / 7) + (k - 1) % 7 == k - 1
  {
  }

  /** A row with a non-blank text in some cell is not blank. */
  lemma NotBlankRow(row: string, c: nat, t: string)
    requires c < 7 && |t| == 2 && t != "  "
    requires 3 * c + 3 <= |row| && row[3 * c..3 * c + 3] == t + " "
    ensures row != Spaces(RowWidth)
  {
    assert row[3 * c] == t[0] && row[3 * c + 1] == t[1];
    assert t[0] != ' ' || t[1] != ' ';
    if t[0] != ' ' {
      assert row[3 * c] != Spaces(RowWidth)[3 * c];
    } else {
      assert row[3 * c + 1] != Spaces(RowWidth)[3 * c + 1];
    }
  }
}

/** Worked examples: January and March 2025. */
module GridExamples {
  import opened JavaText
  import opened JavaTime
  import opened MonthGrid
  import opened GridRows

  /** January 2025 begins on a Wednesday: two blank cells. */
  lemma January2025Offset(d: LocalDate)
    requires d.year == 2025 && d.month == 1
    ensures DayOffset(d) == 2
  {
    WeekdayAnchors();
  }

  /** March 2025 begins on a Saturday (five blank cells) and has 31 days. */
  lemma March2025Shape()
    ensures DayOffset(Date(2025, 3, 1)) == 5 && LengthOfMonth(2025, 3) == 31
  {
    WeekdayAnchors();
  }

  const LastWeekRunOn: string := "25 26 27 28 29 30 31"

  /** `getMonth` of March 2025: six rows of 21 columns, the 31st alone in
      the last one, so the last days never run on into one line. */
  lemma March2025Rows()
    ensures var grid := Grid(DayOffset(Date(2025, 3, 1)), LengthOfMonth(2025, 3));
      Split(grid, '\n') == March2025 && forall j :: !OccursAt(grid, LastWeekRunOn, j)
  {
    var offset := DayOffset(Date(2025, 3, 1));
    var n := LengthOfMonth(2025, 3);
    March2025Shape();
    MarchRows(offset, n);
    var rows := Rows(offset, PlainTexts(n));
    assert rows == March2025;
    PlainTextsAreTwoChars(n);
    SplitGrid(offset, PlainTexts(n));
    LastWeekAbsent();
  }

  /** The rows of March 2025 as the test of `getMonth` expects them. */
  const March2025: seq<string> := [
    "                1  2 ", " 3  4  5  6  7  8  9 ", "10 11 12 13 14 15 16 ",
    "17 18 19 20 21 22 23 ", "24 25 26 27 28 29 30 ", "31                   "]

  lemma LastWeekAbsent()
    ensures forall j :: !OccursAt(Join(March2025, "\n"), LastWeekRunOn, j)
  {
    var p := LastWeekRunOn;
    AbsentFromRow(March2025[0], p);
    AbsentFromRow(March2025[1], p);
    AbsentFromRow(March2025[2], p);
    AbsentFromRow(March2025[3], p);
    AbsentFromRow(March2025[4], p);
    AbsentFromRow(March2025[5], p);
    AbsentFromLines(March2025, p);
  }

  lemma MarchRows(offset: nat, n: nat)
    requires offset == 5 && n == 31
    ensures |Rows(offset, PlainTexts(n))| == 6
    ensures Rows(offset, PlainTexts(n))[0] == "                1  2 "
    ensures Rows(offset, PlainTexts(n))[1] == " 3  4  5  6  7  8  9 "
    ensures Rows(offset, PlainTexts(n))[2] == "10 11 12 13 14 15 16 "
    ensures Rows(offset, PlainTexts(n))[3] == "17 18 19 20 21 22 23 "
    ensures Rows(offset, PlainTexts(n))[4] == "24 25 26 27 28 29 30 "
    ensures Rows(offset, PlainTexts(n))[5] == "31                   "
  {
    MarchRow0(offset, n);
    MarchRow1(offset, n);
    MarchRow2(offset, n);
    MarchRow3(offset, n);
    MarchRow4(offset, n);
    MarchRow5(offset, n);
  }

  /** A text one character longer than `pat` holds it only at 0 or 1. */
  lemma AbsentFromRow(row: string, pat: string)
    requires |pat| >= 2 && |row| == |pat| + 1
    requires (row[0] != pat[0] || row[1] != pat[1]) && row[1] != pat[0]
    ensures forall j :: !OccursAt(row, pat, j)
  {
  }

  /** A text without line breaks that occurs in no line does not occur in
      the lines joined by line breaks either. */
  lemma {:induction false} AbsentFromLines(lines: seq<string>, pat: string)
    requires pat != "" && '\n' !in pat
    requires forall k :: 0 <= k < |lines| ==> forall j :: !OccursAt(lines[k], pat, j)
    ensures forall j :: !OccursAt(Join(lines, "\n"), pat, j)
    decreases |lines|
  {
    if |lines| == 1 {
      assert Join(lines, "\n") == lines[0];
    } else if |lines| >= 2 {
      var init := lines[..|lines| - 1];
      forall k | 0 <= k < |init| ensures forall j :: !OccursAt(init[k], pat, j) {
        assert init[k] == lines[k];
      }
      AbsentFromLines(init, pat);
      var last := lines[|lines| - 1];
      assert forall j :: !OccursAt(last, pat, j);
      AbsentAcross(Join(init, "\n"), last, pat);
      assert Join(lines, "\n") == Join(init, "\n") + "\n" + last;
    }
  }

  lemma AbsentAcross(a: string, b: string, pat: string)
    requires '\n' !in pat
    requires forall j :: !OccursAt(a, pat, j)
    requires forall j :: !OccursAt(b, pat, j)
    ensures forall j :: !OccursAt(a + "\n" + b, pat, j)
  {
    var s := a + "\n" + b;
    forall j ensures !OccursAt(s, pat, j) {
      if 0 <= j && j + |pat| <= |s| {
        var w := s[j..j + |pat|];
        if j + |pat| <= |a| {
          assert w == a[j..j + |pat|];
          assert !OccursAt(a, pat, j);
        } else if j > |a| {
          var i := j - |a| - 1;
          assert w == b[i..i + |pat|];
          assert !OccursAt(b, pat, i);
        } else {
          assert w[|a| - j] == '\n';
        }
      }
    }
  }

  /** `%2d` of a day of the month, digit by digit. */
  lemma DayDigits(n: nat)
    requires 1 <= n <= 31
    ensures Format2d(n) == if n < 10 then [' ', DigitChar(n)] else [DigitChar(n / 10), DigitChar(n % 10)]
  {
    if n >= 10 {
      assert NatToString(n) == NatToString(n / 10) + [DigitChar(n % 10)];
    }
  }

  lemma ConcatSnoc(xs: seq<string>, x: string)
    ensures Concat(xs + [x]) == Concat(xs) + x
  {
    assert (xs + [x])[..|xs|] == xs;
  }

  lemma ConcatSeven(a: string, b: string, c: string, d: string, e: string, f: string, g: string)
    ensures Concat([a, b, c, d, e, f, g]) == a + b + c + d + e + f + g
  {
    ConcatSnoc([], a);
    assert [] + [a] == [a];
    ConcatSnoc([a], b);
    assert [a] + [b] == [a, b];
    ConcatSnoc([a, b], c);
    assert [a, b] + [c] == [a, b, c];
    ConcatSnoc([a, b, c], d);
    assert [a, b, c] + [d] == [a, b, c, d];
    ConcatSnoc([a, b, c, d], e);
    assert [a, b, c, d] + [e] == [a, b, c, d, e];
    ConcatSnoc([a, b, c, d, e], f);
    assert [a, b, c, d, e] + [f] == [a, b, c, d, e, f];
    ConcatSnoc([a, b, c, d, e, f], g);
    assert [a, b, c, d, e, f] + [g] == [a, b, c, d, e, f, g];
  }

  /** A row is its seven cells written one after the other. */
  lemma RowOfCells(offset: nat, texts: seq<string>, r: nat,
                   a: string, b: string, c: string, d: string, e: string, f: string, g: string)
    requires Cell(offset, texts, 7 * r) == a && Cell(offset, texts, 7 * r + 1) == b
    requires Cell(offset, texts, 7 * r + 2) == c && Cell(offset, texts, 7 * r + 3) == d
    requires Cell(offset, texts, 7 * r + 4) == e && Cell(offset, texts, 7 * r + 5) == f
    requires Cell(offset, texts, 7 * r + 6) == g
    requires r < RowCount(offset, |texts|)
    ensures Rows(offset, texts)[r] == a + b + c + d + e + f + g
  {
    assert RowCells(offset, texts, r, 7) == [a, b, c, d, e, f, g];
    ConcatSeven(a, b, c, d, e, f, g);
  }

  lemma MarchRow0(offset: nat, n: nat)
    requires offset == 5 && n == 31
    ensures Rows(offset, PlainTexts(n))[0] == "                1  2 "
  {
    PlainTextIs(n, 1, " 1");
    PlainTextIs(n, 2, " 2");
    MarchCells0(PlainTexts(n));
  }

  lemma MarchCells0(texts: seq<string>)
    requires |texts| == 31 && texts[0] == " 1" && texts[1] == " 2"
    ensures Rows(5, texts)[0] == "                1  2 "
  {
    RowOfCells(5, texts, 0, "   ", "   ", "   ", "   ", "   ", " 1 ", " 2 ");
    MarchText0();
  }

  lemma MarchText0()
    ensures "   " + "   " + "   " + "   " + "   " + " 1 " + " 2 " == "                1  2 "
  {
  }

  lemma MarchRow1(offset: nat, n: nat)
    requires offset == 5 && n == 31
    ensures Rows(offset, PlainTexts(n))[1] == " 3  4  5  6  7  8  9 "
  {
    PlainTextIs(n, 3, " 3");
    PlainTextIs(n, 4, " 4");
    PlainTextIs(n, 5, " 5");
    PlainTextIs(n, 6, " 6");
    PlainTextIs(n, 7, " 7");
    PlainTextIs(n, 8, " 8");
    PlainTextIs(n, 9, " 9");
    MarchCells1(PlainTexts(n));
  }

  lemma MarchCells1(texts: seq<string>)
    requires |texts| == 31 && texts[2] == " 3" && texts[3] == " 4" && texts[4] == " 5" && texts[5] == " 6" && texts[6] == " 7" && texts[7] == " 8" && texts[8] == " 9"
    ensures Rows(5, texts)[1] == " 3  4  5  6  7  8  9 "
  {
    RowOfCells(5, texts, 1, " 3 ", " 4 ", " 5 ", " 6 ", " 7 ", " 8 ", " 9 ");
    MarchText1();
  }

  lemma MarchText1()
    ensures " 3 " + " 4 " + " 5 " + " 6 " + " 7 " + " 8 " + " 9 " == " 3  4  5  6  7  8  9 "
  {
  }

  lemma MarchRow2(offset: nat, n: nat)
    requires offset == 5 && n == 31
    ensures Rows(offset, PlainTexts(n))[2] == "10 11 12 13 14 15 16 "
  {
    PlainTextIs(n, 10, "10");
    PlainTextIs(n, 11, "11");
    PlainTextIs(n, 12, "12");
    PlainTextIs(n, 13, "13");
    PlainTextIs(n, 14, "14");
    PlainTextIs(n, 15, "15");
    PlainTextIs(n, 16, "16");
    MarchCells2(PlainTexts(n));
  }

  lemma MarchCells2(texts: seq<string>)
    requires |texts| == 31 && texts[9] == "10" && texts[10] == "11" && texts[11] == "12" && texts[12] == "13" && texts[13] == "14" && texts[14] == "15" && texts[15] == "16"
    ensures Rows(5, texts)[2] == "10 11 12 13 14 15 16 "
  {
    RowOfCells(5, texts, 2, "10 ", "11 ", "12 ", "13 ", "14 ", "15 ", "16 ");
    MarchText2();
  }

  lemma MarchText2()
    ensures "10 " + "11 " + "12 " + "13 " + "14 " + "15 " + "16 " == "10 11 12 13 14 15 16 "
  {
  }

  lemma MarchRow3(offset: nat, n: nat)
    requires offset == 5 && n == 31
    ensures Rows(offset, PlainTexts(n))[3] == "17 18 19 20 21 22 23 "
  {
    PlainTextIs(n, 17, "17");
    PlainTextIs(n, 18, "18");
    PlainTextIs(n, 19, "19");
    PlainTextIs(n, 20, "20");
    PlainTextIs(n, 21, "21");
    PlainTextIs(n, 22, "22");
    PlainTextIs(n, 23, "23");
    MarchCells3(PlainTexts(n));
  }

  lemma MarchCells3(texts: seq<string>)
    requires |texts| == 31 && texts[16] == "17" && texts[17] == "18" && texts[18] == "19" && texts[19] == "20" && texts[20] == "21" && texts[21] == "22" && texts[22] == "23"
    ensures Rows(5, texts)[3] == "17 18 19 20 21 22 23 "
  {
    RowOfCells(5, texts, 3, "17 ", "18 ", "19 ", "20 ", "21 ", "22 ", "23 ");
    MarchText3();
  }

  lemma MarchText3()
    ensures "17 " + "18 " + "19 " + "20 " + "21 " + "22 " + "23 " == "17 18 19 20 21 22 23 "
  {
  }

  lemma MarchRow4(offset: nat, n: nat)
    requires offset == 5 && n == 31
    ensures Rows(offset, PlainTexts(n))[4] == "24 25 26 27 28 29 30 "
  {
    PlainTextIs(n, 24, "24");
    PlainTextIs(n, 25, "25");
    PlainTextIs(n, 26, "26");
    PlainTextIs(n, 27, "27");
    PlainTextIs(n, 28, "28");
    PlainTextIs(n, 29, "29");
    PlainTextIs(n, 30, "30");
    MarchCells4(PlainTexts(n));
  }

  lemma MarchCells4(texts: seq<string>)
    requires |texts| == 31 && texts[23] == "24" && texts[24] == "25" && texts[25] == "26" && texts[26] == "27" && texts[27] == "28" && texts[28] == "29" && texts[29] == "30"
    ensures Rows(5, texts)[4] == "24 25 26 27 28 29 30 "
  {
    RowOfCells(5, texts, 4, "24 ", "25 ", "26 ", "27 ", "28 ", "29 ", "30 ");
    MarchText4();
  }

  lemma MarchText4()
    ensures "24 " + "25 " + "26 " + "27 " + "28 " + "29 " + "30 " == "24 25 26 27 28 29 30 "
  {
  }

  lemma MarchRow5(offset: nat, n: nat)
    requires offset == 5 && n == 31
    ensures Rows(offset, PlainTexts(n))[5] == "31                   "
  {
    PlainTextIs(n, 31, "31");
    MarchCells5(PlainTexts(n));
  }

  lemma PlainTextIs(n: nat, d: nat, t: string)
    requires 1 <= d <= n && d <= 31
    requires t == if d < 10 then [' ', DigitChar(d)] else [DigitChar(d / 10), DigitChar(d % 10)]
    ensures PlainTexts(n)[d - 1] == t
  {
    DayDigits(d);
  }

  lemma MarchCells5(texts: seq<string>)
    requires |texts| == 31 && texts[30] == "31"
    ensures Rows(5, texts)[5] == "31                   "
  {
    RowOfCells(5, texts, 5, "31 ", "   ", "   ", "   ", "   ", "   ", "   ");
    MarchText5();
  }

  lemma MarchText5()
    ensures "31 " + "   " + "   " + "   " + "   " + "   " + "   " == "31                   "
  {
  }
}
