/** The two-column layouts of the console view: `getMonthWithText`, which
    writes a prompt beside the plain month, and
    `mergeCalendarWithAppointments`, which writes the upcoming appointments
    beside the calendar. Both build their result one line at a time. */
module Layout {
  import opened JavaText
  import opened JavaTime
  import opened MonthGrid
  import opened GridRows
  import opened TextWrap

  /** Blanks between the calendar and the appointments. */
  const Spacing: nat := 10

  // ---------------------------------------------------------------------
  // getMaxLineLength

  /** `getMaxLineLength(lines)`: the length of the longest line, 0 for no
      lines. */
  method MaxLineLength(lines: seq<string>) returns (m: nat)
    ensures forall i :: 0 <= i < |lines| ==> |lines[i]| <= m
    ensures lines == [] ==> m == 0
    ensures lines != [] ==> exists i :: 0 <= i < |lines| && |lines[i]| == m
  {
    m := 0;
    for i := 0 to |lines|
      invariant forall k :: 0 <= k < i ==> |lines[k]| <= m
      invariant m == 0 || exists k :: 0 <= k < i && |lines[k]| == m
    {
      if m < |lines[i]| {
        m := |lines[i]|;
      }
    }
    if lines != [] && m == 0 {
      assert |lines[0]| == m;
    }
  }

  // ---------------------------------------------------------------------
  // Writing lines

  /** The `i`-th element, or the empty string past the end. */
  function Part(xs: seq<string>, i: nat): string {
    if i < |xs| then xs[i] else ""
  }

  function Max(a: nat, b: nat): nat {
    if a < b then b else a
  }

  /** One more line written behind `head` and the lines before it. */
  lemma LinesStep(head: string, rows: seq<string>, i: nat, s: string)
    requires i < |rows| && s == head + Lines(rows[..i])
    ensures s + rows[i] + "\n" == head + Lines(rows[..i + 1])
  {
    NextLine(rows, i);
    Associative(head, Lines(rows[..i]), rows[i] + "\n");
  }

  /** Lines, each closed by a line break, split back into themselves and
      the empty rest. */
  lemma {:induction false} SplitAllLines(rows: seq<string>, t: string)
    requires OneLineEach(rows)
    ensures SplitAll(Lines(rows) + t, '\n') == rows + SplitAll(t, '\n')
    decreases |rows|
  {
    if rows == [] {
      assert Lines(rows) + t == t;
    } else {
      var init, x := rows[..|rows| - 1], rows[|rows| - 1];
      assert OneLineEach(init) && '\n' !in x by {
        assert forall i :: 0 <= i < |init| ==> init[i] == rows[i];
      }
      assert rows == init + [x];
      assert Lines(rows) + t == Lines(init) + x + "\n" + t;
      SplitAllLines(init, x + ['\n'] + t);
      LastLine(init, x, t);
    }
  }

  /** The step of `SplitAllLines`: the last line is split off as a piece
      of its own. */
  lemma LastLine(init: seq<string>, x: string, t: string)
    requires '\n' !in x
    requires SplitAll(Lines(init) + (x + ['\n'] + t), '\n') == init + SplitAll(x + ['\n'] + t, '\n')
    ensures SplitAll(Lines(init) + x + "\n" + t, '\n') == init + [x] + SplitAll(t, '\n')
  {
    Regroup(Lines(init), x, t);
    SplitAllPrefix(x, '\n', t);
    Snoc(init, x, SplitAll(t, '\n'));
  }

  lemma Regroup(a: string, x: string, t: string)
    ensures a + x + "\n" + t == a + (x + ['\n'] + t)
  {
  }

  lemma Snoc(init: seq<string>, x: string, tail: seq<string>)
    ensures init + ([x] + tail) == init + [x] + tail
  {
  }

  // ---------------------------------------------------------------------
  // getMonthWithText

  /** One line of the lower part: the month part padded to `padding`, a
      blank, the prompt part. */
  function TextRow(monthPart: string, promptPart: string, padding: nat): string {
    PadRight(monthPart, padding) + " " + promptPart
  }

  /** The lines below the first: as many as there are remaining month lines
      or prompt lines, whichever is more. */
  function TextRows(rest: seq<string>, prompt: seq<string>, padding: nat): (rows: seq<string>)
    ensures |rows| == Max(|rest|, |prompt|)
    ensures forall i :: 0 <= i < |rows| ==> rows[i] == TextRow(Part(rest, i), Part(prompt, i), padding)
  {
    seq(Max(|rest|, |prompt|), i requires 0 <= i => TextRow(Part(rest, i), Part(prompt, i), padding))
  }

  /** The first month line alone, then the two columns. */
  function MonthText(monthLines: seq<string>, prompt: seq<string>, padding: nat): string
    requires monthLines != []
  {
    monthLines[0] + "\n" + Lines(TextRows(monthLines[1..], prompt, padding))
  }

  /** The prompt as `formatPrompt` writes it, split into its lines. */
  function PromptLines(prompt: string): seq<string> {
    Split(Render(Wrap(Split(prompt, ' '), CommentLineLength), "\n"), '\n')
  }

  /** `getMonthWithText(date, prompt, appointments)`: the plain month (the
      appointments play no part) with the prompt beside its rows; the
      rows are 21 characters wide, so the prompt column is padded to 31. */
  method MonthWithText(date: LocalDate, prompt: string) returns (s: string)
    ensures s == MonthText(Rows(DayOffset(date), PlainTexts(LengthOfMonth(date.year, date.month))),
                           PromptLines(prompt), RowWidth + Spacing)
  {
    var month := Month(date);
    var promptString := FormatPrompt(prompt);
    var monthLines := Split(month, '\n');
    var promptLines := Split(promptString, '\n');
    MonthRows(date);
    var maxLineLength := MaxLineLength(monthLines);
    var padding := maxLineLength + Spacing;
    s := WriteColumns(monthLines[0] + "\n", monthLines[1..], promptLines, padding);
  }

  /** The loop of `getMonthWithText`: behind `head`, one line per month
      line or prompt line, whichever are more. */
  method WriteColumns(head: string, rest: seq<string>, prompt: seq<string>, padding: nat) returns (s: string)
    ensures s == head + Lines(TextRows(rest, prompt, padding))
  {
    var count := Max(|rest|, |prompt|);
    ghost var rows := TextRows(rest, prompt, padding);
    s := head;
    for i := 0 to count
      invariant s == head + Lines(rows[..i])
    {
      var monthPart := if i < |rest| then rest[i] else "";
      var promptPart := if i < |prompt| then prompt[i] else "";
      assert rows[i] == PadRight(monthPart, padding) + " " + promptPart;
      LinesStep(head, rows, i, s);
      s := s + (PadRight(monthPart, padding) + " " + promptPart) + "\n";
    }
    assert rows[..count] == rows;
  }

  /** The month lines are the grid's rows, each `RowWidth` wide. */
  lemma MonthRows(date: LocalDate)
    ensures var rows := Rows(DayOffset(date), PlainTexts(LengthOfMonth(date.year, date.month)));
      Split(Grid(DayOffset(date), LengthOfMonth(date.year, date.month)), '\n') == rows
      && rows != [] && forall r :: 0 <= r < |rows| ==> |rows[r]| == RowWidth
  {
    var n := LengthOfMonth(date.year, date.month);
    PlainTextsAreTwoChars(n);
    SplitGrid(DayOffset(date), PlainTexts(n));
  }

  /** The lines of the result: the first month line, then one line per
      remaining month line or prompt line, then nothing. On each of those
      the month part comes first and the prompt part starts one column
      after `padding`, as long as no month line is wider than `padding`. */
  lemma MonthTextLines(monthLines: seq<string>, prompt: seq<string>, padding: nat)
    requires monthLines != [] && FitsColumn(monthLines, padding) && OneLineEach(prompt)
    ensures MonthTextShape(monthLines, prompt, padding)
  {
    var rows := TextRows(monthLines[1..], prompt, padding);
    RowsHaveColumns(monthLines, prompt, padding);
    HeadThenLines(monthLines[0], rows);
    var lines := SplitAll(MonthText(monthLines, prompt, padding), '\n');
    assert lines[1..|rows| + 1] == rows;
  }

  /** The lines of `MonthText`: the first grid row, one line per text row
      with the grid part and the prompt part in their columns, and the
      empty piece after the final line feed. */
  predicate MonthTextShape(monthLines: seq<string>, prompt: seq<string>, padding: nat)
    requires monthLines != []
  {
    var lines := SplitAll(MonthText(monthLines, prompt, padding), '\n');
    var count := Max(|monthLines| - 1, |prompt|);
    |lines| == count + 2 && lines[0] == monthLines[0] && lines[count + 1] == ""
    && AllColumns(lines[1..count + 1], monthLines, prompt, padding)
  }

  /** Single-line strings no wider than `padding`. */
  predicate FitsColumn(rows: seq<string>, padding: nat) {
    forall i :: 0 <= i < |rows| ==> '\n' !in rows[i] && |rows[i]| <= padding
  }

  predicate AllColumns(rows: seq<string>, monthLines: seq<string>, prompt: seq<string>, padding: nat) {
    forall i :: 0 <= i < |rows| ==> RowColumns(rows[i], Part(monthLines, i + 1), Part(prompt, i), padding)
  }

  predicate OneLineEach(rows: seq<string>) {
    forall i :: 0 <= i < |rows| ==> '\n' !in rows[i]
  }

  lemma RowsHaveColumns(monthLines: seq<string>, prompt: seq<string>, padding: nat)
    requires monthLines != []
    requires forall i :: 0 <= i < |monthLines| ==> '\n' !in monthLines[i] && |monthLines[i]| <= padding
    requires forall i :: 0 <= i < |prompt| ==> '\n' !in prompt[i]
    ensures var rows := TextRows(monthLines[1..], prompt, padding);
      OneLineEach(rows) && AllColumns(rows, monthLines, prompt, padding)
  {
    var rest := monthLines[1..];
    var rows := TextRows(rest, prompt, padding);
    forall i | 0 <= i < |rows|
      ensures '\n' !in rows[i] && RowColumns(rows[i], Part(monthLines, i + 1), Part(prompt, i), padding)
    {
      assert Part(rest, i) == Part(monthLines, i + 1);
      TextRowColumns(Part(rest, i), Part(prompt, i), padding);
    }
  }

  /** A line, a line break, then lines each closed by a line break. */
  lemma HeadThenLines(head: string, rows: seq<string>)
    requires '\n' !in head && OneLineEach(rows)
    ensures SplitAll(head + "\n" + Lines(rows), '\n') == [head] + rows + [""]
  {
    SplitAllLines(rows, "");
    assert Lines(rows) + "" == Lines(rows);
    SplitAllPrefix(head, '\n', Lines(rows));
  }

  /** `row` holds `m` at its start and `p` from column `padding + 1`. */
  predicate RowColumns(row: string, m: string, p: string, padding: nat) {
    |row| == padding + 1 + |p| && |m| <= padding && row[..|m|] == m && row[padding + 1..] == p
  }

  lemma TextRowColumns(m: string, p: string, padding: nat)
    requires |m| <= padding && '\n' !in m && '\n' !in p
    ensures '\n' !in TextRow(m, p, padding) && RowColumns(TextRow(m, p, padding), m, p, padding)
  {
    var pad := PadRight(m, padding);
    var row := TextRow(m, p, padding);
    assert row == pad + " " + p;
    assert row[..|m|] == pad[..|m|];
    forall i | 0 <= i < |pad| ensures pad[i] != '\n' {
      if i < |m| {
        assert pad[i] == pad[..|m|][i];
      }
    }
  }

  /** For the plain month beside a prompt: below the first row, every
      line holds a grid row (or nothing) at its start and the prompt line
      from column 32 on. `MonthWithText` writes this text for the month's
      `offset` and `n` days. */
  lemma PromptColumn(offset: nat, n: nat, prompt: string)
    requires n <= 31
    ensures Rows(offset, PlainTexts(n)) != []
    ensures MonthTextShape(Rows(offset, PlainTexts(n)), PromptLines(prompt), RowWidth + Spacing)
  {
    GridLinesFit(offset, n);
    PromptLinesOneEach(prompt);
    MonthTextLines(Rows(offset, PlainTexts(n)), PromptLines(prompt), RowWidth + Spacing);
  }

  lemma GridLinesFit(offset: nat, n: nat)
    requires n <= 31
    ensures Rows(offset, PlainTexts(n)) != []
    ensures FitsColumn(Rows(offset, PlainTexts(n)), RowWidth + Spacing)
  {
    PlainTextsAreTwoChars(n);
    SplitGrid(offset, PlainTexts(n));
  }

  lemma PromptLinesOneEach(prompt: string)
    ensures OneLineEach(PromptLines(prompt))
  {
  }

  // ---------------------------------------------------------------------
  // mergeCalendarWithAppointments

  /** The calendar column of line `i`: the calendar's line, or past its
      end as many blanks as its first line has characters, colour codes
      included. */
  function CalendarPart(calendarLines: seq<string>, i: nat): (part: string)
    requires calendarLines != []
    ensures i >= |calendarLines| ==> |part| == |calendarLines[0]|
  {
    if i < |calendarLines| then calendarLines[i] else Spaces(|calendarLines[0]|)
  }

  /** The lines of the merge: as many as the longer of the two texts has. */
  function MergedRows(calendarLines: seq<string>, appointmentLines: seq<string>): (rows: seq<string>)
    requires calendarLines != []
    ensures |rows| == Max(|calendarLines|, |appointmentLines|)
    ensures forall i :: 0 <= i < |rows| ==>
      rows[i] == CalendarPart(calendarLines, i) + Spaces(Spacing) + Part(appointmentLines, i)
  {
    seq(Max(|calendarLines|, |appointmentLines|),
        i requires 0 <= i => CalendarPart(calendarLines, i) + Spaces(Spacing) + Part(appointmentLines, i))
  }

  /** The calendar and the appointment block side by side. */
  function Merged(calendar: string, appointments: string): string
    requires Split(calendar, '\n') != []
  {
    Lines(MergedRows(Split(calendar, '\n'), Split(appointments, '\n')))
  }

  /** `mergeCalendarWithAppointments(calendar, appointments, upcoming)`;
      the list of upcoming appointments plays no part. The calendar must
      have a line (`getFirst` throws otherwise). */
  method Merge(calendar: string, appointments: string) returns (s: string)
    requires Split(calendar, '\n') != []
    ensures s == Merged(calendar, appointments)
  {
    var calendarLines := Split(calendar, '\n');
    var appointmentLines := Split(appointments, '\n');
    var maxLineLength := |calendarLines[0]|;
    var count := Max(|calendarLines|, |appointmentLines|);
    ghost var rows := MergedRows(calendarLines, appointmentLines);
    s := "";
    for i := 0 to count
      invariant s == "" + Lines(rows[..i])
    {
      var monthPart := if i < |calendarLines| then calendarLines[i] else Spaces(maxLineLength);
      var appointmentPart := if i < |appointmentLines| then appointmentLines[i] else "";
      assert rows[i] == monthPart + Spaces(Spacing) + appointmentPart;
      LinesStep("", rows, i, s);
      s := s + (monthPart + Spaces(Spacing) + appointmentPart) + "\n";
    }
    assert rows[..count] == rows;
  }

  /** Line `i` holds the calendar part at its start and the appointment
      part ten columns after it. */
  predicate MergedColumns(rows: seq<string>, calendarLines: seq<string>, appointmentLines: seq<string>)
    requires calendarLines != []
  {
    forall i :: 0 <= i < |rows| ==>
      var c, a := CalendarPart(calendarLines, i), Part(appointmentLines, i);
      |rows[i]| == |c| + Spacing + |a| && rows[i][..|c|] == c
      && rows[i][|c|..|c| + Spacing] == Spaces(Spacing) && rows[i][|c| + Spacing..] == a
  }

  /** The lines of the merge: one per line of the longer text, each with
      the calendar part, ten blanks and the appointment part, then nothing.
      Past the end of the calendar the appointments keep the column they
      have beside its first line. */
  lemma MergedLines(calendarLines: seq<string>, appointmentLines: seq<string>)
    requires calendarLines != [] && OneLineEach(calendarLines) && OneLineEach(appointmentLines)
    ensures var lines := SplitAll(Lines(MergedRows(calendarLines, appointmentLines)), '\n');
      var count := Max(|calendarLines|, |appointmentLines|);
      |lines| == count + 1 && lines[count] == ""
      && MergedColumns(lines[..count], calendarLines, appointmentLines)
  {
    var rows := MergedRows(calendarLines, appointmentLines);
    MergedRowsShape(calendarLines, appointmentLines);
    SplitAllLines(rows, "");
    assert Lines(rows) + "" == Lines(rows);
    var lines := SplitAll(Lines(rows), '\n');
    assert lines[..|rows|] == rows;
  }

  lemma MergedRowsShape(calendarLines: seq<string>, appointmentLines: seq<string>)
    requires calendarLines != [] && OneLineEach(calendarLines) && OneLineEach(appointmentLines)
    ensures var rows := MergedRows(calendarLines, appointmentLines);
      OneLineEach(rows) && MergedColumns(rows, calendarLines, appointmentLines)
  {
    var rows := MergedRows(calendarLines, appointmentLines);
    forall i | 0 <= i < |rows|
      ensures '\n' !in rows[i]
      ensures var c, a := CalendarPart(calendarLines, i), Part(appointmentLines, i);
        |rows[i]| == |c| + Spacing + |a| && rows[i][..|c|] == c
        && rows[i][|c|..|c| + Spacing] == Spaces(Spacing) && rows[i][|c| + Spacing..] == a
    {
      ThreeParts(CalendarPart(calendarLines, i), Spaces(Spacing), Part(appointmentLines, i));
    }
  }

  lemma ThreeParts(c: string, b: string, a: string)
    requires '\n' !in c && '\n' !in b && '\n' !in a
    ensures var r := c + b + a;
      '\n' !in r && |r| == |c| + |b| + |a| && r[..|c|] == c && r[|c|..|c| + |b|] == b && r[|c| + |b|..] == a
  {
  }
}
