// The calendar screens of `CalendarInterface`: one month under a centred
// header, or several months under today's date with a three-letter label
// in front of each month, and either of them with the next appointments
// beside it.

module CalendarView {
  import opened JavaText
  import opened JavaTime
  import opened ColorManager
  import opened Entities
  import opened MonthGrid
  import opened Overlay
  import opened Upcoming
  import opened Layout

  // ---------------------------------------------------------------------
  // Headers

  const DaysLine: string := "MO TU WE TH FR SA SU "

  /** The weekday line: alone for one month, behind the four columns of
      the month labels otherwise. */
  function DaysHeader(monthAmount: int): (s: string)
    ensures |s| == if monthAmount == 1 then RowWidth else RowWidth + 4
  {
    if monthAmount == 1 then DaysLine else "    " + DaysLine
  }

  /** `getNumberSuffix(number)`; `number % 10` keeps the sign of `number`
      in Java, so negative numbers all get "th". */
  function NumberSuffix(n: int): (s: string)
    ensures |s| == 2
  {
    if 11 <= n <= 13 then "th"
    else
      var d := JavaRem(n, 10);
      if d == 1 then "st" else if d == 2 then "nd" else if d == 3 then "rd" else "th"
  }

  /** The English ordinal suffixes of the days of a month, 1st to 31st. */
  const Ordinals: seq<string> := [
    "st", "nd", "rd", "th", "th", "th", "th", "th", "th", "th",
    "th", "th", "th", "th", "th", "th", "th", "th", "th", "th",
    "st", "nd", "rd", "th", "th", "th", "th", "th", "th", "th",
    "st"]

  /** Every day of a month gets its English ordinal suffix. */
  lemma OrdinalSuffixes(n: int)
    requires 1 <= n <= 31
    ensures NumberSuffix(n) == Ordinals[n - 1]
  {
    var d := n % 10;
    assert n == 10 * (n / 10) + d;
    if n <= 10 {
      assert n / 10 == (if n == 10 then 1 else 0);
    } else if n <= 20 {
      assert n / 10 == (if n == 20 then 2 else 1);
    } else if n <= 30 {
      assert n / 10 == (if n == 30 then 3 else 2);
    } else {
      assert n / 10 == 3;
    }
  }

  /** The month and year over a single month, as `Month.toString()` and
      `Integer.toString` write them. */
  function DateHeader(date: LocalDate): string {
    MonthName(date.month) + " " + IntToString(date.year)
  }

  /** `h` between blanks in a field of `width`, the odd blank on the right. */
  function Centered(h: string, width: nat): string
    requires |h| <= width
  {
    var margin := (width - |h|) / 2;
    Spaces(margin) + h + Spaces(width - margin - |h|)
  }

  /** A text starting with a first letter followed by the rest in lower
      case, as `charAt(0) + substring(1).toLowerCase()` builds it. */
  function Capitalized(s: string): string
    requires s != []
  {
    [s[0]] + ToLower(s[1..])
  }

  /** Today as the multi-month view names it: "Wednesday, January 1st". */
  function CurrentDay(now: LocalDateTime): string {
    var d := now.date;
    Capitalized(DayName(DayOfWeek(d))) + ", " + Capitalized(MonthName(d.month)) + " "
      + IntToString(d.day) + NumberSuffix(d.day)
  }

  /** The first line of the multi-month view: today in bold and underlined,
      padded with blanks to the width of the weekday line. */
  function TodayLine(currentDay: string, width: nat): string
    requires |currentDay| <= width
  {
    ColoredText("bold", ColoredText("underline", currentDay)) + Spaces(width - |currentDay|)
  }

  // ---------------------------------------------------------------------
  // Plain text: no line break and no escape character

  predicate Plain(s: string) {
    forall i :: 0 <= i < |s| ==> s[i] != '\n' && s[i] != Esc
  }

  lemma PlainJoin(a: string, b: string)
    requires Plain(a) && Plain(b)
    ensures Plain(a + b)
  {
    forall i | 0 <= i < |a + b| ensures (a + b)[i] != '\n' && (a + b)[i] != Esc {
      if i >= |a| {
        assert (a + b)[i] == b[i - |a|];
      }
    }
  }

  lemma PlainHasNoNewline(s: string)
    requires Plain(s)
    ensures '\n' !in s && Esc !in s
  {
  }

  lemma PlainLower(s: string)
    requires Plain(s)
    ensures Plain(ToLower(s))
  {
  }

  lemma PlainCapitalized(s: string)
    requires s != [] && Plain(s)
    ensures Plain(Capitalized(s))
  {
    PlainLower(s[1..]);
    PlainJoin([s[0]], ToLower(s[1..]));
  }

  lemma PlainNumber(n: int)
    ensures Plain(IntToString(n))
  {
    if n < 0 {
      PlainJoin("-", NatToString(-n));
    }
  }

  lemma PlainMonthName(m: int)
    requires 1 <= m <= 12
    ensures Plain(MonthName(m))
  {
    var s := MonthName(m);
    assert s in MonthNames;
  }

  lemma PlainDayName(w: int)
    requires 1 <= w <= 7
    ensures Plain(DayName(w))
  {
    var s := DayName(w);
    assert s in DayNames;
  }

  // ---------------------------------------------------------------------
  // Widths

  function Pow10(k: nat): nat {
    if k == 0 then 1 else 10 * Pow10(k - 1)
  }

  /** A number below `10^k` takes at most `k` digits. */
  lemma {:induction false} DigitCount(n: nat, k: nat)
    requires 1 <= k && n < Pow10(k)
    ensures |NatToString(n)| <= k
    decreases k
  {
    if k > 1 && n >= 10 {
      assert n / 10 < Pow10(k - 1);
      DigitCount(n / 10, k - 1);
    }
  }

  /** Years take at most nine digits and a sign, so the header fits the
      weekday line. */
  lemma HeaderFits(date: LocalDate)
    ensures |DateHeader(date)| <= 20
  {
    assert Pow10(9) == 1_000_000_000;
    if date.year < 0 {
      DigitCount(-date.year, 9);
    } else {
      DigitCount(date.year, 9);
    }
  }

  /** The longest day, "Wednesday, September 30th", fills the 25 columns
      of the weekday line exactly, so the padding is never negative. */
  lemma CurrentDayFits(now: LocalDateTime)
    ensures |CurrentDay(now)| <= RowWidth + 4
  {
    var d := now.date;
    assert |IntToString(d.day)| <= 2;
  }

  /** The centred text sits in the middle of its field: as many blanks on
      the left as on the right, or one more on the right. */
  lemma CenteredBalanced(h: string, width: nat)
    requires |h| <= width
    ensures var c := Centered(h, width);
      var left := (width - |h|) / 2;
      var right := width - left - |h|;
      |c| == width && c[left..left + |h|] == h
      && (forall i :: 0 <= i < left ==> c[i] == ' ')
      && (forall i :: left + |h| <= i < width ==> c[i] == ' ')
      && left <= right <= left + 1
  {
    var left := (width - |h|) / 2;
    var c := Centered(h, width);
    assert c == Spaces(left) + h + Spaces(width - left - |h|);
    assert c[left..left + |h|] == h;
  }

  // ---------------------------------------------------------------------
  // Months

  /** `getMonthWithAppointments(date, appointments)` */
  function MonthView(d: LocalDate, apps: seq<AppointmentValue>): string {
    Overlaid(Grid(DayOffset(d), LengthOfMonth(d.year, d.month)), d, apps, LengthOfMonth(d.year, d.month))
  }

  /** The three-letter label of a month. */
  function Abbreviation(m: int): (a: string)
    requires 1 <= m <= 12
    ensures |a| == 3 && '\n' !in a
  {
    PlainMonthName(m);
    MonthName(m)[..3]
  }

  /** The four columns in front of line `j` of a month: its label on the
      first line, blanks below. */
  function MonthLabel(first: string, j: nat): string {
    if j == 0 then first + " " else "    "
  }

  /** The lines of a month, each behind a line break and its label. */
  function Labelled(lines: seq<string>, first: string): string
    decreases |lines|
  {
    if lines == [] then ""
    else
      var k := |lines| - 1;
      Labelled(lines[..k], first) + "\n" + MonthLabel(first, k) + lines[k]
  }

  /** `date.plusMonths(i)` exists for every month shown. */
  predicate InRange(date: LocalDate, k: int) {
    forall i :: 0 <= i < k ==> PlusMonthsInRange(date, i)
  }

  /** The lines of the `i`-th month after `date`. */
  function MonthLines(date: LocalDate, apps: seq<AppointmentValue>, i: nat): (lines: seq<string>)
    requires PlusMonthsInRange(date, i)
    ensures OneLineEach(lines)
  {
    Split(MonthView(PlusMonths(date, i), apps), '\n')
  }

  /** The number of months the loop of `getCalendar` shows. */
  function Shown(monthAmount: int): nat {
    if monthAmount < 0 then 0 else monthAmount
  }

  /** The lines of the first `k` months from `date` on. */
  function MonthLineLists(date: LocalDate, apps: seq<AppointmentValue>, k: nat): (months: seq<seq<string>>)
    requires InRange(date, k)
    ensures |months| == k && LabelsAndLines(MonthLabels(date, k), months)
  {
    seq(k, i requires 0 <= i < k => MonthLines(date, apps, i))
  }

  /** The labels of the first `k` months from `date` on: the first three
      letters of each month's name, December followed by January. */
  function MonthLabels(date: LocalDate, k: nat): (labels: seq<string>)
    ensures |labels| == k
    ensures forall i :: 0 <= i < k ==> labels[i] == Abbreviation(MonthPlus(date.month, i))
  {
    seq(k, i requires 0 <= i < k => Abbreviation(MonthPlus(date.month, i)))
  }

  /** One label per month, none of them and no line of a month holding a
      line break. */
  predicate LabelsAndLines(labels: seq<string>, months: seq<seq<string>>) {
    |labels| == |months|
    && forall i :: 0 <= i < |months| ==> '\n' !in labels[i] && OneLineEach(months[i])
  }

  /** Labelled months, one after the other. */
  function LabelledMonths(months: seq<seq<string>>, labels: seq<string>): string
    requires |labels| == |months|
    decreases |months|
  {
    if months == [] then ""
    else
      var k := |months| - 1;
      LabelledMonths(months[..k], labels[..k]) + Labelled(months[k], labels[k])
  }

  /** `getCalendar(date, appointments, monthAmount)` at the moment `now`. */
  function CalendarText(date: LocalDate, apps: seq<AppointmentValue>, monthAmount: int, now: LocalDateTime): string
    requires InRange(date, monthAmount)
  {
    if monthAmount == 1 then SingleMonthText(date, apps)
    else MultiMonthText(date, apps, monthAmount, now)
  }

  /** One month: its name and year centred over the weekday line. */
  function SingleMonthText(date: LocalDate, apps: seq<AppointmentValue>): string {
    HeaderFits(date);
    ColoredText("bold", Centered(DateHeader(date), |DaysLine|)) + "\n" + DaysLine + "\n" + MonthView(date, apps)
  }

  /** Several months (or none, for an amount below one): today's date
      over the weekday line, then the labelled months. */
  function MultiMonthText(date: LocalDate, apps: seq<AppointmentValue>, monthAmount: int, now: LocalDateTime): string
    requires monthAmount != 1 && InRange(date, monthAmount)
  {
    var days := DaysHeader(monthAmount);
    CurrentDayFits(now);
    var k := Shown(monthAmount);
    TodayLine(CurrentDay(now), |days|) + "\n" + days + LabelledMonths(MonthLineLists(date, apps, k), MonthLabels(date, k))
  }

  /** `getCalendar`: the header, the weekday line, then the month or the
      labelled months one after the other. */
  method Calendar(date: LocalDate, apps: seq<AppointmentValue>, monthAmount: int, now: LocalDateTime)
    returns (s: string)
    requires InRange(date, monthAmount)
    ensures s == CalendarText(date, apps, monthAmount, now)
  {
    if monthAmount == 1 {
      s := SingleMonth(date, apps);
    } else {
      s := SeveralMonths(date, apps, monthAmount, now);
    }
  }

  /** The `monthAmount == 1` branch of `getCalendar`. */
  method SingleMonth(date: LocalDate, apps: seq<AppointmentValue>) returns (s: string)
    ensures s == SingleMonthText(date, apps)
  {
    var days := DaysLine;
    var dateHeader := DateHeader(date);
    HeaderFits(date);
    var centered := Centered(dateHeader, |days|);
    var month := MonthWithAppointments(date, apps);
    s := ColoredText("bold", centered) + "\n" + days + "\n" + month;
  }

  /** The branch of `getCalendar` for any other amount of months. */
  method SeveralMonths(date: LocalDate, apps: seq<AppointmentValue>, monthAmount: int, now: LocalDateTime)
    returns (s: string)
    requires monthAmount != 1 && InRange(date, monthAmount)
    ensures s == MultiMonthText(date, apps, monthAmount, now)
  {
    var days := DaysHeader(monthAmount);
    var currentDay := CurrentDay(now);
    CurrentDayFits(now);
    var head := TodayLine(currentDay, |days|) + "\n" + days;
    s := WriteMonths(head, date, apps, monthAmount);
  }

  /** The outer loop of `getCalendar` for several months: month `i` is
      the month `i` months after `date`, labelled with its name. */
  method WriteMonths(head: string, date: LocalDate, apps: seq<AppointmentValue>, monthAmount: int)
    returns (s: string)
    requires InRange(date, monthAmount)
    ensures s == head + LabelledMonths(MonthLineLists(date, apps, Shown(monthAmount)), MonthLabels(date, Shown(monthAmount)))
  {
    ghost var months := MonthLineLists(date, apps, Shown(monthAmount));
    ghost var labels := MonthLabels(date, Shown(monthAmount));
    s := head;
    var i := 0;
    while i < monthAmount
      invariant 0 <= i <= Shown(monthAmount)
      invariant s == head + LabelledMonths(months[..i], labels[..i])
    {
      var month := MonthWithAppointments(PlusMonths(date, i), apps);
      var lines := Split(month, '\n');
      var first := Abbreviation(MonthPlus(date.month, i));
      assert lines == months[i] && first == labels[i];
      var formatted := LabelMonth(lines, first);
      MonthsStep(head, months, labels, i, s);
      s := s + formatted;
      i := i + 1;
    }
    assert months[..i] == months && labels[..i] == labels;
  }

  /** One more month written behind the months before it. */
  lemma MonthsStep(head: string, months: seq<seq<string>>, labels: seq<string>, i: nat, s: string)
    requires |labels| == |months| && i < |months|
    requires s == head + LabelledMonths(months[..i], labels[..i])
    ensures s + Labelled(months[i], labels[i]) == head + LabelledMonths(months[..i + 1], labels[..i + 1])
  {
    assert months[..i + 1][..i] == months[..i];
    assert labels[..i + 1][..i] == labels[..i];
    Associative(head, LabelledMonths(months[..i], labels[..i]), Labelled(months[i], labels[i]));
  }

  /** The inner loop of `getCalendar`: each line of one month behind a
      line break and its label. */
  method LabelMonth(lines: seq<string>, first: string) returns (s: string)
    ensures s == Labelled(lines, first)
  {
    s := "";
    for j := 0 to |lines|
      invariant s == Labelled(lines[..j], first)
    {
      assert lines[..j + 1][..j] == lines[..j];
      s := s + "\n" + MonthLabel(first, j) + lines[j];
    }
    assert lines[..|lines|] == lines;
  }

  // ---------------------------------------------------------------------
  // getCalendarWithUpcomingAppointments

  /** The calendar, and beside it the next upcoming appointment (the next
      two when several months are shown) if there is one. */
  function CalendarWithUpcomingText(date: LocalDate, apps: seq<AppointmentValue>, monthAmount: int, now: LocalDateTime): string
    requires InRange(date, monthAmount)
  {
    var calendar := CalendarText(date, apps, monthAmount, now);
    var selected := Selected(apps, now);
    if selected == [] then calendar
    else
      CalendarHasLines(date, apps, monthAmount, now);
      Merged(calendar, Block(selected, monthAmount, now))
  }

  /** `getCalendarWithUpcomingAppointments(date, appointments, monthAmount)`
      at the moment `now`. */
  method CalendarWithUpcoming(date: LocalDate, apps: seq<AppointmentValue>, monthAmount: int, now: LocalDateTime)
    returns (s: string)
    requires InRange(date, monthAmount)
    ensures s == CalendarWithUpcomingText(date, apps, monthAmount, now)
  {
    var calendar := Calendar(date, apps, monthAmount, now);
    var upcoming := Selected(apps, now);
    if upcoming == [] {
      return calendar;
    }
    var appointments := UpcomingBlock(upcoming, monthAmount, now);
    CalendarHasLines(date, apps, monthAmount, now);
    s := Merge(calendar, appointments);
  }

  // ---------------------------------------------------------------------
  // Properties

  /** Both kinds of calendar start with a line that is not empty, so
      splitting them gives a first line for the merge to measure. */
  lemma CalendarHasLines(date: LocalDate, apps: seq<AppointmentValue>, monthAmount: int, now: LocalDateTime)
    requires InRange(date, monthAmount)
    ensures Split(CalendarText(date, apps, monthAmount, now), '\n') != []
  {
    if monthAmount == 1 {
      SingleMonthLines(date, apps);
    } else {
      MultiMonthLines(date, apps, monthAmount, now);
    }
    SplitHasFirst(CalendarText(date, apps, monthAmount, now), '\n');
  }

  /** A text whose first piece is not empty keeps it when the trailing
      empty pieces are dropped. */
  lemma SplitHasFirst(s: string, sep: char)
    requires SplitAll(s, sep)[0] != ""
    ensures Split(s, sep) != []
  {
  }

  /** One month: the centred header, the weekday line, then the lines of
      the month. */
  lemma SingleMonthLines(date: LocalDate, apps: seq<AppointmentValue>)
    ensures |DateHeader(date)| <= RowWidth
    ensures SplitAll(SingleMonthText(date, apps), '\n')
         == [ColoredText("bold", Centered(DateHeader(date), RowWidth)), DaysLine] + SplitAll(MonthView(date, apps), '\n')
  {
    HeaderFits(date);
    var c := Centered(DateHeader(date), RowWidth);
    HeaderPlain(date);
    PlainHasNoNewline(c);
    ColoredOneLine("bold", c);
    DaysOneLine(1);
    TwoLinesThen(ColoredText("bold", c), DaysLine, MonthView(date, apps));
  }

  /** The header shows the month and year centred over the 21 columns of
      the grid. */
  lemma HeaderShows(date: LocalDate)
    ensures |DateHeader(date)| <= RowWidth
    ensures Visible(ColoredText("bold", Centered(DateHeader(date), RowWidth))) == Centered(DateHeader(date), RowWidth)
  {
    HeaderFits(date);
    var c := Centered(DateHeader(date), RowWidth);
    HeaderPlain(date);
    VisiblePlainPrefix(c, "");
    assert c + "" == c;
  }

  lemma HeaderPlain(date: LocalDate)
    ensures |DateHeader(date)| <= RowWidth
    ensures Plain(Centered(DateHeader(date), RowWidth))
  {
    HeaderFits(date);
    var h := DateHeader(date);
    PlainMonthName(date.month);
    PlainNumber(date.year);
    PlainJoin(MonthName(date.month), " ");
    PlainJoin(MonthName(date.month) + " ", IntToString(date.year));
    var left := (RowWidth - |h|) / 2;
    PlainJoin(Spaces(left), h);
    PlainJoin(Spaces(left) + h, Spaces(RowWidth - left - |h|));
  }

  /** The rows of one labelled month. */
  function LabelledRows(lines: seq<string>, first: string): (rows: seq<string>)
    ensures |rows| == |lines|
    ensures forall j :: 0 <= j < |lines| ==> rows[j] == MonthLabel(first, j) + lines[j]
    decreases |lines|
  {
    if lines == [] then []
    else
      var k := |lines| - 1;
      LabelledRows(lines[..k], first) + [MonthLabel(first, k) + lines[k]]
  }

  /** The rows of labelled months, one after the other. */
  function LabelledMonthRows(months: seq<seq<string>>, labels: seq<string>): seq<string>
    requires |labels| == |months|
    decreases |months|
  {
    if months == [] then []
    else
      var k := |months| - 1;
      LabelledMonthRows(months[..k], labels[..k]) + LabelledRows(months[k], labels[k])
  }

  /** Several months: today's line, the weekday line, then every line of
      every month with its four label columns in front. */
  lemma MultiMonthLines(date: LocalDate, apps: seq<AppointmentValue>, monthAmount: int, now: LocalDateTime)
    requires monthAmount != 1 && InRange(date, monthAmount)
    ensures |CurrentDay(now)| <= RowWidth + 4
    ensures SplitAll(MultiMonthText(date, apps, monthAmount, now), '\n')
         == [TodayLine(CurrentDay(now), RowWidth + 4), DaysHeader(monthAmount)]
            + LabelledMonthRows(MonthLineLists(date, apps, Shown(monthAmount)), MonthLabels(date, Shown(monthAmount)))
  {
    CurrentDayFits(now);
    var k := Shown(monthAmount);
    var t := TodayLine(CurrentDay(now), RowWidth + 4);
    var days := DaysHeader(monthAmount);
    CurrentDayPlain(now);
    TodayLineOneLine(CurrentDay(now), RowWidth + 4);
    DaysOneLine(monthAmount);
    TwoPieces(t, days);
    var months, labels := MonthLineLists(date, apps, k), MonthLabels(date, k);
    assert MultiMonthText(date, apps, monthAmount, now) == t + "\n" + days + LabelledMonths(months, labels);
    MonthsSplit(t + "\n" + days, months, labels);
  }

  lemma DaysOneLine(monthAmount: int)
    ensures '\n' !in DaysHeader(monthAmount)
  {
  }

  /** The label in front of month `i` names the month `plusMonths(i)`
      reaches. */
  lemma LabelsNameMonths(date: LocalDate, monthAmount: int)
    requires InRange(date, monthAmount)
    ensures forall i :: 0 <= i < monthAmount ==>
      MonthLabels(date, Shown(monthAmount))[i] == MonthName(PlusMonths(date, i).month)[..3]
  {
    forall i | 0 <= i < monthAmount
      ensures MonthLabels(date, Shown(monthAmount))[i] == MonthName(PlusMonths(date, i).month)[..3]
    {
      MonthPlusAgrees(date, i);
    }
  }

  lemma TwoPieces(a: string, b: string)
    requires '\n' !in a && '\n' !in b
    ensures SplitAll(a + "\n" + b, '\n') == [a, b]
  {
    SplitAllPrefix(a, '\n', b);
    SplitAllNoSep(b, '\n');
  }

  lemma TodayLineOneLine(cd: string, width: nat)
    requires Plain(cd) && |cd| <= width
    ensures '\n' !in TodayLine(cd, width)
  {
    PlainHasNoNewline(cd);
    var u := ColoredText("underline", cd);
    ColoredOneLine("underline", cd);
    var b := ColoredText("bold", u);
    ColoredOneLine("bold", u);
    PlainSpaces(width - |cd|);
    OneLineThenPlain(b, Spaces(width - |cd|));
  }

  lemma ColoredOneLine(color: string, text: string)
    requires '\n' !in text
    ensures '\n' !in ColoredText(color, text)
  {
    ColoredTextLines(color, text);
  }

  lemma OneLineThenPlain(a: string, b: string)
    requires '\n' !in a && Plain(b)
    ensures '\n' !in a + b
  {
  }

  lemma PlainSpaces(n: nat)
    ensures Plain(Spaces(n))
  {
  }

  lemma PlainSuffix(n: int)
    ensures Plain(NumberSuffix(n))
  {
    var s := NumberSuffix(n);
    assert s == "st" || s == "nd" || s == "rd" || s == "th";
  }

  lemma CurrentDayPlain(now: LocalDateTime)
    ensures Plain(CurrentDay(now))
  {
    var d := now.date;
    PlainDayName(DayOfWeek(d));
    PlainMonthName(d.month);
    PlainCapitalized(DayName(DayOfWeek(d)));
    PlainCapitalized(MonthName(d.month));
    PlainNumber(d.day);
    PlainSuffix(d.day);
    DayTextPlain(Capitalized(DayName(DayOfWeek(d))), Capitalized(MonthName(d.month)), IntToString(d.day), NumberSuffix(d.day));
  }

  lemma DayTextPlain(a: string, b: string, n: string, suffix: string)
    requires Plain(a) && Plain(b) && Plain(n) && Plain(suffix)
    ensures Plain(a + ", " + b + " " + n + suffix)
  {
    PlainJoin(a, ", ");
    PlainJoin(a + ", ", b);
    PlainJoin(a + ", " + b, " ");
    PlainJoin(a + ", " + b + " ", n);
    PlainJoin(a + ", " + b + " " + n, suffix);
  }

  /** Splitting text followed by labelled months gives the text's pieces
      followed by the labelled rows of every month. */
  lemma {:induction false} MonthsSplit(x: string, months: seq<seq<string>>, labels: seq<string>)
    requires LabelsAndLines(labels, months)
    ensures SplitAll(x + LabelledMonths(months, labels), '\n') == SplitAll(x, '\n') + LabelledMonthRows(months, labels)
    decreases |months|
  {
    if months != [] {
      var k := |months| - 1;
      var before := LabelledMonths(months[..k], labels[..k]);
      assert LabelsAndLines(labels[..k], months[..k]) by {
        assert forall i :: 0 <= i < k ==> labels[..k][i] == labels[i] && months[..k][i] == months[i];
      }
      MonthsSplit(x, months[..k], labels[..k]);
      LabelledSplit(x + before, months[k], labels[k]);
      PiecesStep(x, before, Labelled(months[k], labels[k]), SplitAll(x, '\n'),
                 LabelledMonthRows(months[..k], labels[..k]), LabelledRows(months[k], labels[k]));
    } else {
      assert x + "" == x;
    }
  }

  /** Pieces of a text and of what follows it add up. */
  lemma PiecesStep(x: string, before: string, more: string, px: seq<string>, rb: seq<string>, rm: seq<string>)
    requires SplitAll(x + before, '\n') == px + rb
    requires SplitAll((x + before) + more, '\n') == SplitAll(x + before, '\n') + rm
    ensures SplitAll(x + (before + more), '\n') == px + (rb + rm)
  {
    Associative(x, before, more);
    SeqAssociative(px, rb, rm);
  }

  /** Splitting text followed by one labelled month gives the text's
      pieces followed by one row per line of the month. */
  lemma {:induction false} LabelledSplit(x: string, lines: seq<string>, first: string)
    requires '\n' !in first && OneLineEach(lines)
    ensures SplitAll(x + Labelled(lines, first), '\n') == SplitAll(x, '\n') + LabelledRows(lines, first)
    decreases |lines|
  {
    if lines == [] {
      assert x + "" == x;
    } else {
      var k := |lines| - 1;
      var init := lines[..k];
      assert OneLineEach(init) by {
        assert forall i :: 0 <= i < k ==> init[i] == lines[i];
      }
      LabelledSplit(x, init, first);
      LabelledStep(x, init, lines[k], first);
      assert init + [lines[k]] == lines;
    }
  }

  /** One more line of a labelled month is one more row. */
  lemma LabelledStep(x: string, init: seq<string>, last: string, first: string)
    requires '\n' !in first && '\n' !in last
    requires SplitAll(x + Labelled(init, first), '\n') == SplitAll(x, '\n') + LabelledRows(init, first)
    ensures SplitAll(x + Labelled(init + [last], first), '\n')
         == SplitAll(x, '\n') + LabelledRows(init + [last], first)
  {
    var lines := init + [last];
    var front := MonthLabel(first, |init|);
    var row := front + last;
    assert lines[..|init|] == init;
    assert '\n' !in row by {
      assert '\n' !in front;
    }
    assert Labelled(lines, first) == Labelled(init, first) + "\n" + front + last;
    LineBehind(x, Labelled(init, first), front, last);
    SplitAllConcat(x + Labelled(init, first), '\n', row);
    SplitAllNoSep(row, '\n');
    assert LabelledRows(lines, first) == LabelledRows(init, first) + [row];
  }

  lemma LineBehind(x: string, before: string, front: string, last: string)
    ensures x + (before + "\n" + front + last) == (x + before) + ['\n'] + (front + last)
  {
  }

  lemma SeqAssociative(a: seq<string>, b: seq<string>, c: seq<string>)
    ensures (a + b) + c == a + (b + c)
  {
  }

  /** With appointments ahead, every line of the result holds the calendar
      line at its start and, ten columns after the width of the calendar's
      first line, the line of the appointment block. */
  lemma UpcomingBeside(date: LocalDate, apps: seq<AppointmentValue>, monthAmount: int, now: LocalDateTime)
    requires InRange(date, monthAmount) && Selected(apps, now) != []
    ensures Split(CalendarText(date, apps, monthAmount, now), '\n') != []
    ensures var calendarLines := Split(CalendarText(date, apps, monthAmount, now), '\n');
      var blockLines := Split(Block(Selected(apps, now), monthAmount, now), '\n');
      var lines := SplitAll(CalendarWithUpcomingText(date, apps, monthAmount, now), '\n');
      var count := Max(|calendarLines|, |blockLines|);
      |lines| == count + 1 && lines[count] == ""
      && MergedColumns(lines[..count], calendarLines, blockLines)
  {
    CalendarHasLines(date, apps, monthAmount, now);
    var calendarLines := Split(CalendarText(date, apps, monthAmount, now), '\n');
    var blockLines := Split(Block(Selected(apps, now), monthAmount, now), '\n');
    MergedLines(calendarLines, blockLines);
  }

  /** The bold header: 21 characters that show and 8 of colour codes. */
  lemma BoldHeader(date: LocalDate) returns (b: string)
    ensures |DateHeader(date)| <= RowWidth
    ensures b == ColoredText("bold", Centered(DateHeader(date), RowWidth))
    ensures |b| == 29 && Visible(b) == Centered(DateHeader(date), RowWidth) && |Visible(b)| == RowWidth
  {
    HeaderFits(date);
    CenteredBalanced(DateHeader(date), RowWidth);
    LowerCaseFixed("bold");
    assert !IsColourName("bold");
    b := ColoredText("bold", Centered(DateHeader(date), RowWidth));
    HeaderShows(date);
  }

  /** A text holding the separator whose first piece is not empty keeps
      that piece first when the trailing empty pieces are dropped. */
  lemma SplitKeepsFirst(s: string, sep: char)
    requires sep in s && SplitAll(s, sep)[0] != ""
    ensures Split(s, sep) != [] && Split(s, sep)[0] == SplitAll(s, sep)[0]
  {
  }

  lemma HasNewline(a: string, b: string, c: string)
    ensures '\n' in a + "\n" + b + "\n" + c
  {
    assert (a + "\n" + b + "\n" + c)[|a|] == '\n';
  }

  /** In the single-month view the first line, the bold header, has 29
      characters: the 21 that show and the 8 of the bold and reset codes.
      The merge fills every line past the calendar's end with that many
      blanks, 8 more than the grid's visible width. */
  lemma SingleMonthFiller(date: LocalDate, apps: seq<AppointmentValue>, now: LocalDateTime, i: nat)
    requires InRange(date, 1)
    ensures Split(CalendarText(date, apps, 1, now), '\n') != []
    ensures var first := Split(CalendarText(date, apps, 1, now), '\n')[0];
      |first| == 29 && Visible(first) == Centered(DateHeader(date), RowWidth) && |Visible(first)| == RowWidth
    ensures var lines := Split(CalendarText(date, apps, 1, now), '\n');
      i >= |lines| ==> CalendarPart(lines, i) == Spaces(29)
  {
    var s := SingleMonthText(date, apps);
    var b := BoldHeader(date);
    SingleMonthLines(date, apps);
    HasNewline(b, DaysLine, MonthView(date, apps));
    SplitKeepsFirst(s, '\n');
  }
}
