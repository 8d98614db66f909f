/** The list of upcoming appointments of `getCalendarWithUpcomingAppointments`
    and the text `formatAppointment` writes for one appointment. The clock
    is the parameter `now`. */
module Upcoming {
  import opened JavaText
  import opened JavaTime
  import opened ColorManager
  import opened Entities
  import opened TextWrap

  // ---------------------------------------------------------------------
  // Which appointments are listed

  /** Started strictly before `now` and ending strictly after it. */
  predicate Running(a: AppointmentValue, now: LocalDateTime) {
    DateTimeBefore(a.startDate, now) && DateTimeBefore(now, a.endDate)
  }

  /** The filter: starting after `now`, or running. An appointment that
      starts exactly at `now` is neither. */
  predicate IsUpcoming(a: AppointmentValue, now: LocalDateTime) {
    DateTimeBefore(now, a.startDate) || Running(a, now)
  }

  /** The appointments that pass the filter, in list order. */
  function UpcomingOf(apps: seq<AppointmentValue>, now: LocalDateTime): seq<AppointmentValue>
    decreases |apps|
  {
    if apps == [] then []
    else
      var a := apps[|apps| - 1];
      UpcomingOf(apps[..|apps| - 1], now) + (if IsUpcoming(a, now) then [a] else [])
  }

  /** The appointments of a list that start at `t`, in list order. */
  function StartingAt(apps: seq<AppointmentValue>, t: LocalDateTime): seq<AppointmentValue>
    decreases |apps|
  {
    if apps == [] then []
    else
      var a := apps[|apps| - 1];
      StartingAt(apps[..|apps| - 1], t) + (if a.startDate == t then [a] else [])
  }

  /** `sorted(Comparator.comparing(Appointment::getStartDate))`: a stable
      sort, written as insertion from the back. */
  function SortByStart(apps: seq<AppointmentValue>): (r: seq<AppointmentValue>)
    decreases |apps|
  {
    if apps == [] then [] else InsertByStart(SortByStart(apps[..|apps| - 1]), apps[|apps| - 1])
  }

  /** `x` placed behind every element that does not start after it. */
  function InsertByStart(s: seq<AppointmentValue>, x: AppointmentValue): (r: seq<AppointmentValue>)
    decreases |s|
  {
    if s == [] then [x]
    else
      var last := s[|s| - 1];
      if DateTimeBefore(x.startDate, last.startDate) then InsertByStart(s[..|s| - 1], x) + [last] else s + [x]
  }

  predicate SortedByStart(s: seq<AppointmentValue>) {
    forall i, j :: 0 <= i < j < |s| ==> !DateTimeBefore(s[j].startDate, s[i].startDate)
  }

  /** The list the view shows from: filtered, then sorted. */
  function Selected(apps: seq<AppointmentValue>, now: LocalDateTime): seq<AppointmentValue> {
    SortByStart(UpcomingOf(apps, now))
  }

  // ---------------------------------------------------------------------
  // The filter

  lemma SnocParts(apps: seq<AppointmentValue>)
    requires apps != []
    ensures apps == apps[..|apps| - 1] + [apps[|apps| - 1]]
  {
  }

  /** Each appointment is kept as often as it occurs when it passes the
      filter, and dropped otherwise. */
  lemma {:induction false} UpcomingCounts(apps: seq<AppointmentValue>, now: LocalDateTime)
    ensures forall a :: multiset(UpcomingOf(apps, now))[a] == if IsUpcoming(a, now) then multiset(apps)[a] else 0
    decreases |apps|
  {
    if apps != [] {
      UpcomingCounts(apps[..|apps| - 1], now);
      SnocParts(apps);
    }
  }

  /** Filtering by the filter and by the start time commute. */
  lemma {:induction false} UpcomingStartingAt(apps: seq<AppointmentValue>, now: LocalDateTime, t: LocalDateTime)
    ensures StartingAt(UpcomingOf(apps, now), t) == UpcomingOf(StartingAt(apps, t), now)
    decreases |apps|
  {
    if apps != [] {
      var init, a := apps[..|apps| - 1], apps[|apps| - 1];
      var keep := if IsUpcoming(a, now) && a.startDate == t then [a] else [];
      var u, st := UpcomingOf(init, now), StartingAt(init, t);
      UpcomingStartingAt(init, now, t);
      if IsUpcoming(a, now) {
        assert UpcomingOf(apps, now) == u + [a];
        StartingAtAppend(u, a, t);
      } else {
        assert UpcomingOf(apps, now) == u + [];
        assert u + [] == u && StartingAt(u, t) + [] == StartingAt(u, t);
      }
      if a.startDate == t {
        assert StartingAt(apps, t) == st + [a];
        UpcomingAppend(st, a, now);
      } else {
        assert StartingAt(apps, t) == st + [];
        assert st + [] == st && UpcomingOf(st, now) + [] == UpcomingOf(st, now);
      }
    }
  }

  lemma StartingAtAppend(s: seq<AppointmentValue>, x: AppointmentValue, t: LocalDateTime)
    ensures StartingAt(s + [x], t) == StartingAt(s, t) + (if x.startDate == t then [x] else [])
  {
    assert (s + [x])[..|s|] == s;
  }

  lemma UpcomingAppend(s: seq<AppointmentValue>, x: AppointmentValue, now: LocalDateTime)
    ensures UpcomingOf(s + [x], now) == UpcomingOf(s, now) + (if IsUpcoming(x, now) then [x] else [])
  {
    assert (s + [x])[..|s|] == s;
  }

  // ---------------------------------------------------------------------
  // The sort

  /** Inserting keeps the order of the others and adds `x`. */
  lemma {:induction false} InsertCounts(s: seq<AppointmentValue>, x: AppointmentValue)
    ensures multiset(InsertByStart(s, x)) == multiset(s) + multiset{x}
    decreases |s|
  {
    if s != [] {
      var init, last := s[..|s| - 1], s[|s| - 1];
      SnocParts(s);
      if DateTimeBefore(x.startDate, last.startDate) {
        InsertCounts(init, x);
      }
    }
  }

  /** `x` goes behind every element it does not start before, and so the
      order of the list is kept. */
  lemma {:induction false} InsertSorted(s: seq<AppointmentValue>, x: AppointmentValue)
    requires SortedByStart(s)
    ensures SortedByStart(InsertByStart(s, x))
    decreases |s|
  {
    if s != [] {
      var init, last := s[..|s| - 1], s[|s| - 1];
      var r := InsertByStart(s, x);
      if DateTimeBefore(x.startDate, last.startDate) {
        var p := InsertByStart(init, x);
        InsertSorted(init, x);
        InsertCounts(init, x);
        assert r == p + [last];
        forall i | 0 <= i < |p| ensures !DateTimeBefore(last.startDate, p[i].startDate) {
          assert p[i] in multiset(p);
          if p[i] != x {
            var k :| 0 <= k < |init| && init[k] == p[i];
            assert s[k] == init[k];
          } else {
            DateTimeBeforeIsStrictTotalOrder(x.startDate, last.startDate, x.startDate);
          }
        }
        SortedSnoc(p, last);
      } else {
        forall i | 0 <= i < |s| ensures !DateTimeBefore(x.startDate, s[i].startDate) {
          if i < |s| - 1 && DateTimeBefore(x.startDate, s[i].startDate) {
            DateTimeBeforeIsStrictTotalOrder(x.startDate, s[i].startDate, last.startDate);
            DateTimeBeforeIsStrictTotalOrder(last.startDate, s[i].startDate, x.startDate);
          }
        }
        SortedSnoc(s, x);
      }
    }
  }

  lemma SortedSnoc(s: seq<AppointmentValue>, x: AppointmentValue)
    requires SortedByStart(s)
    requires forall i :: 0 <= i < |s| ==> !DateTimeBefore(x.startDate, s[i].startDate)
    ensures SortedByStart(s + [x])
  {
  }

  /** Inserting is stable: among the elements with one start time, `x`
      goes last. */
  lemma {:induction false} InsertStable(s: seq<AppointmentValue>, x: AppointmentValue, t: LocalDateTime)
    ensures StartingAt(InsertByStart(s, x), t) == StartingAt(s, t) + (if x.startDate == t then [x] else [])
    decreases |s|
  {
    if s == [] {
      assert [x] == [] + [x];
      StartingAtAppend([], x, t);
    } else {
      var init, last := s[..|s| - 1], s[|s| - 1];
      if DateTimeBefore(x.startDate, last.startDate) {
        assert InsertByStart(s, x) == InsertByStart(init, x) + [last];
        assert StartingAt(s, t) == StartingAt(init, t) + (if last.startDate == t then [last] else []);
        InsertStable(init, x, t);
        StableBehind(init, last, x, t);
      } else {
        assert InsertByStart(s, x) == s + [x];
        StartingAtAppend(s, x, t);
      }
    }
  }

  /** One step of `InsertStable`: `x` goes in front of a `last` that starts
      later, so the two never start at the same time. */
  lemma StableBehind(init: seq<AppointmentValue>, last: AppointmentValue, x: AppointmentValue, t: LocalDateTime)
    requires DateTimeBefore(x.startDate, last.startDate)
    requires StartingAt(InsertByStart(init, x), t) == StartingAt(init, t) + (if x.startDate == t then [x] else [])
    ensures StartingAt(InsertByStart(init, x) + [last], t)
         == StartingAt(init, t) + (if last.startDate == t then [last] else []) + (if x.startDate == t then [x] else [])
  {
    var p := InsertByStart(init, x);
    StartingAtAppend(p, last, t);
    if x.startDate == t {
      DateTimeBeforeIsStrictTotalOrder(x.startDate, last.startDate, x.startDate);
      assert StartingAt(p + [last], t) == StartingAt(init, t) + [x] + [];
    } else {
      assert StartingAt(p + [last], t) == StartingAt(init, t) + [] + (if last.startDate == t then [last] else []);
    }
  }

  /** The sorted list holds the same appointments, ordered by start time. */
  lemma {:induction false} SortByStartSorts(s: seq<AppointmentValue>)
    ensures SortedByStart(SortByStart(s))
    ensures multiset(SortByStart(s)) == multiset(s)
    decreases |s|
  {
    if s != [] {
      var init, last := s[..|s| - 1], s[|s| - 1];
      SortByStartSorts(init);
      InsertSorted(SortByStart(init), last);
      InsertCounts(SortByStart(init), last);
      SnocParts(s);
    }
  }

  /** The sort is stable: appointments with the same start time keep their
      order. */
  lemma {:induction false} SortByStartStable(s: seq<AppointmentValue>, t: LocalDateTime)
    ensures StartingAt(SortByStart(s), t) == StartingAt(s, t)
    decreases |s|
  {
    if s != [] {
      var init, last := s[..|s| - 1], s[|s| - 1];
      SortByStartStable(init, t);
      InsertStable(SortByStart(init), last, t);
    }
  }

  /** What the view lists: every upcoming appointment as often as the list
      holds it and nothing else, earliest start first, appointments with the
      same start in list order. */
  lemma SelectedIsUpcomingSorted(apps: seq<AppointmentValue>, now: LocalDateTime, t: LocalDateTime)
    ensures SortedByStart(Selected(apps, now))
    ensures forall a :: multiset(Selected(apps, now))[a] == if IsUpcoming(a, now) then multiset(apps)[a] else 0
    ensures StartingAt(Selected(apps, now), t) == UpcomingOf(StartingAt(apps, t), now)
  {
    SortByStartSorts(UpcomingOf(apps, now));
    UpcomingCounts(apps, now);
    SortByStartStable(UpcomingOf(apps, now), t);
    UpcomingStartingAt(apps, now, t);
  }

  // ---------------------------------------------------------------------
  // formatAppointmentDate

  /** The mark a running appointment gets behind its dates. */
  function RunningMark(): string {
    ColoredText("yellow", " (Running)")
  }

  /** Start and end on one day: `(dd.MM.yyyy | HH:mm - HH:mm)`. */
  function SingleDayRange(a: AppointmentValue): string {
    "(" + FormatDate(a.startDate.date) + " | " + FormatTime(a.startDate) + " " + "- " + FormatTime(a.endDate) + ")"
  }

  /** On different days: `(dd.MM.yyyy, HH:mm - dd.MM.yyyy, HH:mm)`. */
  function MultiDayRange(a: AppointmentValue): string {
    "(" + FormatDate(a.startDate.date) + ", " + FormatTime(a.startDate) + " " + "- "
    + FormatDate(a.endDate.date) + ", " + FormatTime(a.endDate) + ")"
  }

  predicate SameDay(a: AppointmentValue) {
    ToLocalDate(a.startDate) == ToLocalDate(a.endDate)
  }

  /** The first line of an appointment. */
  function DateLine(a: AppointmentValue, now: LocalDateTime): string {
    (if SameDay(a) then SingleDayRange(a) else MultiDayRange(a)) + (if Running(a, now) then RunningMark() else "")
  }

  /** The digits of `s[i..j]` read as the number `v`. */
  predicate ShowsNumber(s: string, i: nat, j: nat, v: int) {
    i <= j <= |s| && AllDigits(s[i..j]) && ParseNat(s[i..j]) == v
  }

  /** A `dd.MM.yyyy` field at `i` that reads back as `d`. */
  predicate ShowsDate(s: string, i: nat, d: LocalDate) {
    ShowsNumber(s, i, i + 2, d.day) && ShowsNumber(s, i + 3, i + 5, d.month) && ShowsNumber(s, i + 6, i + 10, d.year)
  }

  /** An `HH:mm` field at `i` that reads back as the time of `t`. */
  predicate ShowsTime(s: string, i: nat, t: LocalDateTime) {
    ShowsNumber(s, i, i + 2, t.hour) && ShowsNumber(s, i + 3, i + 5, t.minute)
  }

  lemma SliceOfSlice(s: string, i: nat, k: nat, l: nat, n: nat)
    requires i + n <= |s| && k <= l <= n
    ensures s[i..i + n][k..l] == s[i + k..i + l]
  {
    var u, w := s[i..i + n][k..l], s[i + k..i + l];
    forall x | 0 <= x < |u| ensures u[x] == w[x] {
      assert u[x] == s[i..i + n][k + x] == s[i + k + x];
    }
  }

  lemma DateAt(s: string, i: nat, d: LocalDate)
    requires 1 <= d.year <= 9999
    requires i + 10 <= |s| && s[i..i + 10] == FormatDate(d)
    ensures ShowsDate(s, i, d)
  {
    var f := FormatDate(d);
    SliceOfSlice(s, i, 0, 2, 10);
    SliceOfSlice(s, i, 3, 5, 10);
    SliceOfSlice(s, i, 6, 10, 10);
    assert f[6..] == f[6..10];
  }

  lemma TimeAt(s: string, i: nat, t: LocalDateTime)
    requires i + 5 <= |s| && s[i..i + 5] == FormatTime(t)
    ensures ShowsTime(s, i, t)
  {
    var f := FormatTime(t);
    SliceOfSlice(s, i, 0, 2, 5);
    SliceOfSlice(s, i, 3, 5, 5);
    assert f[3..] == f[3..5];
  }

  /** Where the pieces of a one-day range sit. */
  lemma SingleDayLayout(d: string, t1: string, t2: string)
    requires |d| == 10 && |t1| == 5 && |t2| == 5
    ensures var b := "(" + d + " | " + t1 + " " + "- " + t2 + ")";
      |b| == 28 && b[0] == '(' && b[11] == ' ' && b[27] == ')'
      && b[1..11] == d && b[14..19] == t1 && b[22..27] == t2
  {
  }

  /** Where the pieces of a range over several days sit. */
  lemma MultiDayLayout(d1: string, t1: string, d2: string, t2: string)
    requires |d1| == 10 && |t1| == 5 && |d2| == 10 && |t2| == 5
    ensures var b := "(" + d1 + ", " + t1 + " " + "- " + d2 + ", " + t2 + ")";
      |b| == 39 && b[0] == '(' && b[11] == ',' && b[38] == ')'
      && b[1..11] == d1 && b[13..18] == t1 && b[21..31] == d2 && b[33..38] == t2
  {
  }

  /** A one-day range is 28 characters long; the start date sits at 1, the
      start time at 14 and the end time at 22, each reading back as the
      appointment's own. */
  lemma SingleDayFields(a: AppointmentValue)
    requires 1 <= a.startDate.date.year <= 9999
    ensures var b := SingleDayRange(a);
      |b| == 28 && b[0] == '(' && b[11] == ' ' && b[27] == ')'
      && ShowsDate(b, 1, a.startDate.date) && ShowsTime(b, 14, a.startDate) && ShowsTime(b, 22, a.endDate)
  {
    var b := SingleDayRange(a);
    SingleDayLayout(FormatDate(a.startDate.date), FormatTime(a.startDate), FormatTime(a.endDate));
    DateAt(b, 1, a.startDate.date);
    TimeAt(b, 14, a.startDate);
    TimeAt(b, 22, a.endDate);
  }

  /** A range over several days is 39 characters long, with the start date
      at 1, the start time at 13, the end date at 21 and the end time at
      33. */
  lemma MultiDayFields(a: AppointmentValue)
    requires 1 <= a.startDate.date.year <= 9999 && 1 <= a.endDate.date.year <= 9999
    ensures var b := MultiDayRange(a);
      |b| == 39 && b[0] == '(' && b[11] == ',' && b[38] == ')'
      && ShowsDate(b, 1, a.startDate.date) && ShowsTime(b, 13, a.startDate)
      && ShowsDate(b, 21, a.endDate.date) && ShowsTime(b, 33, a.endDate)
  {
    var b := MultiDayRange(a);
    MultiDayLayout(FormatDate(a.startDate.date), FormatTime(a.startDate), FormatDate(a.endDate.date), FormatTime(a.endDate));
    DateAt(b, 1, a.startDate.date);
    TimeAt(b, 13, a.startDate);
    DateAt(b, 21, a.endDate.date);
    TimeAt(b, 33, a.endDate);
  }

  /** The line ends with the running mark exactly when the appointment is
      running: the date range itself ends with `)`, the mark with the `m`
      of its reset sequence. */
  lemma DateLineMarksRunning(a: AppointmentValue, now: LocalDateTime)
    ensures var line, m := DateLine(a, now), RunningMark();
      |line| >= |m| && line[|line| - |m|..] == m <==> Running(a, now)
  {
    var m := RunningMark();
    var b := if SameDay(a) then SingleDayRange(a) else MultiDayRange(a);
    RangesClose(a);
    assert m[|m| - 4..] == Reset;
    assert m[|m| - 1] == m[|m| - 4..][3];
    MarkAtEnd(b, m, Running(a, now));
  }

  lemma RangesClose(a: AppointmentValue)
    ensures var s, t := SingleDayRange(a), MultiDayRange(a);
      s != [] && s[|s| - 1] == ')' && t != [] && t[|t| - 1] == ')'
  {
  }

  /** A text ending in `)` followed by a mark ending in `m` exactly when
      `running` ends with the mark. */
  lemma MarkAtEnd(b: string, m: string, running: bool)
    requires b != [] && b[|b| - 1] == ')' && m != [] && m[|m| - 1] == 'm'
    ensures var line := b + (if running then m else "");
      |line| >= |m| && line[|line| - |m|..] == m <==> running
  {
    if running {
      var line := b + m;
      assert line[|line| - |m|..] == m;
    } else {
      assert b + "" == b;
      assert |b| >= |m| ==> b[|b| - |m|..][|m| - 1] == b[|b| - 1];
    }
  }

  /** Which of the two forms the line takes: one day exactly when start
      and end fall on the same date. */
  lemma DateLineForm(a: AppointmentValue, now: LocalDateTime)
    requires 1 <= a.startDate.date.year <= 9999 && 1 <= a.endDate.date.year <= 9999
    ensures var line := DateLine(a, now);
      var n := if SameDay(a) then 28 else 39;
      |line| >= n && line[n - 1] == ')' && (line[11] == ' ' <==> SameDay(a))
  {
    var b := if SameDay(a) then SingleDayRange(a) else MultiDayRange(a);
    var n := if SameDay(a) then 28 else 39;
    if SameDay(a) {
      SingleDayFields(a);
    } else {
      MultiDayFields(a);
    }
    KeepsPrefix(b, if Running(a, now) then RunningMark() else "", n);
  }

  lemma KeepsPrefix(b: string, m: string, n: nat)
    requires 12 <= n <= |b|
    ensures (b + m)[n - 1] == b[n - 1] && (b + m)[11] == b[11]
  {
  }

  // ---------------------------------------------------------------------
  // formatAppointment

  /** The second line: an arrow and the title in the appointment's colour. */
  function TitleLine(a: AppointmentValue): string {
    "-> " + ColoredText(TagColor(a), a.title)
  }

  /** The date line, the title line and the indented description. */
  function AppointmentText(a: AppointmentValue, now: LocalDateTime): string {
    DateLine(a, now) + "\n" + TitleLine(a) + "\n" + Description(a.description)
  }

  /** `formatAppointment` */
  method FormatAppointment(a: AppointmentValue, now: LocalDateTime) returns (r: string)
    ensures r == AppointmentText(a, now)
  {
    var date := DateLine(a, now);
    var title := "-> " + ColoredText(TagColor(a), a.title);
    var description := FormatDescription(a.description);
    r := date + "\n" + title + "\n" + description;
  }

  lemma DigitsOneLine(s: string)
    requires AllDigits(s)
    ensures '\n' !in s
  {
    forall i | 0 <= i < |s| ensures s[i] != '\n' {
      assert IsDigit(s[i]);
    }
  }

  lemma DateOneLine(d: LocalDate)
    ensures '\n' !in FormatDate(d)
  {
    var y := FormatYear(d.year);
    DigitsOneLine(TwoDigits(d.day));
    DigitsOneLine(TwoDigits(d.month));
    if YearOfEra(d.year) <= 9999 {
      DigitsOneLine(y);
    } else {
      DigitsOneLine(y[1..]);
      assert y == [y[0]] + y[1..];
    }
  }

  lemma TimeOneLine(t: LocalDateTime)
    ensures '\n' !in FormatTime(t)
  {
    DigitsOneLine(TwoDigits(t.hour));
    DigitsOneLine(TwoDigits(t.minute));
  }

  lemma SingleDayOneLine(d: string, t1: string, t2: string)
    requires '\n' !in d && '\n' !in t1 && '\n' !in t2
    ensures '\n' !in "(" + d + " | " + t1 + " " + "- " + t2 + ")"
  {
  }

  lemma MultiDayOneLine(d1: string, t1: string, d2: string, t2: string)
    requires '\n' !in d1 && '\n' !in t1 && '\n' !in d2 && '\n' !in t2
    ensures '\n' !in "(" + d1 + ", " + t1 + " " + "- " + d2 + ", " + t2 + ")"
  {
  }

  lemma RangesOneLine(a: AppointmentValue)
    ensures '\n' !in SingleDayRange(a) && '\n' !in MultiDayRange(a)
  {
    var d1, t1 := FormatDate(a.startDate.date), FormatTime(a.startDate);
    var d2, t2 := FormatDate(a.endDate.date), FormatTime(a.endDate);
    DateOneLine(a.startDate.date);
    DateOneLine(a.endDate.date);
    TimeOneLine(a.startDate);
    TimeOneLine(a.endDate);
    SingleDayOneLine(d1, t1, t2);
    MultiDayOneLine(d1, t1, d2, t2);
  }

  lemma RunningMarkOneLine()
    ensures '\n' !in RunningMark()
  {
    var x := " (Running)";
    assert '\n' !in x;
    ColoredTextLines("yellow", x);
  }

  /** The date line is one line, running mark included. */
  lemma DateLineOneLine(a: AppointmentValue, now: LocalDateTime)
    ensures '\n' !in DateLine(a, now)
  {
    RangesOneLine(a);
    RunningMarkOneLine();
  }

  /** Lines `x`, then `y`, then the lines of `t`. */
  lemma TwoLinesThen(x: string, y: string, t: string)
    requires '\n' !in x && '\n' !in y
    ensures SplitAll(x + "\n" + y + "\n" + t, '\n') == [x, y] + SplitAll(t, '\n')
  {
    assert x + "\n" + y + "\n" + t == (x + ['\n'] + y) + ['\n'] + t;
    SplitAllConcat(x + ['\n'] + y, '\n', t);
    SplitAllPrefix(x, '\n', y);
    SplitAllNoSep(y, '\n');
  }

  /** An appointment takes a line for its dates, one for its title and
      then the lines of its description, provided the title holds no line
      break. */
  lemma AppointmentLines(a: AppointmentValue, now: LocalDateTime)
    requires '\n' !in a.title
    ensures SplitAll(AppointmentText(a, now), '\n')
         == [DateLine(a, now), TitleLine(a)] + SplitAll(Description(a.description), '\n')
  {
    DateLineOneLine(a, now);
    ColoredTextLines(TagColor(a), a.title);
    TwoLinesThen(DateLine(a, now), TitleLine(a), Description(a.description));
  }

  // ---------------------------------------------------------------------
  // The block of upcoming appointments

  /** The bold heading, plural when more than one appointment is upcoming. */
  function Heading(count: nat): string {
    ColoredText("bold", "Upcoming Appointment" + (if count > 1 then "s:" else ":"))
  }

  /** The heading, a blank line and the first appointment; with more than
      one month on screen and more than one appointment, a blank line and
      the second. */
  function Block(selected: seq<AppointmentValue>, monthAmount: int, now: LocalDateTime): string
    requires selected != []
  {
    Heading(|selected|) + "\n\n" + AppointmentText(selected[0], now)
    + (if monthAmount > 1 && |selected| > 1 then "\n\n" + AppointmentText(selected[1], now) else "")
  }

  /** The appointment part of `getCalendarWithUpcomingAppointments`. */
  method UpcomingBlock(selected: seq<AppointmentValue>, monthAmount: int, now: LocalDateTime) returns (r: string)
    requires selected != []
    ensures r == Block(selected, monthAmount, now)
  {
    var first := FormatAppointment(selected[0], now);
    var more := "";
    if monthAmount > 1 && |selected| > 1 {
      var second := FormatAppointment(selected[1], now);
      more := "\n\n" + second;
    }
    r := Heading(|selected|) + "\n\n" + first + more;
  }

  /** The heading reads "Upcoming Appointments:" for several appointments
      and "Upcoming Appointment:" for one. */
  lemma HeadingShows(count: nat)
    ensures Visible(Heading(count)) == if count > 1 then "Upcoming Appointments:" else "Upcoming Appointment:"
  {
    var h := "Upcoming Appointment" + (if count > 1 then "s:" else ":");
    VisiblePlainPrefix(h, "");
    assert h + "" == h;
  }

  /** A blank line between two texts. */
  lemma BlankLineBetween(x: string, t: string)
    ensures SplitAll(x + "\n\n" + t, '\n') == SplitAll(x, '\n') + [""] + SplitAll(t, '\n')
  {
    assert x + "\n\n" + t == x + ['\n'] + ("\n" + t);
    SplitAllConcat(x, '\n', "\n" + t);
    SplitAllPrefix("", '\n', t);
    assert "" + ['\n'] + t == "\n" + t;
  }

  /** The lines of the block: the heading, a blank line, the first
      appointment's lines and, when shown, a blank line and the second's. */
  lemma BlockLines(selected: seq<AppointmentValue>, monthAmount: int, now: LocalDateTime)
    requires selected != []
    ensures SplitAll(Block(selected, monthAmount, now), '\n')
         == [Heading(|selected|), ""] + SplitAll(AppointmentText(selected[0], now), '\n')
            + (if monthAmount > 1 && |selected| > 1 then [""] + SplitAll(AppointmentText(selected[1], now), '\n') else [])
  {
    var h, first := Heading(|selected|), AppointmentText(selected[0], now);
    var two := monthAmount > 1 && |selected| > 1;
    var second := if two then AppointmentText(selected[1], now) else "";
    HeadingOneLine(|selected|);
    BlockShape(h, first, second, two);
  }

  lemma BlockShape(h: string, first: string, second: string, two: bool)
    requires '\n' !in h
    ensures SplitAll(h + "\n\n" + first + (if two then "\n\n" + second else ""), '\n')
         == [h, ""] + SplitAll(first, '\n') + (if two then [""] + SplitAll(second, '\n') else [])
  {
    var x := h + "\n\n" + first;
    HeadThenText(h, first);
    if two {
      BlockOfTwo(x, [h, ""] + SplitAll(first, '\n'), second);
    } else {
      assert x + "" == x;
      assert [h, ""] + SplitAll(first, '\n') + [] == [h, ""] + SplitAll(first, '\n');
    }
  }

  lemma BlockOfTwo(x: string, lines: seq<string>, second: string)
    requires SplitAll(x, '\n') == lines
    ensures SplitAll(x + ("\n\n" + second), '\n') == lines + ([""] + SplitAll(second, '\n'))
  {
    BlankLineBetween(x, second);
    assert x + ("\n\n" + second) == x + "\n\n" + second;
  }

  lemma HeadThenText(h: string, first: string)
    requires '\n' !in h
    ensures SplitAll(h + "\n\n" + first, '\n') == [h, ""] + SplitAll(first, '\n')
  {
    BlankLineBetween(h, first);
    SplitAllNoSep(h, '\n');
    assert [h] + [""] + SplitAll(first, '\n') == [h, ""] + SplitAll(first, '\n');
  }

  lemma HeadingOneLine(count: nat)
    ensures '\n' !in Heading(count)
  {
    ColoredTextLines("bold", "Upcoming Appointment" + (if count > 1 then "s:" else ":"));
  }
}
