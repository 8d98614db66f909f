/** `getMonthWithAppointments` of View/CalendarInterface.java: the month
    grid with every day that some appointment covers replaced by the day
    number in the colour of that appointment's first tag, right-justified in
    eleven characters. */
module Overlay {
  import opened JavaText
  import opened JavaTime
  import opened ColorManager
  import opened Entities
  import opened MonthGrid

  /** The appointment's dates, from its start date to its end date inclusive,
      take in `day`; the times of day play no part. */
  predicate Covers(a: AppointmentValue, day: LocalDate) {
    (DateBefore(ToLocalDate(a.startDate), day) || day == ToLocalDate(a.startDate))
    && (DateBefore(day, ToLocalDate(a.endDate)) || day == ToLocalDate(a.endDate))
  }

  /** The appointments that cover `day`, in list order (the stream filter). */
  function DayAppointments(apps: seq<AppointmentValue>, day: LocalDate): (r: seq<AppointmentValue>)
    ensures forall a :: a in r <==> a in apps && Covers(a, day)
    ensures |r| <= |apps|
    decreases |apps|
  {
    if apps == [] then []
    else (if Covers(apps[0], day) then [apps[0]] else []) + DayAppointments(apps[1..], day)
  }

  /** The colour of `day`, taken from the first appointment that covers it;
      `None` when no appointment does. */
  function DayColor(apps: seq<AppointmentValue>, day: LocalDate): Option<string> {
    var covering := DayAppointments(apps, day);
    if covering == [] then None else Some(TagColor(covering[0]))
  }

  /** A day is coloured exactly when some appointment covers it, and then
      with the colour of the first appointment in the list that does. */
  lemma {:induction false} FirstCovering(apps: seq<AppointmentValue>, day: LocalDate, i: nat)
    requires i < |apps| && Covers(apps[i], day)
    requires forall h :: 0 <= h < i ==> !Covers(apps[h], day)
    ensures DayAppointments(apps, day) != [] && DayAppointments(apps, day)[0] == apps[i]
    ensures DayColor(apps, day) == Some(TagColor(apps[i]))
    decreases i
  {
    if i > 0 {
      assert !Covers(apps[0], day);
      assert forall h :: 0 <= h < i - 1 ==> apps[1..][h] == apps[h + 1];
      FirstCovering(apps[1..], day, i - 1);
    }
  }

  lemma UncoveredDay(apps: seq<AppointmentValue>, day: LocalDate)
    ensures DayColor(apps, day).None? <==> forall i :: 0 <= i < |apps| ==> !Covers(apps[i], day)
  {
    if DayColor(apps, day).None? {
      forall i | 0 <= i < |apps| ensures !Covers(apps[i], day) {
        assert apps[i] in apps;
      }
    } else {
      var a := DayAppointments(apps, day)[0];
      assert a in DayAppointments(apps, day);
      assert a in apps && Covers(a, day);
    }
  }

  // ---------------------------------------------------------------------
  // The highlighted day

  /** `String.format("%11s", ColorManager.getColoredText(color,
      Integer.toString(day)))`. */
  function Highlighted(color: string, day: nat): string {
    PadLeft(ColoredText(color, IntToString(day)), 11)
  }

  /** `h` is `ct` right-justified in eleven characters. */
  predicate PaddedTo11(h: string, ct: string) {
    |h| == (if |ct| < 11 then 11 else |ct|) && h == Spaces(|h| - |ct|) + ct
  }

  /** The highlighted day is padding, the colour's SGR sequence, the digits
      and the reset sequence. */
  lemma HighlightedParts(color: string, day: nat)
    ensures PaddedTo11(Highlighted(color, day), Sgr(SgrParameter(ToLower(color))) + NatToString(day) + Reset)
  {
    var ct := ColoredText(color, IntToString(day));
    CodesFollowEcma48(color);
    assert ct == Sgr(SgrParameter(ToLower(color))) + NatToString(day) + Reset;
    var h := Highlighted(color, day);
    var pad := Spaces(|h| - |ct|);
    assert h == pad + ct by {
      assert |h| == |pad + ct|;
      forall i | 0 <= i < |h| ensures h[i] == (pad + ct)[i] {
        if i >= |h| - |ct| {
          assert h[i] == h[|h| - |ct|..][i - (|h| - |ct|)];
        }
      }
    }
  }

  /** Days of one or two digits fill the eleven characters exactly. A
      terminal shows two characters for a colour name, like a plain day,
      but three for bold, italic, underline and unknown names, whose
      sequence is one character shorter: the row is shifted by one column. */
  lemma HighlightedWidth(color: string, day: nat)
    requires 1 <= day < 100
    ensures |Highlighted(color, day)| == 11
    ensures |Visible(Highlighted(color, day))| == if IsColourName(ToLower(color)) then 2 else 3
  {
    var digits := NatToString(day);
    var ct := ColoredText(color, digits);
    var h := Highlighted(color, day);
    var pad := Spaces(|h| - |ct|);
    HighlightedParts(color, day);
    CodesFollowEcma48(color);
    assert h == pad + ct;
    assert Esc !in pad;
    VisiblePlainPrefix(pad, ct);
    assert Esc !in digits by {
      forall i | 0 <= i < |digits| ensures digits[i] != Esc { assert IsDigit(digits[i]); }
    }
    VisiblePlainPrefix(digits, "");
    assert digits + "" == digits;
    assert Visible(ct) == digits;
  }

  /** No character of the padded day is special to `replaceFirst`, and the
      `"%2d"` day is a plain regular expression. */
  lemma HighlightedIsLiteral(color: string, day: nat)
    ensures ReplacementLiteral(Highlighted(color, day))
    ensures RegexLiteral(Format2d(day))
  {
    HighlightedParts(color, day);
    var q := SgrParameter(ToLower(color));
    ColoredIsLiteral(q, NatToString(day));
    var h := Highlighted(color, day);
    var ct := Sgr(q) + NatToString(day) + Reset;
    PaddedIsLiteral(h, |h| - |ct|, ct);
    DayPatternIsLiteral(day);
  }

  /** A select graphic rendition sequence, digits and the reset sequence. */
  lemma ColoredIsLiteral(q: nat, digits: string)
    requires AllDigits(digits)
    ensures ReplacementLiteral(Sgr(q) + digits + Reset)
  {
    var code := NatToString(q);
    DigitsAreLiteral(digits);
    DigitsAreLiteral(code);
    LiteralJoin([Esc, '['], code);
    LiteralJoin([Esc, '['] + code, "m");
    LiteralJoin(Sgr(q), digits);
    LiteralJoin(Sgr(q) + digits, Reset);
  }

  lemma PaddedIsLiteral(h: string, k: nat, ct: string)
    requires ReplacementLiteral(ct) && h == Spaces(k) + ct
    ensures ReplacementLiteral(h)
  {
    LiteralJoin(Spaces(k), ct);
  }

  lemma LiteralJoin(a: string, b: string)
    requires ReplacementLiteral(a) && ReplacementLiteral(b)
    ensures ReplacementLiteral(a + b)
  {
  }

  lemma DigitsAreLiteral(t: string)
    requires AllDigits(t)
    ensures ReplacementLiteral(t)
  {
    forall i | 0 <= i < |t| ensures t[i] != '\\' && t[i] != '$' {
      assert IsDigit(t[i]);
    }
  }

  lemma DayPatternIsLiteral(day: nat)
    ensures RegexLiteral(Format2d(day))
  {
    var digits := NatToString(day);
    var f := Format2d(day);
    assert f == PadLeft(digits, 2);
    forall i | 0 <= i < |f| ensures f[i] !in "\\^$.|?*+()[]{}" {
      PaddedChar(f, digits, i);
      SpaceOrDigitIsLiteral(f[i]);
    }
  }

  /** A character of a left-padded number is a blank or a digit. */
  lemma PaddedChar(f: string, digits: string, i: nat)
    requires AllDigits(digits) && |digits| <= |f| && i < |f|
    requires f[|f| - |digits|..] == digits
    requires forall j :: 0 <= j < |f| - |digits| ==> f[j] == ' '
    ensures f[i] == ' ' || IsDigit(f[i])
  {
    if i >= |f| - |digits| {
      assert f[i] == f[|f| - |digits|..][i - (|f| - |digits|)];
    }
  }

  lemma SpaceOrDigitIsLiteral(c: char)
    requires c == ' ' || IsDigit(c)
    ensures c !in "\\^$.|?*+()[]{}"
  {
  }

  // ---------------------------------------------------------------------
  // getMonthWithAppointments

  /** One turn of the loop over the days: when an appointment covers day
      `day` of the month of `date`, the first occurrence of the `"%2d"` day
      is replaced by the highlighted day; otherwise nothing changes. */
  function OverlayStep(s: string, date: LocalDate, apps: seq<AppointmentValue>, day: nat): string
    requires 1 <= day <= LengthOfMonth(date.year, date.month)
  {
    match DayColor(apps, WithDayOfMonth(date, day))
    case None => s
    case Some(color) =>
      HighlightedIsLiteral(color, day);
      ReplaceFirst(s, Format2d(day), Highlighted(color, day))
  }

  /** The text after the first `k` turns of the loop. */
  function Overlaid(s: string, date: LocalDate, apps: seq<AppointmentValue>, k: nat): string
    requires k <= LengthOfMonth(date.year, date.month)
    decreases k
  {
    if k == 0 then s else OverlayStep(Overlaid(s, date, apps, k - 1), date, apps, k)
  }

  /** `getMonthWithAppointments(date, appointments)`: the grid of `getMonth`,
      then one replacement per covered day, from day 1 to the last day. */
  method MonthWithAppointments(date: LocalDate, apps: seq<AppointmentValue>) returns (s: string)
    ensures s == Overlaid(Grid(DayOffset(date), LengthOfMonth(date.year, date.month)), date, apps,
                          LengthOfMonth(date.year, date.month))
  {
    var grid := Month(date);
    s := OverlayMonth(grid, date, apps);
  }

  /** The loop over the days of the month, from the first to the last. */
  method OverlayMonth(grid: string, date: LocalDate, apps: seq<AppointmentValue>) returns (s: string)
    ensures s == Overlaid(grid, date, apps, LengthOfMonth(date.year, date.month))
  {
    s := grid;
    var n := LengthOfMonth(date.year, date.month);
    var day := 1;
    while day <= n
      invariant 1 <= day <= n + 1
      invariant s == Overlaid(grid, date, apps, day - 1)
    {
      s := OverlayDay(s, date, apps, day);
      day := day + 1;
    }
  }

  /** The body of the loop: the appointments that cover the day, in list
      order, and, when there is one, the replacement in its colour. */
  method OverlayDay(s: string, date: LocalDate, apps: seq<AppointmentValue>, day: nat) returns (t: string)
    requires 1 <= day <= LengthOfMonth(date.year, date.month)
    ensures t == OverlayStep(s, date, apps, day)
  {
    var currentDay := WithDayOfMonth(date, day);
    var dayAppointments := DayAppointments(apps, currentDay);
    StepByAppointments(s, date, apps, day);
    t := s;
    if dayAppointments != [] {
      var color := TagColor(dayAppointments[0]);
      t := HighlightDay(s, color, day);
    }
  }

  /** The body of the loop for a covered day: the coloured day number,
      right-justified in eleven characters, replaces the first `"%2d"` day. */
  method HighlightDay(s: string, color: string, day: nat) returns (t: string)
    ensures ReplacementLiteral(Highlighted(color, day)) && RegexLiteral(Format2d(day))
    ensures t == ReplaceFirst(s, Format2d(day), Highlighted(color, day))
  {
    var formattedDay := ColoredText(color, IntToString(day));
    HighlightedIsLiteral(color, day);
    t := ReplaceFirst(s, Format2d(day), PadLeft(formattedDay, 11));
  }

  /** One turn of the loop, read off the covering appointments. */
  lemma StepByAppointments(s: string, date: LocalDate, apps: seq<AppointmentValue>, day: nat)
    requires 1 <= day <= LengthOfMonth(date.year, date.month)
    ensures var covering := DayAppointments(apps, WithDayOfMonth(date, day));
      (covering == [] ==> OverlayStep(s, date, apps, day) == s)
      && (covering != [] ==>
            ReplacementLiteral(Highlighted(TagColor(covering[0]), day)) && RegexLiteral(Format2d(day))
            && OverlayStep(s, date, apps, day)
               == ReplaceFirst(s, Format2d(day), Highlighted(TagColor(covering[0]), day)))
  {
    var covering := DayAppointments(apps, WithDayOfMonth(date, day));
    if covering != [] {
      HighlightedIsLiteral(TagColor(covering[0]), day);
    }
  }
}
