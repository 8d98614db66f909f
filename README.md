# Javender calendar renderer in Dafny

This project models the console calendar renderer of Javender, together with the pieces it relies on:

- `View/CalendarInterface` renders the calendar.
  - It lays out a month as a grid of three-character day cells.
  - It stacks one or more months under a header.
  - It recolours the days that appointments cover.
  - It word-wraps prompts and appointment descriptions.
  - It lists upcoming appointments and sets them beside the calendar, line by line.
- `View/ColorManager` wraps text in ANSI select-graphic-rendition (SGR) sequences. These are defined in section 8.3.117 of ECMA-48.
- The entity classes `Model/Entities/Tag` and `Model/Entities/Appointment` hold the data. Each has its own `equals` and `hashCode`.

## How the model is organised

The Java library behaviour the renderer depends on is written out in Dafny rather than assumed:

- **`JavaText`** models these `String` operations:
  - `String.split` with its dropped trailing empty parts;
  - `%2d`, `%11s` and `%-Ns` padding;
  - `replaceFirst` with a literal pattern;
  - `toLowerCase`;
  - Java's truncating `%`;
  - 32-bit wrap-around.
- **`JavaTime`** models the `java.time` parts:
  - the proleptic Gregorian calendar and month lengths;
  - ISO weekdays;
  - `plusMonths` and `Month.plus`;
  - English month and day names;
  - `dd.MM.yyyy` and `HH:mm` formatting.
- **`JavaHash`** models `Objects.hash`.

The renderer is covered module by module:

| module | what it covers |
|---|---|
| `MonthGrid` (with `GridRows`, `GridTokens` and `GridExamples`) | `getDayOffset` and `getMonth` |
| `Overlay` (with `Occurrences`, `OverlayProofs` and `RedCollision`) | `getMonthWithAppointments` |
| `TextWrap` | `formatPrompt` and `formatAppointmentDescription` |
| `Upcoming` | the selection of upcoming appointments, `formatAppointmentDate`, `formatAppointment` and the appointment panel |
| `Layout` | `getMaxLineLength`, `getMonthWithText` and `mergeCalendarWithAppointments` |
| `CalendarView` | `getNumberSuffix`, `getCalendar` and `getCalendarWithUpcomingAppointments` |
| `ColorManager` | `getColoredText` |
| `Entities` | the two entity classes |

**Methods and specifications.** The loops of the Java code are Dafny methods, each proved against a specification function:

| method | specification |
|---|---|
| `MonthGrid.Month` | `Grid` |
| `Overlay.MonthWithAppointments` | `Overlaid` |
| `TextWrap.FormatPrompt` | `Render(Wrap(..))` |
| `TextWrap.FormatDescription` | `Description` |
| `Layout.MaxLineLength` | the maximum itself |
| `Layout.MonthWithText` | `MonthText` |
| `Layout.Merge` | `Merged` |
| `CalendarView.Calendar` | `CalendarText` |
| `CalendarView.CalendarWithUpcoming` | `CalendarWithUpcomingText` |

The lemmas state what those specification functions guarantee.

**Entity classes.** `Tag` and `Appointment` are classes with mutable fields, two constructors each, setters, `Equals` and `HashCode`. The renderer works on `TagValue` and `AppointmentValue` snapshots, taken with `Value()`, because the renderer only reads the getters.

**The clock.** Every `LocalDateTime.now()` read becomes a `now` parameter.

### Notable behaviour of the code

The model keeps each of these behaviours:

- **No "today" highlighting.** No code path picks a background colour by itself. The background colours are reached only through a tag's colour name, such as `bg_red`. That name colours a day cell of the grid and the appointment's title in the panel.
- **Running appointments.** An appointment counts as running only when start < now < end. An appointment that starts exactly at `now` is neither upcoming nor running, so it is not selected.
- **Entries in the panel.** A single-month view shows one upcoming appointment; a view of several months shows up to two.
- **Line length in `formatPrompt` and the description formatter.** Both count only the letters of the words against the 30-character line and the 57-character cap. The separating blanks are not counted.
- **Padding is measured in raw characters, escape codes included.** This has two consequences:
  - a highlighted day is `%11s` of its coloured text, so a colour name outside the palette (a 4-character reset prefix) leaves a 3-character visible cell;
  - the merge fills missing calendar lines with as many blanks as the raw length of the first calendar line (29 for the bold single-month header, whose visible width is 21; `CalendarView.SingleMonthFiller`).
- **Red clashes with day 31.** Red's SGR parameter is `31`. In a 31-day month where an earlier day is coloured red, `replaceFirst("31", ...)` hits the parameter inside that day's escape sequence instead of the cell of day 31 (`RedCollision.RedHijacksDay31`).
- **Unused parameters.**
  - The appointment list passed to `getMonthWithText` is not used.
  - The list of upcoming appointments passed to `mergeCalendarWithAppointments` is not used.

## Model

| member | source | states |
|---|---|---|
| JavaText.Spaces | src/main/java/View/CalendarInterface.java:42 | `" ".repeat(n)`: exactly n characters, all blanks |
| JavaText.NatToString | src/main/java/View/CalendarInterface.java:131 | `Integer.toString` of a natural number: decimal digits only, one digit exactly below 10, two digits exactly for 10..99, no leading zero |
| JavaText.ParseNatToString | src/main/java/View/CalendarInterface.java:131 | reading the decimal text back gives the number again (round trip) |
| JavaText.NatToStringInjective | src/main/java/View/CalendarInterface.java:131 | two numbers with the same decimal text are equal |
| JavaText.IntToString | src/main/java/View/CalendarInterface.java:53 | a year appended to a string: its decimal digits, behind a minus sign when negative |
| JavaText.PadLeft | src/main/java/View/CalendarInterface.java:132 | `%Ns`: width the larger of N and the length of s, s right-justified, blanks in front |
| JavaText.PadRight | src/main/java/View/CalendarInterface.java:166 | `%-Ns`: width the larger of N and the length of s, s left-justified, blanks behind |
| JavaText.SplitAll | src/main/java/View/CalendarInterface.java:150 | the pieces between separators: at least one, none containing the separator |
| JavaText.DropTrailingEmpty | src/main/java/View/CalendarInterface.java:150 | keeps a prefix whose last piece is nonempty; every dropped piece is empty |
| JavaText.Split | src/main/java/View/CalendarInterface.java:150 | `String.split`: a text without the separator gives itself alone; no piece contains the separator |
| JavaText.JoinSplitAll | src/main/java/View/CalendarInterface.java:150 | joining the pieces with the separator restores the text |
| JavaText.SplitAllJoin | src/main/java/View/CalendarInterface.java:225-226 | splitting lines joined by a separator they do not contain gives the lines back |
| JavaText.SplitJoin | src/main/java/View/CalendarInterface.java:225-226 | the same for `String.split` when the last line is nonempty |
| JavaText.SplitAllConcat | src/main/java/View/CalendarInterface.java:83 | texts joined at a separator split into the pieces of each part |
| JavaText.IndexOf | src/main/java/View/CalendarInterface.java:132 | the first position where the pattern occurs, or none when it occurs nowhere |
| JavaText.ReplaceFirst | src/main/java/View/CalendarInterface.java:132 | `replaceFirst` with a literal pattern: the text is unchanged when the pattern does not occur, otherwise its first occurrence is replaced |
| JavaText.ToLower | src/main/java/View/ColorManager.java:26 | `toLowerCase`: same length, each character lower-cased |
| JavaText.ToLowerIdempotent | src/main/java/View/ColorManager.java:26 | lower-casing twice is lower-casing once |
| JavaText.Wrap32 | src/main/java/Model/Entities/Appointment.java:90 | Java `int` overflow: the result is congruent to the exact value modulo 2^32 |
| JavaText.JavaRem | src/main/java/View/CalendarInterface.java:94 | Java's `%`: the mathematical remainder for a nonnegative operand, a remainder in (-b, 0] for a negative one |
| JavaTime.LengthOfMonth | src/main/java/View/CalendarInterface.java:35 | 28 to 31 days; 29 exactly for February of a leap year |
| JavaTime.DaysInYear | src/main/java/View/CalendarInterface.java:35 | the month lengths add up to 366 in leap years and 365 otherwise |
| JavaTime.DateTimeBeforeIsStrictTotalOrder | src/main/java/View/CalendarInterface.java:200-203 | `isBefore` on date-times is irreflexive, asymmetric, transitive and total |
| JavaTime.DayOfWeek | src/main/java/View/CalendarInterface.java:338 | the ISO weekday, Monday 1 to Sunday 7 |
| JavaTime.NextDayIsOneLater | src/main/java/View/CalendarInterface.java:338 | the day count of the following date is one more |
| JavaTime.WeekdayAdvances | src/main/java/View/CalendarInterface.java:338 | the following date has the next weekday, Sunday wrapping to Monday |
| JavaTime.WeekdayAnchors | src/main/java/View/CalendarInterface.java:338 | 1 January 1970 is day 0 and a Thursday; 1 January 2025 is a Wednesday; 1 March 2025 a Saturday |
| JavaTime.WithDayOfMonth | src/main/java/View/CalendarInterface.java:113 | same year and month, the given day |
| JavaTime.PlusMonths | src/main/java/View/CalendarInterface.java:78 | the month count advances by n and the day is clamped to the new month's length |
| JavaTime.MonthPlusAgrees | src/main/java/View/CalendarInterface.java:82 | `Month.plus(i)`, taken cyclically, is the month of `plusMonths(i)` |
| JavaTime.MonthName | src/main/java/View/CalendarInterface.java:53 | an English month name of 3 to 9 letters |
| JavaTime.DayName | src/main/java/View/CalendarInterface.java:66 | an English day name of 6 to 9 letters |
| JavaTime.ParseZeroPadded | src/main/java/View/CalendarInterface.java:274 | a zero-padded field reads back as its number |
| JavaTime.TwoDigits | src/main/java/View/CalendarInterface.java:274 | `dd`/`MM`/`HH`/`mm`: digits that read back as the number, two of them below 100 |
| JavaTime.FormatYear | src/main/java/View/CalendarInterface.java:274 | `yyyy`: four digits reading back as the year of era up to 9999, a `+` and the digits beyond |
| JavaTime.FormatDate | src/main/java/View/CalendarInterface.java:274 | `dd.MM.yyyy`: dots at 2 and 5, day, month and year reading back from their fields |
| JavaTime.FormatTime | src/main/java/View/CalendarInterface.java:274-275 | `HH:mm`: five characters, hour and minute reading back from their fields |
| JavaHash.Wrap32Equal | src/main/java/Model/Entities/Appointment.java:90 | two wrapped values are equal exactly when the exact values are congruent modulo 2^32 |
| JavaHash.Wrap32AddInjective | src/main/java/Model/Entities/Tag.java:55 | adding a fixed amount and wrapping tells `int` values apart |
| MonthGrid.DayOffset | src/main/java/View/CalendarInterface.java:336-341 | the ISO weekday of the first of the month minus one, so between 0 and 6 |
| MonthGrid.Rows | src/main/java/View/CalendarInterface.java:30-41 | (offset + days) / 7 + 1 rows, the last one blank when offset + days is a multiple of 7; row r holds cells 7r to 7r+6 |
| MonthGrid.PlainTexts | src/main/java/View/CalendarInterface.java:36 | day i+1 written as `%2d` |
| MonthGrid.Month | src/main/java/View/CalendarInterface.java:26-45 | the loop with its `dayPosition` counter produces the rows of the grid joined by line breaks |
| GridRows.SplitGrid | src/main/java/View/CalendarInterface.java:26-45 | splitting the month text at line breaks gives exactly the rows, each 21 characters wide |
| GridRows.DayPlacement | src/main/java/View/CalendarInterface.java:30-41 | cell c of row r holds the `%2d ` text of day 7r+c-offset+1 when that is a day of the month, three blanks otherwise |
| GridRows.ExtraBlankRow | src/main/java/View/CalendarInterface.java:37-42 | the last row is all blank exactly when offset + days is a multiple of 7, and then the text ends in a line break and 21 blanks |
| GridRows.DaysInLastRow | src/main/java/View/CalendarInterface.java:42 | otherwise the last row holds a day |
| GridTokens.Tokens | src/main/java/View/CalendarInterface.java:36-39 | the text as cells, each followed by a line break exactly when it is the seventh of a row that is not the last |
| GridTokens.GridIsTokens | src/main/java/View/CalendarInterface.java:26-45 | the month text is the concatenation of those cells |
| GridTokens.ReplaceInGrid | src/main/java/View/CalendarInterface.java:132 | replacing the first occurrence of a day's text replaces that day's cell when no earlier cell contains it |
| GridExamples.January2025Offset | src/main/java/View/CalendarInterface.java:336-341 | January 2025 starts after two blank cells |
| GridExamples.March2025Rows | src/test/java/CalendarInterfaceTests.java:71-78 | the text of March 2025 splits into exactly the six rows the test expects, and "25 26 27 28 29 30 31" occurs nowhere in it |
| Overlay.DayAppointments | src/main/java/View/CalendarInterface.java:115-123 | exactly the appointments whose start and end dates enclose the day, time of day ignored |
| Overlay.FirstCovering | src/main/java/View/CalendarInterface.java:125-129 | the colour is that of the first covering appointment in list order: its first tag's colour, or white without tags |
| Overlay.UncoveredDay | src/main/java/View/CalendarInterface.java:125 | a day gets no colour exactly when no appointment covers it |
| Overlay.HighlightedParts | src/main/java/View/CalendarInterface.java:131-132 | the highlighted day is blanks, the colour's SGR sequence, the digits and the reset sequence, right-justified in 11 characters |
| Overlay.HighlightedWidth | src/main/java/View/CalendarInterface.java:131-132 | 11 raw characters; 2 visible for a palette colour, 3 for any other name |
| Overlay.HighlightedIsLiteral | src/main/java/View/CalendarInterface.java:132 | neither the `%2d` pattern nor the replacement holds regex or replacement metacharacters, so `replaceFirst` acts literally |
| Overlay.MonthWithAppointments | src/main/java/View/CalendarInterface.java:109-136 | the loop's result is the grid after every day's turn |
| Overlay.OverlayDay | src/main/java/View/CalendarInterface.java:112-133 | one turn of the loop for one day |
| Overlay.HighlightDay | src/main/java/View/CalendarInterface.java:131-132 | the first occurrence of the day's `%2d` text is replaced by its highlighted text |
| Overlay.StepByAppointments | src/main/java/View/CalendarInterface.java:112-133 | an uncovered day leaves the text byte for byte; a covered one replaces its first occurrence with the colour of the first covering appointment |
| OverlayProofs.SeizesIsRed | src/main/java/View/CalendarInterface.java:131-132 | a day's colour sequence can hold another day's text only when it is red and that day is the 31st |
| OverlayProofs.HijackedIsRed | src/main/java/View/CalendarInterface.java:131-132 | a day's replacement can go astray only for day 31 after a red day |
| OverlayProofs.DayTextsDistinct | src/main/java/View/CalendarInterface.java:132 | the `%2d` texts of different days differ |
| OverlayProofs.OverlaidSteps | src/main/java/View/CalendarInterface.java:112-134 | after m turns without a stray replacement, exactly the covered days among the first m carry their highlight |
| OverlayProofs.MonthHighlightsCoveredDays | src/main/java/View/CalendarInterface.java:109-136 | unless a 31-day month has a red day before the 31st, the result is the grid with every covered day's cell highlighted and every other cell as it was |
| OverlayProofs.UncoveredMonthIsPlain | src/main/java/View/CalendarInterface.java:109-136 | when no appointment covers a day of the month, the month text is unchanged |
| RedCollision.RedHijacksDay31 | src/main/java/View/CalendarInterface.java:131-132 | in a 31-day month with a red day before the 31st, the first `31` in the text before the last turn lies inside an escape sequence, right after `ESC[` |
| RedCollision.FirstRed | src/main/java/View/CalendarInterface.java:125-132 | the earliest red day of the month |
| ColorManager.ColoredText | src/main/java/View/ColorManager.java:24-47 | the visible text is the input; 9 characters longer for a palette colour and 8 otherwise; it ends with the reset sequence |
| ColorManager.CodesFollowEcma48 | src/main/java/View/ColorManager.java:5-45 | the prefix for any name is ESC [ p m with p the ECMA-48 parameter of the lower-cased name |
| ColorManager.ParameterOfName | src/main/java/View/ColorManager.java:5-43 | the 17 names get 31-36 and 41-46 for colours and backgrounds, 1, 3 and 4 for bold, italic and underline, 37 and 47 for white |
| ColorManager.UnknownName | src/main/java/View/ColorManager.java:44 | an unlisted name falls back to the reset sequence, parameter 0, and never fails |
| ColorManager.ResetIsSgr0 | src/main/java/View/ColorManager.java:5 | the reset sequence is SGR parameter 0 |
| ColorManager.SgrInjective | src/main/java/View/ColorManager.java:5-22 | different parameters give different sequences |
| ColorManager.TableInjective | src/main/java/View/ColorManager.java:27-43 | distinct listed names give distinct sequences, none of them the reset sequence |
| ColorManager.ParameterRange | src/main/java/View/ColorManager.java:27-44 | parameters are below 10 or between 31 and 47; 31 belongs to `red` alone |
| ColorManager.CodeLength | src/main/java/View/ColorManager.java:5-22 | colour and background prefixes have 5 characters, bold, italic, underline and reset 4 |
| ColorManager.ColoredTextIgnoresCase | src/main/java/View/ColorManager.java:26 | names that agree after lower-casing give the same result |
| ColorManager.LowerCaseExamples | src/main/java/View/ColorManager.java:26 | `RED`, `Red` and `red` all select the red sequence |
| ColorManager.ColoredTextLines | src/main/java/View/ColorManager.java:46 | the result has a line break exactly when the text has one |
| Entities.Tag.constructor | src/main/java/Model/Entities/Tag.java:10-14 | stores id, name and colour |
| Entities.Tag.Named | src/main/java/Model/Entities/Tag.java:16-19 | stores name and colour and leaves the id at 0 |
| Entities.Tag.SetTagId | src/main/java/Model/Entities/Tag.java:25-27 | changes the id only |
| Entities.Tag.SetName | src/main/java/Model/Entities/Tag.java:33-35 | changes the name only |
| Entities.Tag.SetColor | src/main/java/Model/Entities/Tag.java:41-43 | changes the colour only, with no check of the value |
| Entities.Tag.Equals | src/main/java/Model/Entities/Tag.java:45-51 | true for the same object, false for null or another class, otherwise name and colour equal, the id ignored |
| Entities.TagEqualsIsEquivalence | src/main/java/Model/Entities/Tag.java:45-51 | reflexive, symmetric and transitive |
| Entities.TagHashSeesId | src/main/java/Model/Entities/Tag.java:53-56 | two equal tags have equal hash codes exactly when their ids agree, so equal tags can hash differently |
| Entities.ThreeFieldHashSeesFirst | src/main/java/Model/Entities/Tag.java:55 | `Objects.hash` of three values with the same last two is equal exactly when the first values agree |
| Entities.Appointment.constructor | src/main/java/Model/Entities/Appointment.java:15-22 | stores all six arguments |
| Entities.Appointment.Unnumbered | src/main/java/Model/Entities/Appointment.java:24-30 | stores the five arguments and leaves the id at 0 |
| Entities.Appointment.SetAppointmentId | src/main/java/Model/Entities/Appointment.java:36-38 | changes the id only |
| Entities.Appointment.SetStartDate | src/main/java/Model/Entities/Appointment.java:44-46 | changes the start only |
| Entities.Appointment.SetEndDate | src/main/java/Model/Entities/Appointment.java:52-54 | changes the end only |
| Entities.Appointment.SetTitle | src/main/java/Model/Entities/Appointment.java:60-62 | changes the title only |
| Entities.Appointment.SetDescription | src/main/java/Model/Entities/Appointment.java:68-70 | changes the description only |
| Entities.Appointment.SetTags | src/main/java/Model/Entities/Appointment.java:76-78 | changes the tag list only |
| Entities.Appointment.Equals | src/main/java/Model/Entities/Appointment.java:80-86 | true for the same object, false for null or another class, otherwise all six fields equal, tags compared element by element with the tag equality |
| Entities.AppointmentEqualsIsEquivalence | src/main/java/Model/Entities/Appointment.java:80-86 | reflexive, symmetric and transitive |
| Entities.AppointmentHashFollowsTags | src/main/java/Model/Entities/Appointment.java:88-91 | equal appointments hash alike exactly when their tag lists hash alike |
| Entities.AppointmentHashSeesTagId | src/main/java/Model/Entities/Appointment.java:88-91 | for equal appointments with one tag, equal hash codes exactly when the tag ids agree, so equal appointments can hash differently |
| TextWrap.FormatPrompt | src/main/java/View/CalendarInterface.java:179-194 | the loop's result is the greedy grouping of the words into lines, each word followed by a blank, lines separated by line breaks |
| TextWrap.Words | src/main/java/View/CalendarInterface.java:187 | a line's text is its letters plus one blank per word |
| TextWrap.WrapKeepsWords | src/main/java/View/CalendarInterface.java:184-192 | every word is kept, in order, none split |
| TextWrap.WrapFits | src/main/java/View/CalendarInterface.java:185 | each line holds at most 30 letters unless it is a single longer word; no line after the first is empty |
| TextWrap.WrapIsGreedy | src/main/java/View/CalendarInterface.java:185-190 | a line breaks only where the next word would take it past 30 letters |
| TextWrap.WrapFirstLine | src/main/java/View/CalendarInterface.java:185-190 | the output opens with a line break exactly when the first word is longer than 30 letters, or there is none |
| TextWrap.Kept | src/main/java/View/CalendarInterface.java:304-308 | the kept words have at most 57 letters, and the next word would exceed that |
| TextWrap.KeptIsFirstOverflow | src/main/java/View/CalendarInterface.java:305 | every word before the cut fitted in the budget |
| TextWrap.DescriptionEllipsis | src/main/java/View/CalendarInterface.java:305-307 | the description ends in `...` exactly when its words have more than 57 letters |
| TextWrap.FormatDescription | src/main/java/View/CalendarInterface.java:295-320 | the loop with its `break` produces the kept words wrapped at 30 letters, indented by three blanks, then `...` when words were left out |
| Upcoming.UpcomingCounts | src/main/java/View/CalendarInterface.java:199-202 | the filter keeps each appointment that starts after now or is running, as often as it occurs, and no other |
| Upcoming.SortByStartSorts | src/main/java/View/CalendarInterface.java:203 | the sort orders by start and is a permutation |
| Upcoming.SortByStartStable | src/main/java/View/CalendarInterface.java:203 | appointments with the same start keep their list order |
| Upcoming.SelectedIsUpcomingSorted | src/main/java/View/CalendarInterface.java:199-204 | the selection is sorted by start, holds exactly the upcoming appointments, and keeps ties in list order |
| Upcoming.SingleDayFields | src/main/java/View/CalendarInterface.java:274-275 | the single-day layout (date, a bar, start time, dash, end time, in brackets) is 28 characters and its fields read back as the start date, start time and end time |
| Upcoming.MultiDayFields | src/main/java/View/CalendarInterface.java:277-278 | `(dd.MM.yyyy, HH:mm - dd.MM.yyyy, HH:mm)` is 39 characters and its fields read back as start and end |
| Upcoming.DateLineMarksRunning | src/main/java/View/CalendarInterface.java:280-284 | the date line ends with the yellow ` (Running)` exactly when start < now < end |
| Upcoming.DateLineForm | src/main/java/View/CalendarInterface.java:286-288 | the single-day layout is used exactly when start and end share a date |
| Upcoming.DateLineOneLine | src/main/java/View/CalendarInterface.java:273-289 | the date line holds no line break |
| Upcoming.FormatAppointment | src/main/java/View/CalendarInterface.java:250-268 | the date line, the arrow with the title in its colour, and the description |
| Upcoming.AppointmentLines | src/main/java/View/CalendarInterface.java:250-268 | the appointment's lines are the date line, the title line and the description's lines |
| Upcoming.UpcomingBlock | src/main/java/View/CalendarInterface.java:210-219 | the panel text for a nonempty selection |
| Upcoming.BlockLines | src/main/java/View/CalendarInterface.java:210-219 | the panel's lines: heading, blank, the first appointment, and, with several months and several appointments, a blank and the second |
| Upcoming.HeadingShows | src/main/java/View/CalendarInterface.java:211-212 | the heading reads `Upcoming Appointments:` exactly when more than one appointment is selected |
| Layout.MaxLineLength | src/main/java/View/CalendarInterface.java:322-330 | no line is longer than the result, some line is that long, and an empty list gives 0 |
| Layout.TextRows | src/main/java/View/CalendarInterface.java:160-167 | max(month lines, prompt lines) rows, row i built from part i of each, a missing part being empty |
| Layout.WriteColumns | src/main/java/View/CalendarInterface.java:162-167 | the loop appends those rows, each followed by a line break |
| Layout.MonthWithText | src/main/java/View/CalendarInterface.java:146-170 | the first grid row, then the other rows beside the wrapped prompt at padding 21 + 10 |
| Layout.MonthRows | src/main/java/View/CalendarInterface.java:147-150 | the month's lines are the grid rows, at least one, each 21 characters |
| Layout.PromptColumn | src/main/java/View/CalendarInterface.java:146-170 | the result's lines are the first grid row, then max(other rows, prompt lines) lines, each the month part padded to 31 columns, a blank and the prompt part, then an empty last piece |
| Layout.MonthTextLines | src/main/java/View/CalendarInterface.java:158-169 | the same line structure for any month lines that fit the padding |
| Layout.CalendarPart | src/main/java/View/CalendarInterface.java:234 | a missing calendar line becomes as many blanks as the raw length of the first calendar line |
| Layout.MergedRows | src/main/java/View/CalendarInterface.java:231-238 | max(calendar lines, panel lines) rows, each calendar part, 10 blanks and panel part |
| Layout.Merge | src/main/java/View/CalendarInterface.java:224-240 | the loop appends those rows, each followed by a line break |
| Layout.MergedLines | src/main/java/View/CalendarInterface.java:224-240 | the merged text splits into exactly those rows and an empty last piece, each row holding its calendar part, the gap and its panel part at fixed positions |
| CalendarView.DaysHeader | src/main/java/View/CalendarInterface.java:49 | 21 characters for one month, 25 for several |
| CalendarView.NumberSuffix | src/main/java/View/CalendarInterface.java:90-100 | a two-letter suffix |
| CalendarView.OrdinalSuffixes | src/main/java/View/CalendarInterface.java:90-100 | for days 1 to 31 the suffixes of 1st, 2nd, 3rd, 4th ... 11th, 12th, 13th ... 21st, 22nd, 23rd ... 31st |
| CalendarView.HeaderFits | src/main/java/View/CalendarInterface.java:53-57 | `MONTH YEAR` has at most 20 characters for every year, so neither margin is negative |
| CalendarView.CenteredBalanced | src/main/java/View/CalendarInterface.java:54-57 | the centred header has the full width, the header at the left margin, blanks elsewhere, and a right margin equal to the left or one more |
| CalendarView.HeaderShows | src/main/java/View/CalendarInterface.java:58 | the bold header shows exactly the centred text |
| CalendarView.CurrentDayFits | src/main/java/View/CalendarInterface.java:64-74 | `Weekday, Month 24th` has at most 25 characters, so its padding is never negative |
| CalendarView.CurrentDayPlain | src/main/java/View/CalendarInterface.java:66-70 | that line holds no line break and no escape character |
| CalendarView.Abbreviation | src/main/java/View/CalendarInterface.java:82 | three characters without a line break |
| CalendarView.MonthLabels | src/main/java/View/CalendarInterface.java:82 | label i abbreviates the month i after the first, counted cyclically |
| CalendarView.LabelsNameMonths | src/main/java/View/CalendarInterface.java:82 | label i is the first three letters of the month of `date.plusMonths(i)` |
| CalendarView.MonthLines | src/main/java/View/CalendarInterface.java:78 | the lines of an overlaid month hold no line break |
| CalendarView.MonthLineLists | src/main/java/View/CalendarInterface.java:77-78 | one list of lines per month shown, each matched with its label |
| CalendarView.LabelledRows | src/main/java/View/CalendarInterface.java:81-84 | line j of a month is behind its label and a blank when j is 0, behind four blanks otherwise |
| CalendarView.LabelMonth | src/main/java/View/CalendarInterface.java:80-84 | the inner loop writes each line behind a line break and its label |
| CalendarView.WriteMonths | src/main/java/View/CalendarInterface.java:77-86 | the outer loop appends the labelled lines of each month in turn, none for a nonpositive count |
| CalendarView.SingleMonth | src/main/java/View/CalendarInterface.java:52-62 | the bold centred header, the weekday line and the overlaid month |
| CalendarView.SeveralMonths | src/main/java/View/CalendarInterface.java:64-87 | the underlined current-day line, the weekday line and the stacked months |
| CalendarView.Calendar | src/main/java/View/CalendarInterface.java:47-88 | the single-month form for a count of 1, the stacked form otherwise |
| CalendarView.SingleMonthLines | src/main/java/View/CalendarInterface.java:52-61 | the single-month lines are the bold header, the weekday line and the month's lines |
| CalendarView.MultiMonthLines | src/main/java/View/CalendarInterface.java:64-87 | the stacked lines are the current-day line, the weekday line and each month's labelled lines |
| CalendarView.CalendarHasLines | src/main/java/View/CalendarInterface.java:225-230 | the calendar splits into at least one line, so `getFirst` has a line to read |
| CalendarView.CalendarWithUpcoming | src/main/java/View/CalendarInterface.java:196-222 | the calendar alone when nothing is upcoming, otherwise the calendar merged with the panel |
| CalendarView.UpcomingBeside | src/main/java/View/CalendarInterface.java:196-240 | with something upcoming, the result has one line per calendar or panel line, whichever are more, each the calendar part, 10 blanks and the panel part |
| CalendarView.BoldHeader | src/main/java/View/CalendarInterface.java:53-58 | the bold single-month header is 29 raw characters, and its visible text is the 21-character centred month and year |
| CalendarView.SingleMonthFiller | src/main/java/View/CalendarInterface.java:230-234 | in the single-month view, the merge fills each line past the calendar's end with 29 blanks (the raw length of the bold header), while the header shows only 21 characters |

## Left out

- The clock: every `LocalDateTime.now()` read becomes a `now` parameter. The Java code reads the clock several times per call; the model reads it once.
- The interactive part of the interface is not part of this model: prompts, reading input, printing and clearing the screen (`CalendarInterface.java` from line 343 on). The same holds for the database layer, the controllers, the menus and `toString`.
- Exceptions become preconditions:
  - `plusMonths` beyond the supported years is excluded by `CalendarView.InRange`;
  - `getFirst` on the calendar lines is shown never to fail (`CalendarView.CalendarHasLines`);
  - the `repeat` counts are shown never to be negative (`CalendarView.HeaderFits`, `CalendarView.CurrentDayFits`).
- Aliasing: the renderer reads `AppointmentValue` and `TagValue` snapshots, so changing an entity while it renders is not modelled.
- The tag list of an appointment is a Dafny sequence of `Tag` references. A `null` list or `null` tags are not modelled.
- `JavaText.ToLower` lower-cases ASCII letters only. All palette names are ASCII.
- The default locale: `JavaText.ToLower`, `CalendarView.Capitalized` and the `%2d`, `%11s` and `%-31s` formatting assume an English or root default locale. The Java code calls `toLowerCase()` (`ColorManager.java:26`, `CalendarInterface.java:67` and `69`) and `String.format` without a locale. Under a Turkish or Azerbaijani default, 'I' lower-cases to a dotless 'ı'. Then "WHITE", "ITALIC" and "BG_WHITE" fall to the reset code, and "FRIDAY" reads "Frıday". The model does not capture this.
- `JavaText.ReplaceFirst` models `replaceFirst` only for patterns and replacements free of regex and replacement metacharacters. `Overlay.HighlightedIsLiteral` shows that every call the renderer makes is of that kind.
- `JavaHash` models `String.hashCode` over Dafny characters, that is over UTF-16 code units for text in the Basic Multilingual Plane.
- TextWrap.FormatPrompt, TextWrap.FormatDescription, TextWrap.Kept, JavaText.PadLeft, JavaText.PadRight, Layout.MaxLineLength, Layout.MonthWithText and Layout.Merge: every length is the number of Dafny characters (Unicode scalar values). `String.length()` and `%Ns`/`%-Ns` count UTF-16 code units. A character outside the Basic Multilingual Plane counts 1 in the model and 2 in Java. For text holding such characters, the model therefore wraps, cuts with `...` and pads differently from the code. For example, one word of 29 such characters is kept in full by the model, while the code prints only the indent and `...`, because its `length()` is 58. The model agrees with the code on text in the Basic Multilingual Plane.
- CalendarView.HeaderFits: states at most 20 characters for the header rather than its exact length.
