/** Explicit models of the pieces of the Java standard library that the
    calendar renderer relies on: decimal conversion (`Integer.toString`),
    `String.format` padding (`%2d`, `%11s`, `%-Ns`), `String.split` with a
    one-character separator, `String.replaceFirst` with a literal pattern,
    `String.toLowerCase` and 32-bit integer wrap-around. */
module JavaText {

  datatype Option<+T> = None | Some(value: T)

  /** `" ".repeat(n)` */
  function Spaces(n: nat): (r: string)
    ensures |r| == n
    ensures forall i :: 0 <= i < n ==> r[i] == ' '
  {
    if n == 0 then "" else Spaces(n - 1) + " "
  }

  predicate IsDigit(c: char) {
    '0' <= c <= '9'
  }

  function DigitChar(d: nat): (c: char)
    requires d < 10
    ensures IsDigit(c)
  {
    ('0' as int + d) as char
  }

  function DigitValue(c: char): (d: nat)
    requires IsDigit(c)
    ensures d < 10 && DigitChar(d) == c
  {
    c as int - '0' as int
  }

  predicate AllDigits(s: string) {
    forall i :: 0 <= i < |s| ==> IsDigit(s[i])
  }

  /** Decimal digits of `n`, most significant first, without leading zeros. */
  function NatToString(n: nat): (s: string)
    ensures 1 <= |s| && AllDigits(s)
    ensures |s| == 1 <==> n < 10
    ensures |s| == 2 <==> 10 <= n < 100
    ensures |s| > 1 ==> s[0] != '0'
    decreases n
  {
    if n < 10 then [DigitChar(n)] else NatToString(n / 10) + [DigitChar(n % 10)]
  }

  /** Reads a string of decimal digits back as a number. */
  function ParseNat(s: string): nat
    requires AllDigits(s)
  {
    if s == [] then 0 else 10 * ParseNat(s[..|s| - 1]) + DigitValue(s[|s| - 1])
  }

  /** Decimal conversion is undone by parsing, so it never maps two numbers
      to the same text. */
  lemma {:induction false} ParseNatToString(n: nat)
    ensures ParseNat(NatToString(n)) == n
    decreases n
  {
    if n >= 10 {
      var s := NatToString(n);
      assert s[..|s| - 1] == NatToString(n / 10);
      ParseNatToString(n / 10);
    }
  }

  lemma NatToStringInjective(m: nat, n: nat)
    requires NatToString(m) == NatToString(n)
    ensures m == n
  {
    ParseNatToString(m);
    ParseNatToString(n);
  }

  lemma NatToStringDistinct(m: nat, n: nat)
    ensures m != n ==> NatToString(m) != NatToString(n)
  {
    if NatToString(m) == NatToString(n) {
      NatToStringInjective(m, n);
    }
  }

  /** `Integer.toString(n)`, also what `"" + n` produces. */
  function IntToString(n: int): (s: string)
    ensures n >= 0 ==> s == NatToString(n)
    ensures n < 0 ==> s == "-" + NatToString(-n)
  {
    if n < 0 then "-" + NatToString(-n) else NatToString(n)
  }

  /** `String.format("%" + w + "s", s)`: right-justified in a field of at
      least `w` characters; a longer text is left as it is. */
  function PadLeft(s: string, w: nat): (r: string)
    ensures |r| == if |s| < w then w else |s|
    ensures r[|r| - |s|..] == s
    ensures forall i :: 0 <= i < |r| - |s| ==> r[i] == ' '
  {
    if |s| < w then Spaces(w - |s|) + s else s
  }

  /** `String.format("%-" + w + "s", s)`: left-justified. */
  function PadRight(s: string, w: nat): (r: string)
    ensures |r| == if |s| < w then w else |s|
    ensures r[..|s|] == s
    ensures forall i :: |s| <= i < |r| ==> r[i] == ' '
  {
    if |s| < w then s + Spaces(w - |s|) else s
  }

  /** `String.format("%2d", n)` */
  function Format2d(n: int): string {
    PadLeft(IntToString(n), 2)
  }

  // ---------------------------------------------------------------------
  // String.split with a one-character separator

  /** Every piece between separators, including empty ones. */
  function SplitAll(s: string, sep: char): (parts: seq<string>)
    ensures |parts| >= 1
    ensures forall i :: 0 <= i < |parts| ==> sep !in parts[i]
    decreases |s|
  {
    if s == [] then [""]
    else
      var rest := SplitAll(s[1..], sep);
      if s[0] == sep then [""] + rest else [[s[0]] + rest[0]] + rest[1..]
  }

  /** The prefix of `parts` left after removing trailing empty strings. */
  function DropTrailingEmpty(parts: seq<string>): (r: seq<string>)
    ensures |r| <= |parts| && r == parts[..|r|]
    ensures r != [] ==> r[|r| - 1] != ""
    ensures forall i :: |r| <= i < |parts| ==> parts[i] == ""
  {
    if parts == [] then []
    else if parts[|parts| - 1] == "" then DropTrailingEmpty(parts[..|parts| - 1])
    else parts
  }

  /** `s.split(sep)`: the pieces between separators with trailing empty
      pieces removed, or `[s]` itself when the separator does not occur. */
  function Split(s: string, sep: char): (parts: seq<string>)
    ensures sep !in s ==> parts == [s]
    ensures forall i :: 0 <= i < |parts| ==> sep !in parts[i]
  {
    if sep !in s then [s] else DropTrailingEmpty(SplitAll(s, sep))
  }

  /** `String.join(sep, parts)` */
  function Join(parts: seq<string>, sep: string): string {
    if parts == [] then ""
    else if |parts| == 1 then parts[0]
    else Join(parts[..|parts| - 1], sep) + sep + parts[|parts| - 1]
  }

  lemma JoinAppend(parts: seq<string>, x: string, sep: string)
    requires parts != []
    ensures Join(parts + [x], sep) == Join(parts, sep) + sep + x
  {
    assert (parts + [x])[..|parts|] == parts;
  }

  lemma {:induction false} JoinCons(x: string, parts: seq<string>, sep: string)
    requires parts != []
    ensures Join([x] + parts, sep) == x + sep + Join(parts, sep)
    decreases |parts|
  {
    if |parts| == 1 {
      assert [x] + parts == [x, parts[0]];
    } else {
      var init := parts[..|parts| - 1];
      var last := parts[|parts| - 1];
      assert [x] + parts == ([x] + init) + [last];
      JoinAppend([x] + init, last, sep);
      JoinCons(x, init, sep);
      JoinAppend(init, last, sep);
      assert init + [last] == parts;
    }
  }

  /** Splitting at every separator is undone by joining with it. */
  lemma {:induction false} JoinSplitAll(s: string, sep: char)
    ensures Join(SplitAll(s, sep), [sep]) == s
    decreases |s|
  {
    if s != [] {
      var rest := SplitAll(s[1..], sep);
      JoinSplitAll(s[1..], sep);
      assert [s[0]] + s[1..] == s;
      if s[0] == sep {
        JoinCons("", rest, [sep]);
      } else {
        JoinHead(s[0], rest, [sep]);
      }
    }
  }

  /** A character put in front of the first part goes in front of the
      joined text. */
  lemma JoinHead(c: char, parts: seq<string>, sep: string)
    requires parts != []
    ensures Join([[c] + parts[0]] + parts[1..], sep) == [c] + Join(parts, sep)
  {
    if |parts| > 1 {
      JoinCons([c] + parts[0], parts[1..], sep);
      JoinCons(parts[0], parts[1..], sep);
      assert [parts[0]] + parts[1..] == parts;
    }
  }

  lemma {:induction false} SplitAllNoSep(s: string, sep: char)
    requires sep !in s
    ensures SplitAll(s, sep) == [s]
    decreases |s|
  {
    if s != [] {
      assert sep !in s[1..] by {
        forall i | 0 <= i < |s[1..]| ensures s[1..][i] != sep { assert s[1..][i] == s[i + 1]; }
      }
      SplitAllNoSep(s[1..], sep);
      assert [s[0]] + s[1..] == s;
    }
  }

  lemma {:induction false} SplitAllPrefix(a: string, sep: char, t: string)
    requires sep !in a
    ensures SplitAll(a + [sep] + t, sep) == [a] + SplitAll(t, sep)
    decreases |a|
  {
    if a == [] {
      assert a + [sep] + t == [sep] + t;
      assert ([sep] + t)[1..] == t;
    } else {
      var s := a + [sep] + t;
      assert s[0] == a[0];
      assert s[1..] == a[1..] + [sep] + t;
      assert sep !in a[1..] by {
        forall i | 0 <= i < |a[1..]| ensures a[1..][i] != sep { assert a[1..][i] == a[i + 1]; }
      }
      SplitAllPrefix(a[1..], sep, t);
      assert [a[0]] + a[1..] == a;
    }
  }

  /** A separator between two texts separates their parts. */
  lemma {:induction false} SplitAllConcat(a: string, sep: char, t: string)
    ensures SplitAll(a + [sep] + t, sep) == SplitAll(a, sep) + SplitAll(t, sep)
    decreases |a|
  {
    if a == [] {
      assert a + [sep] + t == [sep] + t;
      SplitAllCons(sep, t, sep);
    } else {
      var x := a[1..] + [sep] + t;
      assert a + [sep] + t == [a[0]] + x;
      assert a == [a[0]] + a[1..];
      SplitAllConcat(a[1..], sep, t);
      SplitAllCons(a[0], x, sep);
      SplitAllCons(a[0], a[1..], sep);
      FirstPartJoins(a[0], SplitAll(a[1..], sep), SplitAll(t, sep));
    }
  }

  /** `SplitAll` of a text with one more character in front. */
  lemma SplitAllCons(c: char, x: string, sep: char)
    ensures SplitAll([c] + x, sep)
         == (var r := SplitAll(x, sep); if c == sep then [""] + r else [[c] + r[0]] + r[1..])
  {
    assert ([c] + x)[1..] == x;
  }

  lemma FirstPartJoins(c: char, ra: seq<string>, rt: seq<string>)
    requires ra != []
    ensures [[c] + (ra + rt)[0]] + (ra + rt)[1..] == [[c] + ra[0]] + ra[1..] + rt
  {
    assert (ra + rt)[1..] == ra[1..] + rt;
  }

  /** Splitting lines joined by a separator gives the lines back, provided no
      line contains the separator and the last line is not empty. */
  lemma {:induction false} SplitAllJoin(lines: seq<string>, sep: char)
    requires lines != []
    requires forall i :: 0 <= i < |lines| ==> sep !in lines[i]
    ensures SplitAll(Join(lines, [sep]), sep) == lines
    decreases |lines|
  {
    if |lines| == 1 {
      SplitAllNoSep(lines[0], sep);
    } else {
      JoinCons(lines[0], lines[1..], [sep]);
      assert [lines[0]] + lines[1..] == lines;
      SplitAllPrefix(lines[0], sep, Join(lines[1..], [sep]));
      SplitAllJoin(lines[1..], sep);
    }
  }

  lemma SplitJoin(lines: seq<string>, sep: char)
    requires lines != [] && lines[|lines| - 1] != ""
    requires forall i :: 0 <= i < |lines| ==> sep !in lines[i]
    ensures Split(Join(lines, [sep]), sep) == lines
  {
    SplitAllJoin(lines, sep);
    if |lines| == 1 {
      SplitAllNoSep(lines[0], sep);
    }
  }

  // ---------------------------------------------------------------------
  // String.indexOf and String.replaceFirst with a literal pattern

  predicate OccursAt(s: string, pat: string, j: int) {
    0 <= j && j + |pat| <= |s| && s[j..j + |pat|] == pat
  }

  function IndexOfFrom(s: string, pat: string, from: nat): (r: Option<nat>)
    ensures r.Some? ==> from <= r.value && OccursAt(s, pat, r.value)
    ensures r.Some? ==> forall j :: from <= j < r.value ==> !OccursAt(s, pat, j)
    ensures r.None? ==> forall j :: from <= j ==> !OccursAt(s, pat, j)
    decreases |s| - from
  {
    if from + |pat| > |s| then None
    else if s[from..from + |pat|] == pat then Some(from)
    else IndexOfFrom(s, pat, from + 1)
  }

  /** `s.indexOf(pat)`: the first position where `pat` occurs. */
  function IndexOf(s: string, pat: string): (r: Option<nat>)
    ensures r.Some? ==> OccursAt(s, pat, r.value)
    ensures r.Some? ==> forall j :: 0 <= j < r.value ==> !OccursAt(s, pat, j)
    ensures r.None? ==> forall j :: !OccursAt(s, pat, j)
  {
    IndexOfFrom(s, pat, 0)
  }

  /** Characters that make a Java regular expression more than a literal. */
  predicate RegexLiteral(pat: string) {
    forall i :: 0 <= i < |pat| ==> pat[i] !in "\\^$.|?*+()[]{}"
  }

  /** Characters that `replaceFirst` treats specially in the replacement. */
  predicate ReplacementLiteral(rep: string) {
    '\\' !in rep && '$' !in rep
  }

  /** `s.replaceFirst(pat, rep)` where neither argument uses regular
      expression syntax: the first occurrence of `pat` is replaced. */
  function ReplaceFirst(s: string, pat: string, rep: string): (r: string)
    requires RegexLiteral(pat) && ReplacementLiteral(rep)
    ensures (forall j :: !OccursAt(s, pat, j)) ==> r == s
    ensures forall i :: OccursAt(s, pat, i) && (forall j :: 0 <= j < i ==> !OccursAt(s, pat, j)) ==>
      r == s[..i] + rep + s[i + |pat|..]
  {
    match IndexOf(s, pat)
    case None => s
    case Some(i) => s[..i] + rep + s[i + |pat|..]
  }

  // ---------------------------------------------------------------------
  // String.toLowerCase (ASCII letters)

  function ToLowerChar(c: char): char {
    if 'A' <= c <= 'Z' then (c as int + 32) as char else c
  }

  function ToLower(s: string): (r: string)
    ensures |r| == |s|
    ensures forall i :: 0 <= i < |s| ==> r[i] == ToLowerChar(s[i])
  {
    if s == [] then "" else [ToLowerChar(s[0])] + ToLower(s[1..])
  }

  lemma ToLowerIdempotent(s: string)
    ensures ToLower(ToLower(s)) == ToLower(s)
  {
  }

  // ---------------------------------------------------------------------
  // Java `int` arithmetic

  const TwoTo32: int := 0x1_0000_0000
  const TwoTo31: int := 0x8000_0000

  type Int32 = x: int | -TwoTo31 <= x < TwoTo31

  /** The 32-bit two's complement value of `x`, as Java's `int` arithmetic
      keeps it. */
  function Wrap32(x: int): (r: Int32)
    ensures (x - r) % TwoTo32 == 0
  {
    var m := x % TwoTo32;
    if m >= TwoTo31 then m - TwoTo32 else m
  }

  /** `a % b` for a positive `b` in Java, which truncates toward zero and so
      keeps the sign of `a`. */
  function JavaRem(a: int, b: int): (r: int)
    requires b > 0
    ensures a >= 0 ==> r == a % b
    ensures a < 0 ==> -b < r <= 0 && r == -((-a) % b)
  {
    if a >= 0 then a % b else -((-a) % b)
  }
}
