/** The ANSI palette (View/ColorManager.java): a fixed table from colour
    names to Select Graphic Rendition (SGR) control sequences as defined in
    section 8.3.117 of ECMA-48, and `getColoredText`, which wraps a text in
    the colour's sequence and the reset sequence. */
module ColorManager {
  import opened JavaText

  const Esc: char := '\U{1B}'

  const Reset: string := [Esc] + "[0m"
  const Bold: string := [Esc] + "[1m"
  const Italic: string := [Esc] + "[3m"
  const Underline: string := [Esc] + "[4m"
  const Red: string := [Esc] + "[31m"
  const BgRed: string := [Esc] + "[41m"
  const Green: string := [Esc] + "[32m"
  const BgGreen: string := [Esc] + "[42m"
  const Yellow: string := [Esc] + "[33m"
  const BgYellow: string := [Esc] + "[43m"
  const Blue: string := [Esc] + "[34m"
  const BgBlue: string := [Esc] + "[44m"
  const Purple: string := [Esc] + "[35m"
  const BgPurple: string := [Esc] + "[45m"
  const Cyan: string := [Esc] + "[36m"
  const BgCyan: string := [Esc] + "[46m"
  const White: string := [Esc] + "[37m"
  const BgWhite: string := [Esc] + "[47m"

  /** The seventeen names the table recognises (in lower case). */
  const Names: seq<string> := ["red", "bg_red", "green", "bg_green", "yellow", "bg_yellow", "blue", "bg_blue",
                               "purple", "bg_purple", "cyan", "bg_cyan", "bold", "italic", "underline",
                               "white", "bg_white"]

  /** The switch of `getColoredText`: the name is lower-cased first, and any
      name outside the table selects the reset sequence. */
  function ColorCode(color: string): (code: string)
  {
    Code(ToLower(color))
  }

  /** The table itself, on a lower-case name. */
  function Code(name: string): string {
    match name
    case "red" => Red
    case "bg_red" => BgRed
    case "green" => Green
    case "bg_green" => BgGreen
    case "yellow" => Yellow
    case "bg_yellow" => BgYellow
    case "blue" => Blue
    case "bg_blue" => BgBlue
    case "purple" => Purple
    case "bg_purple" => BgPurple
    case "cyan" => Cyan
    case "bg_cyan" => BgCyan
    case "bold" => Bold
    case "italic" => Italic
    case "underline" => Underline
    case "white" => White
    case "bg_white" => BgWhite
    case _ => Reset
  }

  // ---------------------------------------------------------------------
  // The reference: ECMA-48 Select Graphic Rendition

  /** `CSI p m`: the control sequence introducer `ESC [`, the parameter in
      decimal and the final byte `m` (section 8.3.117 of ECMA-48). */
  function Sgr(p: nat): string {
    [Esc, '['] + NatToString(p) + "m"
  }

  /** ECMA-48 colour numbers: 1 red, 2 green, 3 yellow, 4 blue, 5 magenta
      (called purple here), 6 cyan, 7 white. */
  function ColourNumber(name: string): Option<nat> {
    match name
    case "red" => Some(1)
    case "green" => Some(2)
    case "yellow" => Some(3)
    case "blue" => Some(4)
    case "purple" => Some(5)
    case "cyan" => Some(6)
    case "white" => Some(7)
    case _ => None
  }

  /** Parameter 30 + k selects foreground colour k and 40 + k background
      colour k; 1 is bold, 3 italic, 4 underline and 0 resets everything. */
  function SgrParameter(name: string): nat {
    if ColourNumber(name).Some? then 30 + ColourNumber(name).value
    else if |name| > 3 && name[..3] == "bg_" && ColourNumber(name[3..]).Some? then 40 + ColourNumber(name[3..]).value
    else if name == "bold" then 1
    else if name == "italic" then 3
    else if name == "underline" then 4
    else 0
  }

  /** The characters of the sequence for a one- or two-digit parameter. */
  lemma SgrShape(p: nat)
    ensures p < 10 ==> Sgr(p) == [Esc, '[', DigitChar(p), 'm']
    ensures 10 <= p < 100 ==> Sgr(p) == [Esc, '[', DigitChar(p / 10), DigitChar(p % 10), 'm']
  {
    if 10 <= p < 100 {
      assert NatToString(p) == NatToString(p / 10) + [DigitChar(p % 10)];
      assert NatToString(p / 10) == [DigitChar(p / 10)];
    }
  }

  /** Every colour number has its background name in the table. */
  lemma BackgroundNames(c: string)
    ensures "bg_" + c !in Names ==> ColourNumber(c).None?
  {
    if c == "red" { assert "bg_" + c == Names[1]; }
    else if c == "green" { assert "bg_" + c == Names[3]; }
    else if c == "yellow" { assert "bg_" + c == Names[5]; }
    else if c == "blue" { assert "bg_" + c == Names[7]; }
    else if c == "purple" { assert "bg_" + c == Names[9]; }
    else if c == "cyan" { assert "bg_" + c == Names[11]; }
    else if c == "white" { assert "bg_" + c == Names[16]; }
  }

  /** A name outside the table selects reset, which has parameter 0. */
  lemma UnknownName(n: string)
    requires n !in Names
    ensures Code(n) == Reset && SgrParameter(n) == 0
  {
    if |n| > 3 && n[..3] == "bg_" {
      assert n == "bg_" + n[3..];
      BackgroundNames(n[3..]);
    }
    assert Reset == Sgr(0);
  }

  /** The SGR parameter of each entry of `Names`, in the same order. */
  const Parameters: seq<nat> := [31, 41, 32, 42, 33, 43, 34, 44, 35, 45, 36, 46, 1, 3, 4, 37, 47]

  /** Text without upper-case letters is its own lower case. */
  lemma LowerCaseFixed(s: string)
    requires forall k :: 0 <= k < |s| ==> !('A' <= s[k] <= 'Z')
    ensures ToLower(s) == s
  {
  }

  lemma NameIsLowerCase(i: nat)
    requires i < |Names|
    ensures ToLower(Names[i]) == Names[i]
  {
    LowerCaseFixed(Names[i]);
  }

  lemma ParameterOfName(i: nat)
    requires i < |Names|
    ensures SgrParameter(Names[i]) == Parameters[i]
  {
    if i < 12 {
      if i % 2 == 1 {
        BackgroundParameter(i);
      } else {
        ForegroundParameter(i);
      }
    } else {
      AttributeParameter(i);
    }
  }

  lemma ForegroundParameter(i: nat)
    requires i < 12 && i % 2 == 0
    ensures SgrParameter(Names[i]) == Parameters[i]
  {
  }

  lemma BackgroundParameter(i: nat)
    requires i < 12 && i % 2 == 1
    ensures SgrParameter(Names[i]) == Parameters[i]
  {
    var n := Names[i];
    assert n[..3] == "bg_" && n[3..] == Names[i - 1];
    assert ColourNumber(n).None?;
  }

  lemma AttributeParameter(i: nat)
    requires 12 <= i < |Names|
    ensures SgrParameter(Names[i]) == Parameters[i]
  {
    var n := Names[i];
    if i == 16 {
      assert n[..3] == "bg_" && n[3..] == "white";
    } else {
      assert n[..3][1] == n[1] != 'g';
    }
  }

  lemma CodeOfName(i: nat)
    requires i < |Names|
    ensures Code(Names[i]) == Sgr(Parameters[i])
  {
    SgrShape(Parameters[i]);
    if i < 3 {
      CodesFrom0(i);
    } else if i < 6 {
      CodesFrom3(i);
    } else if i < 9 {
      CodesFrom6(i);
    } else if i < 12 {
      CodesFrom9(i);
    } else if i < 15 {
      CodesFrom12(i);
    } else {
      CodesFrom15(i);
    }
  }

  lemma CodesFrom0(i: nat)
    requires 0 <= i < 3
    requires 10 <= Parameters[i] < 100 ==>
      Sgr(Parameters[i]) == [Esc, '[', DigitChar(Parameters[i] / 10), DigitChar(Parameters[i] % 10), 'm']
    requires Parameters[i] < 10 ==> Sgr(Parameters[i]) == [Esc, '[', DigitChar(Parameters[i]), 'm']
    ensures Code(Names[i]) == Sgr(Parameters[i])
  {
  }

  lemma CodesFrom3(i: nat)
    requires 3 <= i < 6
    requires 10 <= Parameters[i] < 100 ==>
      Sgr(Parameters[i]) == [Esc, '[', DigitChar(Parameters[i] / 10), DigitChar(Parameters[i] % 10), 'm']
    requires Parameters[i] < 10 ==> Sgr(Parameters[i]) == [Esc, '[', DigitChar(Parameters[i]), 'm']
    ensures Code(Names[i]) == Sgr(Parameters[i])
  {
  }

  lemma CodesFrom6(i: nat)
    requires 6 <= i < 9
    requires 10 <= Parameters[i] < 100 ==>
      Sgr(Parameters[i]) == [Esc, '[', DigitChar(Parameters[i] / 10), DigitChar(Parameters[i] % 10), 'm']
    requires Parameters[i] < 10 ==> Sgr(Parameters[i]) == [Esc, '[', DigitChar(Parameters[i]), 'm']
    ensures Code(Names[i]) == Sgr(Parameters[i])
  {
  }

  lemma CodesFrom9(i: nat)
    requires 9 <= i < 12
    requires 10 <= Parameters[i] < 100 ==>
      Sgr(Parameters[i]) == [Esc, '[', DigitChar(Parameters[i] / 10), DigitChar(Parameters[i] % 10), 'm']
    requires Parameters[i] < 10 ==> Sgr(Parameters[i]) == [Esc, '[', DigitChar(Parameters[i]), 'm']
    ensures Code(Names[i]) == Sgr(Parameters[i])
  {
  }

  lemma CodesFrom12(i: nat)
    requires 12 <= i < 15
    requires 10 <= Parameters[i] < 100 ==>
      Sgr(Parameters[i]) == [Esc, '[', DigitChar(Parameters[i] / 10), DigitChar(Parameters[i] % 10), 'm']
    requires Parameters[i] < 10 ==> Sgr(Parameters[i]) == [Esc, '[', DigitChar(Parameters[i]), 'm']
    ensures Code(Names[i]) == Sgr(Parameters[i])
  {
  }

  lemma CodesFrom15(i: nat)
    requires 15 <= i < 17
    requires 10 <= Parameters[i] < 100 ==>
      Sgr(Parameters[i]) == [Esc, '[', DigitChar(Parameters[i] / 10), DigitChar(Parameters[i] % 10), 'm']
    requires Parameters[i] < 10 ==> Sgr(Parameters[i]) == [Esc, '[', DigitChar(Parameters[i]), 'm']
    ensures Code(Names[i]) == Sgr(Parameters[i])
  {
  }

  /** Each entry of the table is the ECMA-48 sequence for its parameter. */
  lemma TableEntry(i: nat)
    requires i < |Names|
    ensures ToLower(Names[i]) == Names[i]
    ensures Code(Names[i]) == Sgr(SgrParameter(Names[i]))
  {
    NameIsLowerCase(i);
    ParameterOfName(i);
    CodeOfName(i);
  }

  /** Every code in the table is the ECMA-48 sequence for the name's
      parameter, unknown names included (parameter 0, reset). */
  lemma CodesFollowEcma48(color: string)
    ensures ColorCode(color) == Sgr(SgrParameter(ToLower(color)))
  {
    var n := ToLower(color);
    if n in Names {
      var i :| 0 <= i < |Names| && Names[i] == n;
      TableEntry(i);
    } else {
      UnknownName(n);
    }
  }

  /** Distinct parameters give distinct sequences. */
  lemma SgrInjective(p: nat, q: nat)
    ensures Sgr(p) == Sgr(q) ==> p == q
  {
    var a, b := Sgr(p), Sgr(q);
    assert NatToString(p) == a[2..|a| - 1];
    assert NatToString(q) == b[2..|b| - 1];
    if a == b {
      NatToStringInjective(p, q);
    }
  }

  lemma ParametersDistinct(i: nat, j: nat)
    requires i < |Names| && j < |Names|
    ensures i != j ==> Parameters[i] != Parameters[j]
    ensures Parameters[i] != 0
  {
  }

  lemma ResetIsSgr0()
    ensures Reset == Sgr(0)
  {
  }

  /** Distinct names in the table select distinct codes, and none of them
      selects the reset code that unknown names fall back to. */
  lemma TableInjective(i: nat, j: nat)
    requires i < |Names| && j < |Names|
    ensures i != j ==> ColorCode(Names[i]) != ColorCode(Names[j])
    ensures ColorCode(Names[i]) != Reset
  {
    TableEntry(i);
    TableEntry(j);
    ParameterOfName(i);
    ParameterOfName(j);
    ParametersDistinct(i, j);
    ResetIsSgr0();
    SgrInjective(Parameters[i], Parameters[j]);
    SgrInjective(Parameters[i], 0);
  }

  /** Parameters are single digits or lie in 31..47, and 31 is red's alone. */
  lemma ParameterRange(name: string)
    ensures SgrParameter(name) < 10 || 31 <= SgrParameter(name) <= 47
    ensures SgrParameter(name) == 31 <==> name == "red"
  {
  }

  /** Colour names, foreground or background, select 5-character codes;
      bold, italic, underline and the reset fallback 4-character ones. */
  predicate IsColourName(name: string) {
    ColourNumber(name).Some? || (|name| > 3 && name[..3] == "bg_" && ColourNumber(name[3..]).Some?)
  }

  lemma CodeLength(color: string)
    ensures |ColorCode(color)| == if IsColourName(ToLower(color)) then 5 else 4
  {
    CodesFollowEcma48(color);
  }

  // ---------------------------------------------------------------------
  // What a terminal shows: text with the SGR sequences taken out

  predicate IsParamChar(c: char) {
    IsDigit(c) || c == ';'
  }

  /** The end of an SGR sequence whose parameters run from index `i` of `s`,
      or 0 when the parameters are not closed by `m`. */
  function SgrEnd(s: string, i: nat): (e: nat)
    ensures e == 0 || i < e <= |s|
    decreases |s| - i
  {
    if i >= |s| then 0
    else if s[i] == 'm' then i + 1
    else if IsParamChar(s[i]) then SgrEnd(s, i + 1)
    else 0
  }

  /** The length of the complete SGR sequence `s` starts with, or 0. */
  function SgrPrefix(s: string): (k: nat)
    ensures k == 0 || 3 <= k <= |s|
  {
    if |s| >= 2 && s[0] == Esc && s[1] == '[' then SgrEnd(s, 2) else 0
  }

  /** The characters of `s` a terminal shows: SGR sequences are zero-width. */
  function Visible(s: string): string
    decreases |s|
  {
    if s == [] then []
    else if SgrPrefix(s) > 0 then Visible(s[SgrPrefix(s)..])
    else [s[0]] + Visible(s[1..])
  }

  /** An SGR sequence is exactly one complete control sequence. */
  predicate IsSgr(code: string) {
    |code| >= 3 && code[0] == Esc && code[1] == '[' && code[|code| - 1] == 'm'
    && forall i :: 2 <= i < |code| - 1 ==> IsParamChar(code[i])
  }

  lemma SgrIsSgr(p: nat)
    ensures IsSgr(Sgr(p))
  {
  }

  lemma {:induction false} SgrEndOfSgr(code: string, t: string, i: nat)
    requires IsSgr(code) && 2 <= i < |code|
    ensures SgrEnd(code + t, i) == |code|
    decreases |code| - i
  {
    if i < |code| - 1 {
      SgrEndOfSgr(code, t, i + 1);
    }
  }

  /** A leading SGR sequence is invisible. */
  lemma VisibleAfterSgr(code: string, t: string)
    requires IsSgr(code)
    ensures Visible(code + t) == Visible(t)
  {
    SgrEndOfSgr(code, t, 2);
    assert (code + t)[|code|..] == t;
  }

  /** Text without escape characters is shown as it is. */
  lemma {:induction false} VisiblePlainPrefix(a: string, b: string)
    requires Esc !in a
    ensures Visible(a + b) == a + Visible(b)
    decreases |a|
  {
    if a == [] {
      assert a + b == b;
    } else {
      assert a[0] in a;
      var s := a + b;
      assert s[0] == a[0] != Esc;
      assert s[1..] == a[1..] + b;
      EscFreeTail(a);
      VisiblePlainPrefix(a[1..], b);
      VisibleKeep(s);
      assert [a[0]] + a[1..] == a;
    }
  }

  lemma EscFreeTail(a: string)
    requires a != [] && Esc !in a
    ensures Esc !in a[1..]
  {
    forall i | 0 <= i < |a[1..]| ensures a[1..][i] != Esc {
      assert a[1..][i] == a[i + 1];
    }
  }

  lemma {:induction false} SgrEndAppend(a: string, b: string, i: nat)
    requires b == [] || b[0] == Esc
    requires i <= |a|
    ensures SgrEnd(a + b, i) == SgrEnd(a, i)
    decreases |a| - i
  {
    if i < |a| {
      SgrEndAppend(a, b, i + 1);
    }
  }

  /** A text that starts with an escape character cannot complete an
      unfinished sequence before it, so the two parts are shown one after
      the other. */
  lemma {:induction false} VisibleAppend(a: string, b: string)
    requires b == [] || b[0] == Esc
    ensures Visible(a + b) == Visible(a) + Visible(b)
    decreases |a|
  {
    if a == [] {
      assert a + b == b;
    } else {
      SgrPrefixAppend(a, b);
      var k := SgrPrefix(a);
      var m := if k > 0 then k else 1;
      assert (a + b)[m..] == a[m..] + b;
      VisibleAppend(a[m..], b);
      if k > 0 {
        VisibleSkip(a + b);
        VisibleSkip(a);
      } else {
        VisibleKeep(a + b);
        VisibleKeep(a);
        assert [a[0]] + (Visible(a[1..]) + Visible(b)) == ([a[0]] + Visible(a[1..])) + Visible(b);
      }
    }
  }

  lemma SgrPrefixAppend(a: string, b: string)
    requires b == [] || b[0] == Esc
    requires a != []
    ensures SgrPrefix(a + b) == SgrPrefix(a)
  {
    if |a| >= 2 {
      SgrEndAppend(a, b, 2);
    }
  }

  /** A leading sequence is shown as nothing. */
  lemma VisibleSkip(s: string)
    requires SgrPrefix(s) > 0
    ensures Visible(s) == Visible(s[SgrPrefix(s)..])
  {
  }

  /** Any other first character is shown as it is. */
  lemma VisibleKeep(s: string)
    requires s != [] && SgrPrefix(s) == 0
    ensures Visible(s) == [s[0]] + Visible(s[1..])
  {
  }

  // ---------------------------------------------------------------------
  // getColoredText

  /** `ColorManager.getColoredText(color, text)`: the colour's code, the
      text, the reset code. A terminal shows exactly `text`; the raw length
      grows by 9 for colour names and by 8 otherwise. */
  function ColoredText(color: string, text: string): (r: string)
    ensures Visible(r) == Visible(text)
    ensures |r| == |text| + if IsColourName(ToLower(color)) then 9 else 8
    ensures r[|r| - 4..] == Reset
  {
    var code := ColorCode(color);
    CodesFollowEcma48(color);
    CodeLength(color);
    SgrIsSgr(SgrParameter(ToLower(color)));
    VisibleAfterSgr(code, text + Reset);
    VisibleAfterSgr(Reset, "");
    assert Reset + "" == Reset;
    VisibleAppend(text, Reset);
    assert (code + text) + Reset == code + (text + Reset);
    code + text + Reset
  }

  lemma NoNewlineInSgr(code: string)
    requires IsSgr(code)
    ensures '\n' !in code
  {
    forall i | 0 <= i < |code| ensures code[i] != '\n' {
      if 2 <= i < |code| - 1 {
        assert IsParamChar(code[i]);
      }
    }
  }

  /** The codes around the text hold no line break: the coloured text
      spans as many lines as the text. */
  lemma ColoredTextLines(color: string, text: string)
    ensures '\n' in ColoredText(color, text) <==> '\n' in text
  {
    var code := ColorCode(color);
    CodesFollowEcma48(color);
    SgrIsSgr(SgrParameter(ToLower(color)));
    NoNewlineInSgr(code);
    ResetIsSgr0();
    SgrIsSgr(0);
    NoNewlineInSgr(Reset);
    assert ColoredText(color, text) == code + text + Reset;
  }

  /** The colour name is looked up case-insensitively. */
  lemma ColoredTextIgnoresCase(c1: string, c2: string, text: string)
    requires ToLower(c1) == ToLower(c2)
    ensures ColoredText(c1, text) == ColoredText(c2, text)
  {
  }

  lemma LowerCaseExamples()
    ensures ToLower("RED") == "red" && ToLower("Red") == "red"
    ensures ColorCode("RED") == ColorCode("Red") == ColorCode("red") == Red
  {
  }
}
