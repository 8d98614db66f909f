/** The two word-wrapping loops of the console view: `formatPrompt`, which
    breaks a prompt into lines of at most thirty letters, and
    `formatAppointmentDescription`, which does the same for a description,
    indents it and cuts it off after fifty-seven letters. Both count the
    letters of the words only, not the blanks written after them. */
module TextWrap {
  import opened JavaText

  const CommentLineLength: nat := 30
  const MaxCommentLength: nat := CommentLineLength * 2 - 3
  /** Blanks in front of every line of a description. */
  const Indent: string := "   "
  const Ellipsis: string := "..."

  /** The letters of the words, blanks between them not counted. */
  function Letters(ws: seq<string>): nat
    decreases |ws|
  {
    if ws == [] then 0 else Letters(ws[..|ws| - 1]) + |ws[|ws| - 1]|
  }

  /** The greedy grouping both loops perform. The first line starts empty;
      each word in turn is placed by `Next`. */
  function Wrap(ws: seq<string>, limit: nat): (lines: seq<seq<string>>)
    ensures |lines| >= 1
    decreases |ws|
  {
    if ws == [] then [[]] else Next(Wrap(ws[..|ws| - 1], limit), ws[|ws| - 1], limit)
  }

  /** One word placed: it joins the last line when that line's letters,
      the word's included, number at most `limit`, and opens a new line
      otherwise. */
  function Next(lines: seq<seq<string>>, w: string, limit: nat): (r: seq<seq<string>>)
    requires lines != []
    ensures |r| >= 1 && (|r| > 1 || r[0] != [])
  {
    var last := lines[|lines| - 1];
    if Letters(last) + |w| <= limit then lines[..|lines| - 1] + [last + [w]] else lines + [[w]]
  }

  /** A line as written: every word followed by a blank. */
  function Words(line: seq<string>): (s: string)
    ensures |s| == Letters(line) + |line|
    decreases |line|
  {
    if line == [] then "" else Words(line[..|line| - 1]) + line[|line| - 1] + " "
  }

  /** Lines written one after the other, `sep` in front of every line but
      the first. */
  function Render(lines: seq<seq<string>>, sep: string): string
    requires lines != []
    decreases |lines|
  {
    if |lines| == 1 then Words(lines[0]) else Render(lines[..|lines| - 1], sep) + sep + Words(lines[|lines| - 1])
  }

  /** The words of the lines, in order. */
  function Flatten(lines: seq<seq<string>>): seq<string>
    decreases |lines|
  {
    if lines == [] then [] else Flatten(lines[..|lines| - 1]) + lines[|lines| - 1]
  }

  /** Every line holds at most `limit` letters, unless it is a single word
      that is longer on its own; every line but the first holds a word. */
  predicate Fits(lines: seq<seq<string>>, limit: nat) {
    && (forall k :: 0 <= k < |lines| ==> Letters(lines[k]) <= limit || |lines[k]| == 1)
    && (forall k :: 1 <= k < |lines| ==> lines[k] != [])
  }

  /** A line break stands only where the next word would not fit: the
      letters of a line and of the first word of the next exceed `limit`. */
  predicate Greedy(lines: seq<seq<string>>, limit: nat) {
    forall k :: 1 <= k < |lines| ==> lines[k] != [] && Letters(lines[k - 1]) + |lines[k][0]| > limit
  }

  // ---------------------------------------------------------------------
  // What the greedy grouping guarantees

  lemma FlattenAppend(lines: seq<seq<string>>, line: seq<string>)
    ensures Flatten(lines + [line]) == Flatten(lines) + line
  {
    assert (lines + [line])[..|lines|] == lines;
  }

  lemma LettersAppend(line: seq<string>, w: string)
    ensures Letters(line + [w]) == Letters(line) + |w|
  {
    assert (line + [w])[..|line|] == line;
  }

  lemma NextKeepsWords(lines: seq<seq<string>>, w: string, limit: nat)
    requires lines != []
    ensures Flatten(Next(lines, w, limit)) == Flatten(lines) + [w]
  {
    var init := lines[..|lines| - 1];
    var last := lines[|lines| - 1];
    assert lines == init + [last];
    FlattenAppend(init, last);
    if Letters(last) + |w| <= limit {
      FlattenAppend(init, last + [w]);
    } else {
      FlattenAppend(lines, [w]);
    }
  }

  /** No word is lost, none is added and the order is kept. */
  lemma {:induction false} WrapKeepsWords(ws: seq<string>, limit: nat)
    ensures Flatten(Wrap(ws, limit)) == ws
    decreases |ws|
  {
    if ws != [] {
      var init, w := ws[..|ws| - 1], ws[|ws| - 1];
      assert Wrap(ws, limit) == Next(Wrap(init, limit), w, limit);
      WrapKeepsWords(init, limit);
      NextKeepsWords(Wrap(init, limit), w, limit);
      assert init + [w] == ws;
    }
  }

  lemma NextFits(lines: seq<seq<string>>, w: string, limit: nat)
    requires lines != [] && Fits(lines, limit)
    ensures Fits(Next(lines, w, limit), limit)
  {
    LettersAppend(lines[|lines| - 1], w);
  }

  /** Every line of the grouping fits. */
  lemma {:induction false} WrapFits(ws: seq<string>, limit: nat)
    ensures Fits(Wrap(ws, limit), limit)
    decreases |ws|
  {
    if ws != [] {
      WrapFits(ws[..|ws| - 1], limit);
      NextFits(Wrap(ws[..|ws| - 1], limit), ws[|ws| - 1], limit);
    }
  }

  lemma NextGreedy(lines: seq<seq<string>>, w: string, limit: nat)
    requires lines != [] && Greedy(lines, limit)
    ensures Greedy(Next(lines, w, limit), limit)
  {
    var n := |lines| - 1;
    var last := lines[n];
    if Letters(last) + |w| <= limit {
      var r := lines[..n] + [last + [w]];
      assert r == Next(lines, w, limit);
      forall k | 1 <= k < |r| ensures r[k] != [] && Letters(r[k - 1]) + |r[k][0]| > limit {
        assert r[k - 1] == lines[k - 1];
        if k < n {
          assert r[k] == lines[k];
        } else {
          assert r[k] == last + [w];
          assert lines[k] != [];
          assert r[k][0] == last[0];
        }
      }
    } else {
      var r := lines + [[w]];
      assert r == Next(lines, w, limit);
      forall k | 1 <= k < |r| ensures r[k] != [] && Letters(r[k - 1]) + |r[k][0]| > limit {
        assert r[k - 1] == lines[k - 1];
        if k < |lines| {
          assert r[k] == lines[k];
        }
      }
    }
  }

  /** Every line break of the grouping is needed. */
  lemma {:induction false} WrapIsGreedy(ws: seq<string>, limit: nat)
    ensures Greedy(Wrap(ws, limit), limit)
    decreases |ws|
  {
    if ws != [] {
      WrapIsGreedy(ws[..|ws| - 1], limit);
      NextGreedy(Wrap(ws[..|ws| - 1], limit), ws[|ws| - 1], limit);
    }
  }

  lemma NextFirstLine(lines: seq<seq<string>>, w: string, limit: nat)
    requires lines != []
    ensures |lines| > 1 || lines[0] != [] ==> (Next(lines, w, limit)[0] == [] <==> lines[0] == [])
    ensures |lines| == 1 && lines[0] == [] ==> (Next(lines, w, limit)[0] == [] <==> |w| > limit)
  {
    if |lines| == 1 && lines[0] == [] {
      LettersAppend([], w);
      assert Letters([]) == 0;
      if |w| <= limit {
        assert Next(lines, w, limit) == [[w]];
      } else {
        assert Next(lines, w, limit) == [[], [w]];
      }
    }
  }

  /** The first line stays empty exactly when there are no words or the
      first word alone is longer than `limit`; the text then starts with a
      line break. */
  lemma {:induction false} WrapFirstLine(ws: seq<string>, limit: nat)
    ensures Wrap(ws, limit)[0] == [] <==> ws == [] || |ws[0]| > limit
    decreases |ws|
  {
    if ws != [] {
      var init := ws[..|ws| - 1];
      WrapFirstLine(init, limit);
      NextFirstLine(Wrap(init, limit), ws[|ws| - 1], limit);
      if |ws| > 1 {
        assert init[0] == ws[0];
        WrapFits(init, limit);
      }
    }
  }

  // ---------------------------------------------------------------------
  // Writing the lines one word at a time

  lemma WrapPrefix(ws: seq<string>, i: nat, limit: nat)
    requires i < |ws|
    ensures Wrap(ws[..i + 1], limit) == Next(Wrap(ws[..i], limit), ws[i], limit)
  {
    assert ws[..i + 1][..i] == ws[..i];
  }

  /** Putting a word at the end of the last line adds the word and a blank. */
  lemma RenderJoin(lines: seq<seq<string>>, w: string, sep: string)
    requires lines != []
    ensures Render(lines[..|lines| - 1] + [lines[|lines| - 1] + [w]], sep) == Render(lines, sep) + w + " "
  {
    var last := lines[|lines| - 1];
    var next := lines[..|lines| - 1] + [last + [w]];
    assert next[..|next| - 1] == lines[..|lines| - 1];
    assert Words(last + [w]) == Words(last) + w + " " by {
      assert (last + [w])[..|last|] == last;
    }
  }

  /** Opening a new line with a word adds the separator, the word and a
      blank. */
  lemma RenderBreak(lines: seq<seq<string>>, w: string, sep: string)
    requires lines != []
    ensures Render(lines + [[w]], sep) == Render(lines, sep) + sep + w + " "
  {
    assert (lines + [[w]])[..|lines|] == lines;
    assert Words([w]) == Words([]) + w + " ";
  }

  /** One word of either loop: the text grows by the word and a blank, after
      the separator when the word opens a new line, and the letters of the
      current line are those of the new last line. */
  lemma WrapStep(lines: seq<seq<string>>, w: string, limit: nat, sep: string, s: string, cur: nat)
    requires lines != [] && s == Render(lines, sep) && cur == Letters(lines[|lines| - 1])
    ensures var r := Next(lines, w, limit);
      && (cur + |w| <= limit ==> s + w + " " == Render(r, sep) && cur + |w| == Letters(r[|r| - 1]))
      && (cur + |w| > limit ==> s + sep + w + " " == Render(r, sep) && |w| == Letters(r[|r| - 1]))
  {
    var last := lines[|lines| - 1];
    if cur + |w| <= limit {
      RenderJoin(lines, w, sep);
      LettersAppend(last, w);
    } else {
      RenderBreak(lines, w, sep);
      LettersAppend([], w);
    }
  }

  // ---------------------------------------------------------------------
  // formatPrompt

  /** `formatPrompt(prompt)`: the words of `prompt.split(" ")`, grouped
      greedily into lines of at most thirty letters, every word followed by
      a blank and every line after the first preceded by a line break. */
  method FormatPrompt(prompt: string) returns (s: string)
    ensures s == Render(Wrap(Split(prompt, ' '), CommentLineLength), "\n")
  {
    var ws := Split(prompt, ' ');
    s := "";
    var cur := 0;
    ghost var lines := Wrap([], CommentLineLength);
    var i := 0;
    while i < |ws|
      invariant i <= |ws| && lines == Wrap(ws[..i], CommentLineLength)
      invariant s == Render(lines, "\n") && cur == Letters(lines[|lines| - 1])
    {
      WrapPrefix(ws, i, CommentLineLength);
      WrapStep(lines, ws[i], CommentLineLength, "\n", s, cur);
      if cur + |ws[i]| <= CommentLineLength {
        cur := cur + |ws[i]|;
        s := s + ws[i] + " ";
      } else {
        cur := |ws[i]|;
        s := s + "\n" + ws[i] + " ";
      }
      lines := Next(lines, ws[i], CommentLineLength);
      i := i + 1;
    }
    assert ws[..i] == ws;
  }

  // ---------------------------------------------------------------------
  // formatAppointmentDescription

  /** Text written behind the indented body is written behind the body. */
  lemma Behind(s: string, indent: string, body: string, sep: string, w: string)
    requires s == indent + body
    ensures s + sep + w + " " == indent + (body + sep + w + " ")
    ensures s + w + " " == indent + (body + w + " ")
  {
  }

  lemma LettersPrefix(ws: seq<string>, i: nat)
    requires i < |ws|
    ensures Letters(ws[..i + 1]) == Letters(ws[..i]) + |ws[i]|
  {
    assert ws[..i + 1][..i] == ws[..i];
  }

  /** The letters of a longer prefix are at least those of a shorter one. */
  lemma {:induction false} LettersMonotone(ws: seq<string>, i: nat, j: nat)
    requires i <= j <= |ws|
    ensures Letters(ws[..i]) <= Letters(ws[..j])
    decreases j - i
  {
    if i < j {
      LettersMonotone(ws, i, j - 1);
      LettersPrefix(ws, j - 1);
    }
  }

  /** How many words the description keeps: words are taken from the front
      until the next one would take the letters past `budget`. */
  function Kept(ws: seq<string>, budget: nat): (k: nat)
    ensures k <= |ws| && Letters(ws[..k]) <= budget
    ensures k < |ws| ==> Letters(ws[..k]) + |ws[k]| > budget
  {
    KeptFrom(ws, budget, 0)
  }

  function KeptFrom(ws: seq<string>, budget: nat, i: nat): (k: nat)
    requires i <= |ws| && Letters(ws[..i]) <= budget
    ensures i <= k <= |ws| && Letters(ws[..k]) <= budget
    ensures k < |ws| ==> Letters(ws[..k]) + |ws[k]| > budget
    decreases |ws| - i
  {
    if i == |ws| then i
    else if Letters(ws[..i]) + |ws[i]| > budget then i
    else
      LettersPrefix(ws, i);
      KeptFrom(ws, budget, i + 1)
  }

  /** The first position where the next word overflows is where the
      description stops, and before it none overflows. */
  lemma KeptIsFirstOverflow(ws: seq<string>, budget: nat, i: nat)
    requires i <= Kept(ws, budget)
    ensures i < Kept(ws, budget) ==> i < |ws| && Letters(ws[..i]) + |ws[i]| <= budget
  {
    var k := Kept(ws, budget);
    if i < k {
      LettersPrefix(ws, i);
      LettersMonotone(ws, i + 1, k);
    }
  }

  /** The description: the kept words, grouped into lines of at most thirty
      letters, each line indented, then `...` when words were left out. */
  function Description(desc: string): string {
    var ws := Split(desc, ' ');
    var k := Kept(ws, MaxCommentLength);
    Indent + Render(Wrap(ws[..k], CommentLineLength), "\n" + Indent) + (if k < |ws| then Ellipsis else "")
  }

  /** A description is cut off, and ends in `...`, exactly when the
      letters of all its words number more than fifty-seven; otherwise it
      ends in a blank. */
  lemma DescriptionEllipsis(desc: string)
    ensures var r := Description(desc);
      |r| >= 3 && (r[|r| - 3..] == Ellipsis <==> Letters(Split(desc, ' ')) > MaxCommentLength)
  {
    var ws := Split(desc, ' ');
    var k := Kept(ws, MaxCommentLength);
    var lines := Wrap(ws[..k], CommentLineLength);
    var body := Render(lines, "\n" + Indent);
    var r := Description(desc);
    assert ws[..|ws|] == ws;
    if k < |ws| {
      LettersPrefix(ws, k);
      LettersMonotone(ws, k + 1, |ws|);
      assert r == (Indent + body) + Ellipsis;
    } else {
      WrapFits(ws[..k], CommentLineLength);
      RenderEnd(lines, "\n" + Indent);
      assert r == Indent + body + "";
      assert r[|r| - 1] == ' ';
    }
  }

  /** Written lines end in a blank, unless nothing is written. */
  lemma RenderEnd(lines: seq<seq<string>>, sep: string)
    requires lines != [] && forall k :: 1 <= k < |lines| ==> lines[k] != []
    ensures var r := Render(lines, sep); r == [] || r[|r| - 1] == ' '
  {
    if |lines| == 1 {
      if lines[0] != [] {
        WordsEnd(lines[0]);
      }
    } else {
      WordsEnd(lines[|lines| - 1]);
    }
  }

  lemma WordsEnd(line: seq<string>)
    requires line != []
    ensures var r := Words(line); r != [] && r[|r| - 1] == ' '
  {
  }

  /** `formatAppointmentDescription(appointment)`: the loop that stops, and
      writes `...`, at the first word that would take the letters past
      fifty-seven. */
  method FormatDescription(desc: string) returns (s: string)
    ensures s == Description(desc)
  {
    var ws := Split(desc, ' ');
    var sep := "\n" + Indent;
    ghost var k := Kept(ws, MaxCommentLength);
    s := Indent;
    ghost var body := "";
    ghost var lines := Wrap([], CommentLineLength);
    var cur := 0;
    var total := 0;
    var i := 0;
    while i < |ws|
      invariant i <= k && total == Letters(ws[..i]) && lines == Wrap(ws[..i], CommentLineLength)
      invariant body == Render(lines, sep) && s == Indent + body && cur == Letters(lines[|lines| - 1])
    {
      KeptIsFirstOverflow(ws, MaxCommentLength, i);
      if total + |ws[i]| > MaxCommentLength {
        s := s + Ellipsis;
        break;
      }
      WrapPrefix(ws, i, CommentLineLength);
      WrapStep(lines, ws[i], CommentLineLength, sep, body, cur);
      LettersPrefix(ws, i);
      if cur + |ws[i]| <= CommentLineLength {
        cur := cur + |ws[i]|;
        Behind(s, Indent, body, "", ws[i]);
        body := body + ws[i] + " ";
        s := s + ws[i] + " ";
      } else {
        cur := |ws[i]|;
        Behind(s, Indent, body, sep, ws[i]);
        body := body + sep + ws[i] + " ";
        s := s + sep + ws[i] + " ";
      }
      lines := Next(lines, ws[i], CommentLineLength);
      total := total + |ws[i]|;
      i := i + 1;
    }
  }
}
