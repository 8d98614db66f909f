/** Where a two-character day pattern such as `" 7"` or `"24"` (what
    `String.format("%2d", day)` produces) can occur in a text: the facts
    that decide which cell `replaceFirst` rewrites. */
module Occurrences {
  import opened JavaText
  import opened MonthGrid

  /** `pat` occurs nowhere in `s`. */
  ghost predicate Avoids(s: string, pat: string) {
    forall j :: !OccursAt(s, pat, j)
  }

  /** The shape of a `"%2d"` day: a space or a digit, then a digit. */
  predicate DayPattern(pat: string) {
    |pat| == 2 && IsDigit(pat[1]) && (pat[0] == ' ' || IsDigit(pat[0]))
  }

  predicate NoDigits(s: string) {
    forall i :: 0 <= i < |s| ==> !IsDigit(s[i])
  }

  /** A piece of text that can take no part in an occurrence of `pat`: it
      holds none itself, it does not end in a digit and, when the pattern
      starts with a space, it does not start with a digit either. */
  ghost predicate Inert(t: string, pat: string) {
    |t| > 0 && Avoids(t, pat) && !IsDigit(t[|t| - 1]) && (pat != [] && pat[0] == ' ' ==> !IsDigit(t[0]))
  }

  lemma NoDigitsAvoid(s: string, pat: string)
    requires NoDigits(s) && DayPattern(pat)
    ensures Avoids(s, pat)
  {
    forall j ensures !OccursAt(s, pat, j) {
      if 0 <= j && j + 2 <= |s| {
        assert s[j..j + 2][1] == s[j + 1];
      }
    }
  }

  /** A text of at most two characters holds the pattern only by being it. */
  lemma ShortAvoids(x: string, pat: string)
    requires |x| <= 2 && x != pat && |pat| == 2
    ensures Avoids(x, pat)
  {
    forall j ensures !OccursAt(x, pat, j) {
      if 0 <= j && j + 2 <= |x| {
        assert x[j..j + 2] == x;
      }
    }
  }

  /** Two texts without the pattern hold it together only across the seam. */
  lemma AvoidsJoin(a: string, b: string, pat: string)
    requires |pat| == 2 && Avoids(a, pat) && Avoids(b, pat)
    requires a == [] || b == [] || a[|a| - 1] != pat[0] || b[0] != pat[1]
    ensures Avoids(a + b, pat)
  {
    var s := a + b;
    forall j ensures !OccursAt(s, pat, j) {
      if 0 <= j && j + 2 <= |s| {
        if j + 2 <= |a| {
          assert s[j..j + 2] == a[j..j + 2];
          assert !OccursAt(a, pat, j);
        } else if j >= |a| {
          assert s[j..j + 2] == b[j - |a|..j - |a| + 2];
          assert !OccursAt(b, pat, j - |a|);
        } else {
          assert s[j..j + 2] == [a[|a| - 1], b[0]];
        }
      }
    }
  }

  /** A two-character text other than the pattern, then text without digits. */
  lemma PairThenNoDigits(x: string, y: string, pat: string)
    requires |x| == 2 && x != pat && NoDigits(y) && DayPattern(pat)
    ensures Avoids(x + y, pat)
  {
    var s := x + y;
    forall j ensures !OccursAt(s, pat, j) {
      if 0 <= j && j + 2 <= |s| {
        if j == 0 {
          assert s[0..2] == x;
        } else {
          assert s[j..j + 2][1] == y[j - 1];
        }
      }
    }
  }

  /** At most two characters fenced by text without digits, where the text
      before does not end in a space, hold the pattern only by being it. */
  lemma FencedDigits(a: string, x: string, b: string, pat: string)
    requires DayPattern(pat) && NoDigits(a) && NoDigits(b) && |x| <= 2 && x != pat
    requires a == [] || a[|a| - 1] != ' '
    ensures Avoids(a + x + b, pat)
  {
    var s := a + x + b;
    forall j ensures !OccursAt(s, pat, j) {
      if 0 <= j && j + 2 <= |s| {
        if j + 1 < |a| {
          assert s[j..j + 2][1] == a[j + 1];
        } else if j + 1 >= |a| + |x| {
          assert s[j..j + 2][1] == b[j + 1 - |a| - |x|];
        } else if j < |a| {
          assert s[j..j + 2][0] == a[|a| - 1];
        } else {
          assert j == |a| && |x| == 2;
          assert s[j..j + 2] == x;
        }
      }
    }
  }

  /** A two-character text other than the pattern, a space and perhaps a
      newline: the piece of a plain day. */
  lemma PlainPieceInert(x: string, pat: string, nl: string)
    requires |x| == 2 && x != pat && DayPattern(pat) && (nl == "" || nl == "\n")
    requires pat[0] == ' ' ==> !IsDigit(x[0])
    ensures Inert(x + " " + nl, pat)
  {
    PairThenNoDigits(x, " " + nl, pat);
    assert x + " " + nl == x + (" " + nl);
  }

  /** After text that holds no occurrence and does not end in a digit, the
      pattern itself is the first occurrence. */
  lemma FirstOccurrence(b: string, pat: string, a: string)
    requires DayPattern(pat) && Avoids(b, pat)
    requires b == [] || !IsDigit(b[|b| - 1])
    ensures IndexOf(b + pat + a, pat) == Some(|b|)
  {
    var s := b + pat + a;
    assert s[|b|..|b| + 2] == pat;
    assert OccursAt(s, pat, |b|);
    forall j | 0 <= j < |b| ensures !OccursAt(s, pat, j) {
      if j + 2 <= |b| {
        assert s[j..j + 2] == b[j..j + 2];
        assert !OccursAt(b, pat, j);
      } else {
        assert s[j..j + 2] == [b[|b| - 1], pat[0]];
      }
    }
  }

  /** Inert pieces written one after the other hold no occurrence and do
      not end in a digit. */
  lemma {:induction false} ConcatAvoids(ts: seq<string>, pat: string)
    requires DayPattern(pat)
    requires forall i :: 0 <= i < |ts| ==> Inert(ts[i], pat)
    ensures Avoids(Concat(ts), pat)
    ensures Concat(ts) == [] || !IsDigit(Concat(ts)[|Concat(ts)| - 1])
    decreases |ts|
  {
    if ts != [] {
      var init := ts[..|ts| - 1];
      assert forall i :: 0 <= i < |init| ==> init[i] == ts[i];
      ConcatAvoids(init, pat);
      var a, t := Concat(init), ts[|ts| - 1];
      assert Inert(t, pat);
      AvoidsJoin(a, t, pat);
      assert Concat(ts) == a + t;
      assert Concat(ts)[|Concat(ts)| - 1] == t[|t| - 1];
    }
  }

  /** Concatenation distributes over appending lists of texts. */
  lemma {:induction false} ConcatAppend(xs: seq<string>, ys: seq<string>)
    ensures Concat(xs + ys) == Concat(xs) + Concat(ys)
    decreases |ys|
  {
    if ys == [] {
      assert xs + ys == xs;
    } else {
      var init := ys[..|ys| - 1];
      ConcatAppend(xs, init);
      assert (xs + ys)[..|xs + ys| - 1] == xs + init;
    }
  }

  /** A list of texts split around its element `j`. */
  lemma {:induction false} ConcatSplit(ts: seq<string>, j: nat)
    requires j < |ts|
    ensures Concat(ts) == Concat(ts[..j]) + ts[j] + Concat(ts[j + 1..])
  {
    assert ts == ts[..j + 1] + ts[j + 1..];
    ConcatAppend(ts[..j + 1], ts[j + 1..]);
    assert ts[..j + 1][..j] == ts[..j];
  }

  /** After text that holds no occurrence and does not end in a digit,
      `replaceFirst` rewrites the pattern that follows it. */
  lemma ReplaceAfter(b: string, pat: string, a: string, rep: string)
    requires DayPattern(pat) && RegexLiteral(pat) && ReplacementLiteral(rep)
    requires Avoids(b, pat) && (b == [] || !IsDigit(b[|b| - 1]))
    ensures ReplaceFirst(b + pat + a, pat, rep) == b + rep + a
  {
    var s := b + pat + a;
    FirstOccurrence(b, pat, a);
    assert s[..|b|] == b && s[|b| + 2..] == a;
  }

  /** In pieces whose first `j` are inert, `replaceFirst` rewrites the
      pattern at the head of piece `j`. */
  lemma ReplaceAtPiece(ts: seq<string>, j: nat, pat: string, tail: string, rep: string)
    requires j < |ts| && DayPattern(pat) && RegexLiteral(pat) && ReplacementLiteral(rep)
    requires forall i :: 0 <= i < j ==> Inert(ts[i], pat)
    requires ts[j] == pat + tail
    ensures ReplaceFirst(Concat(ts), pat, rep) == Concat(ts[j := rep + tail])
  {
    PieceAt(ts, j, pat, tail, rep);
    InertPrefix(ts, j, pat);
    ReplaceAfter(Concat(ts[..j]), pat, tail + Concat(ts[j + 1..]), rep);
  }

  /** The pieces around piece `j`, which starts with the pattern, before
      and after it is rewritten. */
  lemma PieceAt(ts: seq<string>, j: nat, pat: string, tail: string, rep: string)
    requires j < |ts| && ts[j] == pat + tail
    ensures Concat(ts) == Concat(ts[..j]) + pat + (tail + Concat(ts[j + 1..]))
    ensures Concat(ts[j := rep + tail]) == Concat(ts[..j]) + rep + (tail + Concat(ts[j + 1..]))
  {
    SplitUpdate(ts, j, rep + tail);
    var b, a := Concat(ts[..j]), Concat(ts[j + 1..]);
    assert b + (pat + tail) + a == b + pat + (tail + a);
    assert b + (rep + tail) + a == b + rep + (tail + a);
  }

  /** A list of texts, and the same list with element `j` replaced, split
      around that element. */
  lemma SplitUpdate(ts: seq<string>, j: nat, x: string)
    requires j < |ts|
    ensures Concat(ts) == Concat(ts[..j]) + ts[j] + Concat(ts[j + 1..])
    ensures Concat(ts[j := x]) == Concat(ts[..j]) + x + Concat(ts[j + 1..])
  {
    var us := ts[j := x];
    ConcatSplit(ts, j);
    ConcatSplit(us, j);
    assert us[..j] == ts[..j] && us[j + 1..] == ts[j + 1..];
  }

  /** The first `j` pieces, all inert, hold no occurrence. */
  lemma InertPrefix(ts: seq<string>, j: nat, pat: string)
    requires j <= |ts| && DayPattern(pat)
    requires forall i :: 0 <= i < j ==> Inert(ts[i], pat)
    ensures Avoids(Concat(ts[..j]), pat)
    ensures Concat(ts[..j]) == [] || !IsDigit(Concat(ts[..j])[|Concat(ts[..j])| - 1])
  {
    assert forall i :: 0 <= i < j ==> ts[..j][i] == ts[i];
    ConcatAvoids(ts[..j], pat);
  }
}
