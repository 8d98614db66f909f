/** The month grid read as one piece per cell: the cell's text and, after
    the seventh cell of every row but the last, the newline. Rewriting one
    day's text rewrites one piece and nothing else. */
module GridTokens {
  import opened JavaText
  import opened MonthGrid
  import opened Occurrences

  /** The newline after cell `j`: only after the seventh cell of a row, and
      not in the last row. */
  function Newline(offset: nat, n: nat, j: nat): string {
    if j % 7 == 6 && j / 7 + 1 < RowCount(offset, n) then "\n" else ""
  }

  function Tokens(offset: nat, texts: seq<string>): (ts: seq<string>)
    ensures |ts| == 7 * RowCount(offset, |texts|)
    ensures forall j :: 0 <= j < |ts| ==> ts[j] == Cell(offset, texts, j) + Newline(offset, |texts|, j)
  {
    seq(7 * RowCount(offset, |texts|), j requires 0 <= j => Cell(offset, texts, j) + Newline(offset, |texts|, j))
  }

  lemma CellOfRow(k: nat, i: nat)
    requires i < 7
    ensures (7 * k + i) % 7 == i && (7 * k + i) / 7 == k
  {
  }

  lemma ConcatOne(x: string)
    ensures Concat([x]) == x
  {
    assert [x][..0] == [];
  }

  /** The pieces of a row that is not the last: its cells, the newline
      after the seventh. */
  lemma RowTokens(offset: nat, texts: seq<string>, k: nat)
    requires k + 1 < RowCount(offset, |texts|)
    ensures Concat(Tokens(offset, texts)[7 * k..7 * k + 7]) == Rows(offset, texts)[k] + "\n"
  {
    var cells := RowCells(offset, texts, k, 6);
    var cell := Cell(offset, texts, 7 * k + 6);
    RowPieces(offset, texts, k);
    ConcatLast(cells, cell);
    RowTextStep(offset, texts, k, 6);
  }

  /** The pieces of a row that is not the last, one by one. */
  lemma RowPieces(offset: nat, texts: seq<string>, k: nat)
    requires k + 1 < RowCount(offset, |texts|)
    ensures Tokens(offset, texts)[7 * k..7 * k + 7]
         == RowCells(offset, texts, k, 6) + [Cell(offset, texts, 7 * k + 6) + "\n"]
  {
    var ts := Tokens(offset, texts)[7 * k..7 * k + 7];
    var cells := RowCells(offset, texts, k, 6);
    var last := Cell(offset, texts, 7 * k + 6) + "\n";
    forall i | 0 <= i < 7 ensures ts[i] == (cells + [last])[i] {
      CellOfRow(k, i);
      assert ts[i] == Cell(offset, texts, 7 * k + i) + Newline(offset, |texts|, 7 * k + i);
    }
  }

  /** Cells, then the last one followed by a newline. */
  lemma ConcatLast(cells: seq<string>, cell: string)
    ensures Concat(cells + [cell + "\n"]) == Concat(cells) + cell + "\n"
  {
    ConcatAppend(cells, [cell + "\n"]);
    ConcatOne(cell + "\n");
  }

  /** The pieces of the last row: its cells. */
  lemma LastRowTokens(offset: nat, texts: seq<string>)
    ensures var k := RowCount(offset, |texts|) - 1;
      Concat(Tokens(offset, texts)[7 * k..]) == Rows(offset, texts)[k]
  {
    var k := RowCount(offset, |texts|) - 1;
    var ts := Tokens(offset, texts)[7 * k..];
    var cells := RowCells(offset, texts, k, 7);
    forall i | 0 <= i < 7 ensures ts[i] == cells[i] {
      CellOfRow(k, i);
    }
    assert ts == cells;
  }

  /** Pieces that make up rows, each followed by its newline, make up the
      lines of those rows. */
  lemma {:induction false} LinesOfPieces(ts: seq<string>, rows: seq<string>, m: nat)
    requires 7 * m <= |ts| && m <= |rows|
    requires forall k :: 0 <= k < m ==> Concat(ts[7 * k..7 * k + 7]) == rows[k] + "\n"
    ensures Concat(ts[..7 * m]) == Lines(rows[..m])
    decreases m
  {
    if m == 0 {
      assert ts[..0] == [];
      assert rows[..0] == [];
    } else {
      var i := 7 * (m - 1);
      assert i + 7 == 7 * m;
      LinesOfPieces(ts, rows, m - 1);
      assert Concat(ts[i..i + 7]) == rows[m - 1] + "\n";
      NextLine(rows, m - 1);
      SplitAt(ts, i, i + 7);
    }
  }

  /** Pieces up to `j` are the pieces up to `i`, then those from `i` to `j`. */
  lemma SplitAt(ts: seq<string>, i: nat, j: nat)
    requires i <= j <= |ts|
    ensures Concat(ts[..j]) == Concat(ts[..i]) + Concat(ts[i..j])
  {
    assert ts[..j] == ts[..i] + ts[i..j];
    ConcatAppend(ts[..i], ts[i..j]);
  }

  /** Lines of all rows but the last, then the last row, are the rows
      joined by newlines. */
  lemma PiecesOfGrid(ts: seq<string>, rows: seq<string>)
    requires |rows| >= 1 && |ts| == 7 * |rows|
    requires Concat(ts[..7 * (|rows| - 1)]) == Lines(rows[..|rows| - 1])
    requires Concat(ts[7 * (|rows| - 1)..]) == rows[|rows| - 1]
    ensures Concat(ts) == Join(rows, "\n")
  {
    var k := |rows| - 1;
    SplitEnd(ts, 7 * k);
    LinesThenLast(rows[..k], rows[k]);
    LastSplit(rows);
  }

  lemma SplitEnd(ts: seq<string>, i: nat)
    requires i <= |ts|
    ensures Concat(ts) == Concat(ts[..i]) + Concat(ts[i..])
  {
    assert ts == ts[..i] + ts[i..];
    ConcatAppend(ts[..i], ts[i..]);
  }

  lemma LastSplit(rows: seq<string>)
    requires |rows| >= 1
    ensures rows[..|rows| - 1] + [rows[|rows| - 1]] == rows
  {
  }

  /** The grid is its pieces written one after the other. */
  lemma GridIsTokens(offset: nat, texts: seq<string>)
    ensures GridOf(offset, texts) == Concat(Tokens(offset, texts))
  {
    var rows := Rows(offset, texts);
    var ts := Tokens(offset, texts);
    var k := |rows| - 1;
    forall r | 0 <= r < k ensures Concat(ts[7 * r..7 * r + 7]) == rows[r] + "\n" {
      RowTokens(offset, texts, r);
    }
    LinesOfPieces(ts, rows, k);
    LastRowTokens(offset, texts);
    PiecesOfGrid(ts, rows);
  }

  /** Changing the text of one day changes only that day's piece. */
  lemma TokensUpdate(offset: nat, texts: seq<string>, k: nat, x: string)
    requires k < |texts|
    ensures Tokens(offset, texts)[offset + k] == texts[k] + " " + Newline(offset, |texts|, offset + k)
    ensures Tokens(offset, texts[k := x])
         == Tokens(offset, texts)[offset + k := x + " " + Newline(offset, |texts|, offset + k)]
  {
    var a := Tokens(offset, texts[k := x]);
    var b := Tokens(offset, texts)[offset + k := x + " " + Newline(offset, |texts|, offset + k)];
    forall j | 0 <= j < |a| ensures a[j] == b[j] {
      if j != offset + k {
        assert Cell(offset, texts[k := x], j) == Cell(offset, texts, j);
      }
    }
  }

  /** When the pieces before the cell of day `k + 1` take no part in an
      occurrence of `pat`, and that day's text is `pat`, `replaceFirst`
      rewrites that day's text and nothing else. */
  lemma ReplaceInGrid(offset: nat, texts: seq<string>, k: nat, pat: string, rep: string)
    requires k < |texts| && texts[k] == pat
    requires DayPattern(pat) && RegexLiteral(pat) && ReplacementLiteral(rep)
    requires forall i :: 0 <= i < offset + k ==> Inert(Tokens(offset, texts)[i], pat)
    ensures ReplaceFirst(GridOf(offset, texts), pat, rep) == GridOf(offset, texts[k := rep])
  {
    var nl := Newline(offset, |texts|, offset + k);
    var ts := Tokens(offset, texts);
    TokensUpdate(offset, texts, k, rep);
    assert ts[offset + k] == pat + (" " + nl);
    assert rep + (" " + nl) == rep + " " + nl;
    ReplaceAtPiece(ts, offset + k, pat, " " + nl, rep);
    GridIsTokens(offset, texts);
    GridIsTokens(offset, texts[k := rep]);
  }
}
