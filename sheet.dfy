/**
 * The raw "Rose" sheet as the spreadsheet reader hands it over: rows of
 * untyped cells, read without a header row.
 */
module Sheet {
  import opened PyText

  /** A cell: missing (pandas NaN), text, or an integer number. */
  datatype Cell = Empty | Str(s: string) | Num(n: int)

  type Row = seq<Cell>

  type Grid = seq<Row>

  /** Column j of a row; the reader pads rows shorter than the frame with missing cells. */
  function At(r: Row, j: nat): Cell {
    if j < |r| then r[j] else Empty
  }

  /** The number of columns of the frame the reader builds: the width of its widest row. */
  function Width(g: Grid): nat {
    if |g| == 0 then 0
    else
      var w := Width(g[..|g| - 1]);
      if |g[|g| - 1]| > w then |g[|g| - 1]| else w
  }

  /** Width(g) is the largest row length: no row is wider, and some row is that wide. */
  lemma {:induction false} WidthSpec(g: Grid)
    ensures forall i :: 0 <= i < |g| ==> |g[i]| <= Width(g)
    ensures |g| > 0 ==> exists i :: 0 <= i < |g| && |g[i]| == Width(g)
  {
    if |g| > 0 {
      var h := g[..|g| - 1];
      WidthSpec(h);
      assert forall i :: 0 <= i < |h| ==> h[i] == g[i];
      if |g[|g| - 1]| <= Width(h) && |h| > 0 {
        var i :| 0 <= i < |h| && |h[i]| == Width(h);
        assert |g[i]| == Width(g);
      }
    }
  }

  /** Python's str() of a cell value; a missing cell prints as "nan". */
  function CellText(c: Cell): string {
    match c
    case Empty => "nan"
    case Str(s) => s
    case Num(n) => IntToString(n)
  }
}
