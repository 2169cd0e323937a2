/** Package layout, file grid.go: a Grid lays out rows of children, each row
    with its own number of columns; `Flip` swaps the roles of X and Y. */
module Grid {
  import opened Outcome
  import opened Geom
  import opened Split
  import Box

  /** The fields of `Grid`; a nil split function is `None`. */
  datatype Grid = Grid(
    rows: seq<int>,
    background: Option<Color>,
    gap: int,
    split: Option<(int, int) -> seq<int>>,
    splitRows: Option<(int, int) -> seq<int>>,
    margin: int,
    border: int,
    borderColor: Option<Color>,
    flip: bool)

  /** A nil split function is replaced by `EvenSplit`. */
  function Chosen(f: Option<(int, int) -> seq<int>>): Splitter
  {
    match f
    case None => Even
    case Some(g) => Custom(g)
  }

  /** A splitter that keeps the `SplitFunc` contract. */
  ghost predicate Honours(s: Splitter)
  {
    s.Even? || (s.Custom? && HonoursContract(s.f))
  }

  /** The extent split among the rows (H), the extent split among the
      columns (W), and the origins of both axes, as `Flip` chooses them. */
  datatype Frame = Frame(h: int, w: int, mx: int, my: int)

  function FrameOf(flip: bool, bounds: Rect): Frame
  {
    if flip then Frame(Dx(bounds), Dy(bounds), bounds.min.y, bounds.min.x)
    else Frame(Dy(bounds), Dx(bounds), bounds.min.x, bounds.min.y)
  }

  /** One cell at (X, Y) of size w x h; flipped, X runs along the image's Y. */
  function Cell(flip: bool, x: int, y: int, w: int, h: int): Rect
  {
    if flip then MakeRect(y, x, y + h, x + w) else MakeRect(x, y, x + w, y + h)
  }

  /** The cells of one row: columns start one gap after the margin and are
      one gap apart. */
  function RowCells(flip: bool, mx: int, margin: int, gap: int, y: int, h: int, colsW: seq<int>): (cells: seq<Rect>)
    ensures |cells| == |colsW|
  {
    seq(|colsW|, j requires 0 <= j < |colsW| =>
      Cell(flip, Box.Start(mx + margin, colsW, gap, j), y, colsW[j], h))
  }

  /** The length split among the c columns of a row. */
  function ColumnSpace(g: Grid, w: int, c: int): int
  {
    w - g.gap * (c + 1) - g.margin * 2
  }


  /** The cells of the first n rows, or the panic the code meets on the way:
      a missing row height is an index out of range, and the column split of
      each row may panic. */
  function RowsFrom(g: Grid, f: Frame, rowsH: seq<int>, n: nat): Result<seq<Rect>>
    requires n <= |g.rows|
    decreases n
  {
    if n == 0 then Ok([])
    else
      match RowsFrom(g, f, rowsH, n - 1)
      case Panic(why) => Panic(why)
      case Ok(prev) =>
        if n - 1 >= |rowsH| then Panic(IndexOutOfRange)
        else
          match Split.Apply(Chosen(g.split), g.rows[n - 1], ColumnSpace(g, f.w, g.rows[n - 1]))
          case Panic(why) => Panic(why)
          case Ok(colsW) =>
            Ok(prev + RowCells(g.flip, f.mx, g.margin, g.gap, Box.Start(f.my + g.margin, rowsH, g.gap, n - 1), rowsH[n - 1], colsW))
  }

  /** Once a row panics, the whole layout panics with the same message. */
  lemma {:induction false} PanicPropagates(g: Grid, f: Frame, rowsH: seq<int>, k: nat, n: nat)
    requires k <= n <= |g.rows| && RowsFrom(g, f, rowsH, k).Panic?
    ensures RowsFrom(g, f, rowsH, n) == RowsFrom(g, f, rowsH, k)
    decreases n
  {
    if n > k {
      PanicPropagates(g, f, rowsH, k, n - 1);
    }
  }

  /** One more row: an index out of range, the panic of its split, or its
      cells after the earlier ones. */
  lemma RowStep(g: Grid, f: Frame, rowsH: seq<int>, y: nat, prev: seq<Rect>)
    requires y < |g.rows| && RowsFrom(g, f, rowsH, y) == Ok(prev)
    ensures y >= |rowsH| ==> RowsFrom(g, f, rowsH, y + 1) == Panic(IndexOutOfRange)
    ensures y < |rowsH| ==>
              var cs := Split.Apply(Chosen(g.split), g.rows[y], ColumnSpace(g, f.w, g.rows[y]));
              RowsFrom(g, f, rowsH, y + 1) ==
                if cs.Panic? then Panic(cs.reason)
                else Ok(prev + RowCells(g.flip, f.mx, g.margin, g.gap, Box.Start(f.my + g.margin, rowsH, g.gap, y), rowsH[y], cs.value))
  {
  }

  /** What `Grid.Lay` returns: the row heights are a split of
      H - gap*(len(Rows)+1) - 2*margin; then the rows, in order. */
  function LaySpec(g: Grid, bounds: Rect): Result<seq<Rect>>
  {
    var f := FrameOf(g.flip, bounds);
    match Split.Apply(Chosen(g.splitRows), |g.rows|, ColumnSpace(g, f.h, |g.rows|))
    case Panic(why) => Panic(why)
    case Ok(rowsH) => RowsFrom(g, f, rowsH, |g.rows|)
  }

  /** The inner loop of `Grid.Lay`: one row, X accumulating. */
  method LayRow(flip: bool, mx: int, margin: int, gap: int, Y: int, h: int, colsW: seq<int>) returns (row: seq<Rect>)
    ensures row == RowCells(flip, mx, margin, gap, Y, h, colsW)
  {
    ghost var cells := RowCells(flip, mx, margin, gap, Y, h, colsW);
    row := [];
    var X := gap + mx + margin;
    var j := 0;
    while j < |colsW|
      invariant 0 <= j <= |colsW|
      invariant X == Box.Start(mx + margin, colsW, gap, j)
      invariant row == cells[..j]
    {
      var w := colsW[j];
      var c: Rect;
      if flip {
        c := MakeRect(Y, X, Y + h, X + w);
      } else {
        c := MakeRect(X, Y, X + w, Y + h);
      }
      assert c == cells[j];
      assert cells[..j + 1] == cells[..j] + [c];
      row := row + [c];
      Box.StartStep(mx + margin, colsW, gap, j);
      X := X + gap + w;
      j := j + 1;
    }
    assert cells[..|colsW|] == cells;
  }

  /** `Grid.Lay`: nested loops over rows and columns accumulating Y and X.
      The two log warnings have no effect on the result and are left out. */
  method Lay(g: Grid, bounds: Rect) returns (r: Result<seq<Rect>>)
    ensures r == LaySpec(g, bounds)
  {
    var f := FrameOf(g.flip, bounds);
    var hs := Call(Chosen(g.splitRows), |g.rows|, f.h - (g.gap * (|g.rows| + 1)) - g.margin * 2);
    assert hs == Split.Apply(Chosen(g.splitRows), |g.rows|, ColumnSpace(g, f.h, |g.rows|));
    if hs.Panic? {
      return Panic(hs.reason);
    }
    r := LayRows(g, f, hs.value);
  }

  /** The outer loop of `Grid.Lay`: row after row, Y accumulating. */
  method LayRows(g: Grid, f: Frame, rowsH: seq<int>) returns (r: Result<seq<Rect>>)
    ensures r == RowsFrom(g, f, rowsH, |g.rows|)
  {
    var gap, rows, margin := g.gap, g.rows, g.margin;
    var splitMain := Chosen(g.split);
    var ret: seq<Rect> := [];
    var y := 0;
    var Y := gap + f.my + margin;
    while y < |rows|
      invariant 0 <= y <= |rows| && y <= |rowsH|
      invariant RowsFrom(g, f, rowsH, y) == Ok(ret)
      invariant Y == Box.Start(f.my + margin, rowsH, gap, y)
    {
      RowStep(g, f, rowsH, y, ret);
      if y >= |rowsH| {
        PanicPropagates(g, f, rowsH, y + 1, |rows|);
        return Panic(IndexOutOfRange);
      }
      var h := rowsH[y];
      var cs := Call(splitMain, rows[y], f.w - (gap * (rows[y] + 1)) - margin * 2);
      if cs.Panic? {
        PanicPropagates(g, f, rowsH, y + 1, |rows|);
        return Panic(cs.reason);
      }
      var row := LayRow(g.flip, f.mx, margin, gap, Y, h, cs.value);
      ret := ret + row;
      Box.StartStep(f.my + margin, rowsH, gap, y);
      Y := Y + gap + h;
      y := y + 1;
    }
    return Ok(ret);
  }
}

module GridProperties {
  import opened Outcome
  import opened Geom
  import opened Split
  import Box
  import opened Grid

  /** A splitter that keeps the contract returns one length per element. */
  lemma HonoursLength(s: Splitter, n: int, space: int)
    requires Honours(s) && n >= 0
    ensures Split.Apply(s, n, space).Ok?
    ensures |Split.Apply(s, n, space).value| == n
    ensures n > 0 ==> Sum(Split.Apply(s, n, space).value) == space
  {
    if s.Even? {
      EvenHonoursContract(n, space);
    } else {
      assert s.f(n, space) == s.f(n, space);
    }
  }

  ghost predicate Regular(g: Grid)
  {
    Honours(Chosen(g.split)) && Honours(Chosen(g.splitRows)) &&
    forall y :: 0 <= y < |g.rows| ==> g.rows[y] >= 0
  }

  function RowHeights(g: Grid, bounds: Rect): Result<seq<int>>
  {
    var f := FrameOf(g.flip, bounds);
    Split.Apply(Chosen(g.splitRows), |g.rows|, ColumnSpace(g, f.h, |g.rows|))
  }

  function ColumnWidths(g: Grid, bounds: Rect, y: nat): Result<seq<int>>
    requires y < |g.rows|
  {
    var f := FrameOf(g.flip, bounds);
    Split.Apply(Chosen(g.split), g.rows[y], ColumnSpace(g, f.w, g.rows[y]))
  }

  lemma {:induction false} RowsFromCount(g: Grid, f: Frame, rowsH: seq<int>, n: nat)
    requires Regular(g) && n <= |g.rows| <= |rowsH|
    ensures RowsFrom(g, f, rowsH, n).Ok?
    ensures |RowsFrom(g, f, rowsH, n).value| == Sum(g.rows[..n])
    decreases n
  {
    if n > 0 {
      RowsFromCount(g, f, rowsH, n - 1);
      HonoursLength(Chosen(g.split), g.rows[n - 1], ColumnSpace(g, f.w, g.rows[n - 1]));
      SumPrefixStep(g.rows, n - 1);
    }
  }

  /** When the split functions keep their contract and no row count is
      negative, `Lay` succeeds with one rectangle per column of each row. */
  lemma LayCount(g: Grid, bounds: Rect)
    requires Regular(g)
    ensures LaySpec(g, bounds).Ok?
    ensures |LaySpec(g, bounds).value| == Sum(g.rows)
  {
    var f := FrameOf(g.flip, bounds);
    HonoursLength(Chosen(g.splitRows), |g.rows|, ColumnSpace(g, f.h, |g.rows|));
    RowsFromCount(g, f, RowHeights(g, bounds).value, |g.rows|);
    assert g.rows[..|g.rows|] == g.rows;
  }

  /** One step of `RowsFrom` when nothing panics. */
  lemma RowsFromStep(g: Grid, f: Frame, rowsH: seq<int>, n: nat)
    requires Regular(g) && 0 < n <= |g.rows| <= |rowsH|
    ensures RowsFrom(g, f, rowsH, n - 1).Ok? && RowsFrom(g, f, rowsH, n).Ok?
    ensures var colsW := Split.Apply(Chosen(g.split), g.rows[n - 1], ColumnSpace(g, f.w, g.rows[n - 1])).value;
            RowsFrom(g, f, rowsH, n).value == RowsFrom(g, f, rowsH, n - 1).value +
              RowCells(g.flip, f.mx, g.margin, g.gap, Box.Start(f.my + g.margin, rowsH, g.gap, n - 1), rowsH[n - 1], colsW)
  {
    RowsFromCount(g, f, rowsH, n - 1);
    HonoursLength(Chosen(g.split), g.rows[n - 1], ColumnSpace(g, f.w, g.rows[n - 1]));
  }

  lemma {:induction false} RowsFromCell(g: Grid, f: Frame, rowsH: seq<int>, n: nat, y: nat, j: nat)
    requires Regular(g) && n <= |g.rows| <= |rowsH|
    requires y < n && j < g.rows[y]
    ensures RowsFrom(g, f, rowsH, n).Ok?
    ensures var colsW := Split.Apply(Chosen(g.split), g.rows[y], ColumnSpace(g, f.w, g.rows[y])).value;
            |colsW| == g.rows[y] &&
            0 <= Sum(g.rows[..y]) + j < |RowsFrom(g, f, rowsH, n).value| &&
            RowsFrom(g, f, rowsH, n).value[Sum(g.rows[..y]) + j]
              == Cell(g.flip, Box.Start(f.mx + g.margin, colsW, g.gap, j),
                      Box.Start(f.my + g.margin, rowsH, g.gap, y), colsW[j], rowsH[y])
    decreases n
  {
    RowsFromStep(g, f, rowsH, n);
    RowsFromCount(g, f, rowsH, n - 1);
    HonoursLength(Chosen(g.split), g.rows[y], ColumnSpace(g, f.w, g.rows[y]));
    SumPrefixMonotone(g.rows, 0, y);
    var prev := RowsFrom(g, f, rowsH, n - 1).value;
    var colsW := Split.Apply(Chosen(g.split), g.rows[n - 1], ColumnSpace(g, f.w, g.rows[n - 1])).value;
    var row := RowCells(g.flip, f.mx, g.margin, g.gap, Box.Start(f.my + g.margin, rowsH, g.gap, n - 1), rowsH[n - 1], colsW);
    var all := RowsFrom(g, f, rowsH, n).value;
    assert all == prev + row;
    if y < n - 1 {
      RowsFromCell(g, f, rowsH, n - 1, y, j);
      InPrefix(all, prev, row, Sum(g.rows[..y]) + j);
    } else {
      assert |prev| == Sum(g.rows[..y]);
      InSuffix(all, prev, row, j);
    }
  }

  lemma InPrefix(all: seq<Rect>, prev: seq<Rect>, row: seq<Rect>, i: nat)
    requires all == prev + row && i < |prev|
    ensures i < |all| && all[i] == prev[i]
  {
  }

  lemma InSuffix(all: seq<Rect>, prev: seq<Rect>, row: seq<Rect>, j: nat)
    requires all == prev + row && j < |row|
    ensures |prev| + j < |all| && all[|prev| + j] == row[j]
  {
  }

  lemma {:induction false} SumPrefixMonotone(s: seq<int>, i: nat, k: nat)
    requires i <= k <= |s| && forall t :: 0 <= t < |s| ==> s[t] >= 0
    ensures Sum(s[..i]) <= Sum(s[..k])
    decreases k - i
  {
    if i < k {
      SumPrefixStep(s, i);
      SumPrefixMonotone(s, i + 1, k);
    }
  }

  /** Cell j of row y sits at index Sum(Rows[..y]) + j of the result (rows
      in order, row-major); its X starts one gap after the margin and the
      earlier columns of its row, its Y one gap after the margin and the
      earlier rows, and it is as large as its column width and row height. */
  lemma LayCell(g: Grid, bounds: Rect, y: nat, j: nat)
    requires Regular(g) && y < |g.rows| && j < g.rows[y]
    ensures LaySpec(g, bounds).Ok? && RowHeights(g, bounds).Ok? && ColumnWidths(g, bounds, y).Ok?
    ensures var f := FrameOf(g.flip, bounds);
            var rowsH := RowHeights(g, bounds).value;
            var colsW := ColumnWidths(g, bounds, y).value;
            |rowsH| == |g.rows| && |colsW| == g.rows[y] &&
            0 <= Sum(g.rows[..y]) + j < |LaySpec(g, bounds).value| &&
            LaySpec(g, bounds).value[Sum(g.rows[..y]) + j]
              == Cell(g.flip, Box.Start(f.mx + g.margin, colsW, g.gap, j),
                      Box.Start(f.my + g.margin, rowsH, g.gap, y), colsW[j], rowsH[y])
  {
    var f := FrameOf(g.flip, bounds);
    HonoursLength(Chosen(g.splitRows), |g.rows|, ColumnSpace(g, f.h, |g.rows|));
    HonoursLength(Chosen(g.split), g.rows[y], ColumnSpace(g, f.w, g.rows[y]));
    RowsFromCell(g, f, RowHeights(g, bounds).value, |g.rows|, y, j);
  }

  /** Unflipped, with non-negative sizes: neighbours in a row are exactly
      one gap apart, every cell of row y is rowsH[y] high, and row y+1 starts
      one gap below row y. */
  lemma LayNeighbours(g: Grid, bounds: Rect, y: nat, j: nat)
    requires Regular(g) && !g.flip && y < |g.rows| && j < g.rows[y]
    requires RowHeights(g, bounds).Ok? && ColumnWidths(g, bounds, y).Ok?
    requires forall k :: 0 <= k < |RowHeights(g, bounds).value| ==> RowHeights(g, bounds).value[k] >= 0
    requires forall k :: 0 <= k < |ColumnWidths(g, bounds, y).value| ==> ColumnWidths(g, bounds, y).value[k] >= 0
    ensures LaySpec(g, bounds).Ok?
    ensures var cells := LaySpec(g, bounds).value;
            var i := Sum(g.rows[..y]) + j;
            0 <= i < |cells| && Dy(cells[i]) == RowHeights(g, bounds).value[y]
    ensures var cells := LaySpec(g, bounds).value;
            var i := Sum(g.rows[..y]) + j;
            j + 1 < g.rows[y] ==> i + 1 < |cells| && cells[i + 1].min.x == cells[i].max.x + g.gap
    ensures var cells := LaySpec(g, bounds).value;
            var i := Sum(g.rows[..y]) + j;
            y + 1 < |g.rows| && 0 < g.rows[y + 1] ==>
              0 <= Sum(g.rows[..y + 1]) < |cells| && cells[Sum(g.rows[..y + 1])].min.y == cells[i].max.y + g.gap
  {
    var f := FrameOf(g.flip, bounds);
    var rowsH := RowHeights(g, bounds).value;
    var colsW := ColumnWidths(g, bounds, y).value;
    LayCell(g, bounds, y, j);
    if j + 1 < g.rows[y] {
      LayCell(g, bounds, y, j + 1);
      assert Sum(g.rows[..y]) + (j + 1) == Sum(g.rows[..y]) + j + 1;
      Box.StartStep(f.mx + g.margin, colsW, g.gap, j);
    }
    if y + 1 < |g.rows| && 0 < g.rows[y + 1] {
      LayCell(g, bounds, y + 1, 0);
      Box.StartStep(f.my + g.margin, rowsH, g.gap, y);
    }
  }

  /** `Rows: [1]` with no gap and no margin lays the one child over the whole
      bounds, flipped or not. */
  /** A split that keeps the contract gives one element all the space. */
  lemma HonoursOne(s: Splitter, space: int)
    requires Honours(s)
    ensures Split.Apply(s, 1, space) == Ok([space])
  {
    HonoursLength(s, 1, space);
    var v := Split.Apply(s, 1, space).value;
    assert v == [v[0]];
    assert Sum(v) == v[0] + Sum(v[1..]);
  }

  lemma SingleCell(g: Grid, bounds: Rect)
    requires g.rows == [1] && g.gap == 0 && g.margin == 0
    requires Honours(Chosen(g.split)) && Honours(Chosen(g.splitRows))
    requires WellFormed(bounds)
    ensures LaySpec(g, bounds) == Ok([bounds])
  {
    var f := FrameOf(g.flip, bounds);
    HonoursOne(Chosen(g.splitRows), f.h);
    HonoursOne(Chosen(g.split), f.w);
    assert Box.Start(f.my, [f.h], 0, 0) == f.my by { assert [f.h][..0] == []; }
    assert Box.Start(f.mx, [f.w], 0, 0) == f.mx by { assert [f.w][..0] == []; }
    var row := RowCells(g.flip, f.mx, 0, 0, f.my, f.h, [f.w]);
    assert row[0] == Cell(g.flip, f.mx, f.my, f.w, f.h);
    assert row[0] == bounds;
    assert row == [bounds];
    assert RowsFrom(g, f, [f.h], 0) == Ok([]);
    assert RowsFrom(g, f, [f.h], 1) == Ok([] + row);
    assert ColumnSpace(g, f.h, 1) == f.h && ColumnSpace(g, f.w, 1) == f.w;
    assert LaySpec(g, bounds) == RowsFrom(g, f, [f.h], 1);
    assert [] + row == [bounds];
  }

  function TransposeAll(r: Result<seq<Rect>>): Result<seq<Rect>>
  {
    match r
    case Panic(why) => Panic(why)
    case Ok(cells) => Ok(seq(|cells|, i requires 0 <= i < |cells| => Transpose(cells[i])))
  }

  lemma RowCellsFlip(mx: int, margin: int, gap: int, y: int, h: int, colsW: seq<int>)
    ensures var rt := RowCells(true, mx, margin, gap, y, h, colsW);
            var rf := RowCells(false, mx, margin, gap, y, h, colsW);
            |rt| == |rf| && forall i :: 0 <= i < |rf| ==> rt[i] == Transpose(rf[i])
  {
    var rt := RowCells(true, mx, margin, gap, y, h, colsW);
    var rf := RowCells(false, mx, margin, gap, y, h, colsW);
    forall i | 0 <= i < |rf| ensures rt[i] == Transpose(rf[i]) {
      var x := Box.Start(mx + margin, colsW, gap, i);
      TransposeMakeRect(x, y, x + colsW[i], y + h);
    }
  }

  lemma TransposeAppend(prevF: seq<Rect>, prevT: seq<Rect>, rf: seq<Rect>, rt: seq<Rect>)
    requires TransposeAll(Ok(prevF)) == Ok(prevT)
    requires |rt| == |rf| && forall i :: 0 <= i < |rf| ==> rt[i] == Transpose(rf[i])
    ensures TransposeAll(Ok(prevF + rf)) == Ok(prevT + rt)
  {
    assert TransposeAll(Ok(prevF + rf)).value == prevT + rt;
  }

  lemma {:induction false} RowsFromFlip(g: Grid, f: Frame, rowsH: seq<int>, n: nat)
    requires n <= |g.rows|
    ensures RowsFrom(g.(flip := true), f, rowsH, n) == TransposeAll(RowsFrom(g.(flip := false), f, rowsH, n))
    decreases n
  {
    if n > 0 {
      RowsFromFlip(g, f, rowsH, n - 1);
      var gt, gf := g.(flip := true), g.(flip := false);
      if RowsFrom(gf, f, rowsH, n - 1).Ok? && n - 1 < |rowsH| {
        var colsW := Split.Apply(Chosen(g.split), g.rows[n - 1], ColumnSpace(g, f.w, g.rows[n - 1]));
        if colsW.Ok? {
          var Y := Box.Start(f.my + g.margin, rowsH, g.gap, n - 1);
          var rt := RowCells(true, f.mx, g.margin, g.gap, Y, rowsH[n - 1], colsW.value);
          var rf := RowCells(false, f.mx, g.margin, g.gap, Y, rowsH[n - 1], colsW.value);
          RowCellsFlip(f.mx, g.margin, g.gap, Y, rowsH[n - 1], colsW.value);
          var prevF := RowsFrom(gf, f, rowsH, n - 1).value;
          var prevT := RowsFrom(gt, f, rowsH, n - 1).value;
          assert RowsFrom(gf, f, rowsH, n) == Ok(prevF + rf);
          assert RowsFrom(gt, f, rowsH, n) == Ok(prevT + rt);
          TransposeAppend(prevF, prevT, rf, rt);
        }
      }
    } else {
      assert TransposeAll(Ok([])).value == [];
    }
  }

  /** `Flip` gives the transposed result of the unflipped grid laid out in
      the transposed bounds. */
  lemma FlipTransposes(g: Grid, bounds: Rect)
    ensures LaySpec(g.(flip := true), bounds) == TransposeAll(LaySpec(g.(flip := false), Transpose(bounds)))
  {
    var f := FrameOf(true, bounds);
    assert FrameOf(false, Transpose(bounds)) == f;
    var hs := Split.Apply(Chosen(g.splitRows), |g.rows|, ColumnSpace(g, f.h, |g.rows|));
    if hs.Ok? {
      RowsFromFlip(g, f, hs.value, |g.rows|);
    }
  }
}
