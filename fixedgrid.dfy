/** Package layout/fixedgrid: a grid of Columns x Rows equally sized cells,
    handed to the children by the names "x;y". */
module FixedGrid {
  import opened Outcome
  import opened Geom
  import opened Decimal

  /** The option functions `Background`, `Gap`, `Columns` and `Rows`. */
  datatype GridOption =
    | Background(c: Color)
    | Gap(g: int)
    | Columns(cols: int)
    | Rows(rows: int)

  datatype Settings = Settings(columns: int, rows: int, background: Color, gap: int)

  /** What `New` sets before applying the options. */
  function Defaults(): Settings
  {
    Settings(1, 1, Black, 0)
  }

  function ApplyOption(s: Settings, o: GridOption): Settings
  {
    match o
    case Background(c) => s.(background := c)
    case Gap(g) => s.(gap := g)
    case Columns(cols) => s.(columns := cols)
    case Rows(rows) => s.(rows := rows)
  }

  /** The options applied one after another, in order. */
  function Configure(s: Settings, opts: seq<GridOption>): Settings
    decreases |opts|
  {
    if opts == [] then s else ApplyOption(Configure(s, opts[..|opts| - 1]), opts[|opts| - 1])
  }

  /** The number of columns is the one of the last `Columns` option, or 1
      when there is none. */
  lemma {:induction false} ConfigureColumns(opts: seq<GridOption>)
    ensures (forall j :: 0 <= j < |opts| ==> !opts[j].Columns?) ==> Configure(Defaults(), opts).columns == 1
    ensures forall i :: 0 <= i < |opts| && opts[i].Columns? && (forall j :: i < j < |opts| ==> !opts[j].Columns?)
                        ==> Configure(Defaults(), opts).columns == opts[i].cols
    decreases |opts|
  {
    if opts != [] {
      var init := opts[..|opts| - 1];
      ConfigureColumns(init);
      assert Configure(Defaults(), opts) == ApplyOption(Configure(Defaults(), init), opts[|opts| - 1]);
      forall i | 0 <= i < |opts| - 1 && opts[i].Columns? && (forall j :: i < j < |opts| ==> !opts[j].Columns?)
        ensures Configure(Defaults(), opts).columns == opts[i].cols
      {
        assert init[i] == opts[i];
        assert forall j :: i < j < |init| ==> init[j] == opts[j];
      }
      assert forall j :: 0 <= j < |init| ==> init[j] == opts[j];
    }
  }

  /** The gap is the one of the last `Gap` option, or 0 when there is none. */
  lemma {:induction false} ConfigureGap(opts: seq<GridOption>)
    ensures (forall j :: 0 <= j < |opts| ==> !opts[j].Gap?) ==> Configure(Defaults(), opts).gap == 0
    ensures forall i :: 0 <= i < |opts| && opts[i].Gap? && (forall j :: i < j < |opts| ==> !opts[j].Gap?)
                        ==> Configure(Defaults(), opts).gap == opts[i].g
    decreases |opts|
  {
    if opts != [] {
      var init := opts[..|opts| - 1];
      ConfigureGap(init);
      assert Configure(Defaults(), opts) == ApplyOption(Configure(Defaults(), init), opts[|opts| - 1]);
      forall i | 0 <= i < |opts| - 1 && opts[i].Gap? && (forall j :: i < j < |opts| ==> !opts[j].Gap?)
        ensures Configure(Defaults(), opts).gap == opts[i].g
      {
        assert init[i] == opts[i];
        assert forall j :: i < j < |init| ==> init[j] == opts[j];
      }
      assert forall j :: 0 <= j < |init| ==> init[j] == opts[j];
    }
  }

  /** The background is the one of the last `Background` option, or black
      when there is none. */
  lemma {:induction false} ConfigureBackground(opts: seq<GridOption>)
    ensures (forall j :: 0 <= j < |opts| ==> !opts[j].Background?) ==> Configure(Defaults(), opts).background == Black
    ensures forall i :: 0 <= i < |opts| && opts[i].Background? && (forall j :: i < j < |opts| ==> !opts[j].Background?)
                        ==> Configure(Defaults(), opts).background == opts[i].c
    decreases |opts|
  {
    if opts != [] {
      var init := opts[..|opts| - 1];
      ConfigureBackground(init);
      assert Configure(Defaults(), opts) == ApplyOption(Configure(Defaults(), init), opts[|opts| - 1]);
      forall i | 0 <= i < |opts| - 1 && opts[i].Background? && (forall j :: i < j < |opts| ==> !opts[j].Background?)
        ensures Configure(Defaults(), opts).background == opts[i].c
      {
        assert init[i] == opts[i];
        assert forall j :: i < j < |init| ==> init[j] == opts[j];
      }
      assert forall j :: 0 <= j < |init| ==> init[j] == opts[j];
    }
  }

  /** The number of rows is the one of the last `Rows` option, or 1 when
      there is none. */
  lemma {:induction false} ConfigureRows(opts: seq<GridOption>)
    ensures (forall j :: 0 <= j < |opts| ==> !opts[j].Rows?) ==> Configure(Defaults(), opts).rows == 1
    ensures forall i :: 0 <= i < |opts| && opts[i].Rows? && (forall j :: i < j < |opts| ==> !opts[j].Rows?)
                        ==> Configure(Defaults(), opts).rows == opts[i].rows
    decreases |opts|
  {
    if opts != [] {
      var init := opts[..|opts| - 1];
      ConfigureRows(init);
      assert Configure(Defaults(), opts) == ApplyOption(Configure(Defaults(), init), opts[|opts| - 1]);
      forall i | 0 <= i < |opts| - 1 && opts[i].Rows? && (forall j :: i < j < |opts| ==> !opts[j].Rows?)
        ensures Configure(Defaults(), opts).rows == opts[i].rows
      {
        assert init[i] == opts[i];
        assert forall j :: i < j < |init| ==> init[j] == opts[j];
      }
      assert forall j :: 0 <= j < |init| ==> init[j] == opts[j];
    }
  }

  /** The key `fmt.Sprintf("%d;%d", x, y)`. */
  function Key(x: int, y: int): string
  {
    IntToString(x) + ";" + IntToString(y)
  }

  /** The position of the first ';' of a string (its length when none). */
  function SemicolonAt(s: string): nat
  {
    if s == [] || s[0] == ';' then 0 else 1 + SemicolonAt(s[1..])
  }

  lemma {:induction false} SemicolonAfter(a: string, rest: string)
    requires ';' !in a
    ensures SemicolonAt(a + ";" + rest) == |a|
    decreases |a|
  {
    if a != [] {
      assert (a + ";" + rest)[1..] == a[1..] + ";" + rest;
      assert a[0] in a;
      SemicolonAfter(a[1..], rest);
    }
  }

  /** Distinct cells get distinct keys. */
  lemma KeyInjective(x1: int, y1: int, x2: int, y2: int)
    requires Key(x1, y1) == Key(x2, y2)
    ensures x1 == x2 && y1 == y2
  {
    var a, b := IntToString(x1), IntToString(x2);
    var k := Key(x1, y1);
    SemicolonAfter(a, IntToString(y1));
    SemicolonAfter(b, IntToString(y2));
    assert a == k[..|a|] && b == Key(x2, y2)[..|b|];
    IntToStringInjective(x1, x2);
    assert IntToString(y1) == k[|a| + 1..] && IntToString(y2) == Key(x2, y2)[|b| + 1..];
    IntToStringInjective(y1, y2);
  }

  /** The extent of one cell along an axis of length `extent` holding `n`
      cells: Go's truncating division. */
  function CellSize(extent: int, n: int, gap: int): int
    requires n != 0
  {
    TruncDiv(extent - (n + 1) * gap, n)
  }

  /** Cell (x, y): one gap from the corner, then x cells and gaps across and
      y cells and gaps down. */
  function CellAt(bounds: Rect, gap: int, w: int, h: int, x: int, y: int): Rect
  {
    var X := gap + bounds.min.x + x * (gap + w);
    var Y := gap + bounds.min.y + y * (gap + h);
    MakeRect(X, Y, X + w, Y + h)
  }

  /** With non-negative cell sizes every cell is exactly w x h, and the next
      cell across (or down) starts one gap after it. */
  lemma CellGeometry(bounds: Rect, gap: int, w: int, h: int, x: int, y: int)
    requires w >= 0 && h >= 0
    ensures var c := CellAt(bounds, gap, w, h, x, y);
            c.min == Point(bounds.min.x + gap + x * (gap + w), bounds.min.y + gap + y * (gap + h)) &&
            Dx(c) == w && Dy(c) == h &&
            CellAt(bounds, gap, w, h, x + 1, y).min.x == c.max.x + gap &&
            CellAt(bounds, gap, w, h, x, y + 1).min.y == c.max.y + gap
  {
    assert (x + 1) * (gap + w) == x * (gap + w) + gap + w;
    assert (y + 1) * (gap + h) == y * (gap + h) + gap + h;
  }

  /** When the gaps fit, the truncated cell width is non-negative and every
      column ends at least one gap before the right edge. */
  lemma ColumnsFit(bounds: Rect, gap: int, cols: int, x: int)
    requires cols > 0 && gap >= 0 && Dx(bounds) >= (cols + 1) * gap && 0 <= x < cols
    ensures var w := CellSize(Dx(bounds), cols, gap);
            w >= 0 && bounds.min.x + gap + x * (gap + w) + w <= bounds.max.x - gap
  {
    var w := CellSize(Dx(bounds), cols, gap);
    CellSizeFits(Dx(bounds), cols, gap);
    var step := gap + w;
    MulLe(x + 1, cols, step);
    assert (x + 1) * step == x * step + step;
    assert cols * step == cols * gap + w * cols;
    assert (cols + 1) * gap == cols * gap + gap;
  }

  /** When the gaps fit, n cells of the truncated size fit in what is left. */
  lemma CellSizeFits(extent: int, n: int, gap: int)
    requires n > 0 && extent >= (n + 1) * gap
    ensures 0 <= CellSize(extent, n, gap) && CellSize(extent, n, gap) * n <= extent - (n + 1) * gap
  {
    var room := extent - (n + 1) * gap;
    assert room >= 0;
    assert CellSize(extent, n, gap) == room / n;
    QuotientFits(room, n);
  }

  lemma QuotientFits(room: int, n: int)
    requires room >= 0 && n > 0
    ensures 0 <= room / n && room / n * n <= room
  {
    assert room == n * (room / n) + room % n;
  }

  lemma MulLe(a: int, b: int, c: int)
    requires 0 <= a <= b && c >= 0
    ensures a * c <= b * c
  {
    MulMonotone(b - a, c);
    assert b * c == (b - a) * c + a * c;
  }

  /** A negative count of loop iterations is no iteration. */
  function Count(n: int): nat
  {
    if n > 0 then n else 0
  }

  /** The map `layout` returns: exactly the keys "x;y" of the grid, each
      mapped to its cell. */
  predicate IsLayout(m: map<string, Rect>, bounds: Rect, gap: int, w: int, h: int, cols: int, rows: int)
  {
    (forall x, y :: 0 <= x < cols && 0 <= y < rows ==> Key(x, y) in m && m[Key(x, y)] == CellAt(bounds, gap, w, h, x, y)) &&
    (forall k :: k in m ==> exists x, y :: 0 <= x < cols && 0 <= y < rows && k == Key(x, y))
  }

  /** The cells the loops have placed before reaching cell (x, y): all of
      the columns left of x and the top y cells of column x. */
  function Filled(bounds: Rect, gap: int, w: int, h: int, rows: nat, x: nat, y: nat): map<string, Rect>
    requires y <= rows
    decreases x, y
  {
    if y > 0 then Filled(bounds, gap, w, h, rows, x, y - 1)[Key(x, y - 1) := CellAt(bounds, gap, w, h, x, y - 1)]
    else if x > 0 then Filled(bounds, gap, w, h, rows, x - 1, rows)
    else map[]
  }

  /** Before cell (x, y), the map holds exactly the keys of the cells the
      loops have passed. */
  lemma {:induction false} FilledKeys(bounds: Rect, gap: int, w: int, h: int, rows: nat, x: nat, y: nat)
    requires y <= rows
    ensures forall x', y' :: 0 <= x' && 0 <= y' < rows ==>
              (Key(x', y') in Filled(bounds, gap, w, h, rows, x, y) <==> x' < x || (x' == x && y' < y))
    decreases x, y
  {
    if y > 0 {
      FilledKeys(bounds, gap, w, h, rows, x, y - 1);
      forall x', y' | 0 <= x' && 0 <= y' < rows && Key(x', y') == Key(x, y - 1)
        ensures x' == x && y' == y - 1
      {
        KeyInjective(x', y', x, y - 1);
      }
    } else if x > 0 {
      FilledKeys(bounds, gap, w, h, rows, x - 1, rows);
    }
  }

  /** Nothing but grid keys is ever put in the map, so it has x * rows + y
      keys before cell (x, y). */
  lemma {:induction false} FilledSize(bounds: Rect, gap: int, w: int, h: int, rows: nat, x: nat, y: nat)
    requires y <= rows
    ensures |Filled(bounds, gap, w, h, rows, x, y)| == x * rows + y
    decreases x, y
  {
    if y > 0 {
      var before := Filled(bounds, gap, w, h, rows, x, y - 1);
      var k := Key(x, y - 1);
      FilledSize(bounds, gap, w, h, rows, x, y - 1);
      FilledKeys(bounds, gap, w, h, rows, x, y - 1);
      assert k !in before;
      assert Filled(bounds, gap, w, h, rows, x, y).Keys == before.Keys + {k};
    } else if x > 0 {
      FilledSize(bounds, gap, w, h, rows, x - 1, rows);
      assert x * rows == (x - 1) * rows + rows;
    }
  }

  /** Every key in the map is the key of a cell of the first x + 1
      columns. */
  lemma {:induction false} FilledGridKeys(bounds: Rect, gap: int, w: int, h: int, rows: nat, x: nat, y: nat)
    requires y <= rows
    ensures forall k :: k in Filled(bounds, gap, w, h, rows, x, y) ==>
              exists x', y' :: 0 <= x' <= x && 0 <= y' < rows && k == Key(x', y')
    decreases x, y
  {
    if y > 0 {
      FilledGridKeys(bounds, gap, w, h, rows, x, y - 1);
      assert 0 <= x <= x && 0 <= y - 1 < rows && Key(x, y - 1) == Key(x, y - 1);
    } else if x > 0 {
      FilledGridKeys(bounds, gap, w, h, rows, x - 1, rows);
    }
  }

  /** Every key placed maps to its own cell. */
  lemma {:induction false} FilledValues(bounds: Rect, gap: int, w: int, h: int, rows: nat, x: nat, y: nat)
    requires y <= rows
    ensures forall x', y' :: 0 <= x' && 0 <= y' < rows && Key(x', y') in Filled(bounds, gap, w, h, rows, x, y) ==>
              Filled(bounds, gap, w, h, rows, x, y)[Key(x', y')] == CellAt(bounds, gap, w, h, x', y')
    decreases x, y
  {
    if y > 0 {
      FilledValues(bounds, gap, w, h, rows, x, y - 1);
      forall x', y' | 0 <= x' && 0 <= y' < rows && Key(x', y') == Key(x, y - 1)
        ensures x' == x && y' == y - 1
      {
        KeyInjective(x', y', x, y - 1);
      }
    } else if x > 0 {
      FilledValues(bounds, gap, w, h, rows, x - 1, rows);
    }
  }

  /** `Filled` after all cols columns is the map `layout` promises. */
  lemma FilledIsLayout(bounds: Rect, gap: int, w: int, h: int, cols: nat, rows: nat)
    ensures IsLayout(Filled(bounds, gap, w, h, rows, cols, 0), bounds, gap, w, h, cols, rows)
    ensures |Filled(bounds, gap, w, h, rows, cols, 0)| == cols * rows
  {
    FilledKeys(bounds, gap, w, h, rows, cols, 0);
    FilledSize(bounds, gap, w, h, rows, cols, 0);
    FilledGridKeys(bounds, gap, w, h, rows, cols, 0);
    FilledValues(bounds, gap, w, h, rows, cols, 0);
  }

  class FixedGrid {
    var columns: int
    var rows: int
    var background: Color
    var gap: int

    function Current(): Settings
      reads this
    {
      Settings(columns, rows, background, gap)
    }

    /** `New`: the defaults, then every option in order. */
    constructor New(options: seq<GridOption>)
      ensures Current() == Configure(Defaults(), options)
    {
      background := Black;
      columns := 1;
      rows := 1;
      gap := 0;
      new;
      var k := 0;
      while k < |options|
        invariant 0 <= k <= |options|
        invariant Current() == Configure(Defaults(), options[..k])
        modifies this
      {
        assert options[..k + 1][..k] == options[..k];
        Apply(options[k]);
        k := k + 1;
      }
      assert options[..k] == options;
    }

    /** One option function applied to the grid: it assigns exactly one field. */
    method Apply(o: GridOption)
      modifies this
      ensures Current() == ApplyOption(old(Current()), o)
      ensures o.Background? ==> background == o.c && unchanged(this`columns, this`rows, this`gap)
      ensures o.Gap? ==> gap == o.g && unchanged(this`columns, this`rows, this`background)
      ensures o.Columns? ==> columns == o.cols && unchanged(this`rows, this`background, this`gap)
      ensures o.Rows? ==> rows == o.rows && unchanged(this`columns, this`background, this`gap)
    {
      match o {
        case Background(c) => background := c;
        case Gap(g) => gap := g;
        case Columns(cols) => columns := cols;
        case Rows(r) => rows := r;
      }
    }

    /** `layout`: a zero column or row count divides by zero; otherwise the
        map holds exactly one cell per "x;y" (none when a count is negative),
        each w x h with w and h truncated quotients. */
    method Layout(bounds: Rect) returns (r: Result<map<string, Rect>>)
      ensures columns == 0 || rows == 0 <==> r == Panic(DivideByZero)
      ensures columns != 0 && rows != 0 ==>
                r.Ok? &&
                IsLayout(r.value, bounds, gap, CellSize(Dx(bounds), columns, gap), CellSize(Dy(bounds), rows, gap), columns, rows) &&
                |r.value| == Count(columns) * Count(rows)
    {
      if columns == 0 || rows == 0 {
        return Panic(DivideByZero);
      }
      var w := TruncDiv(Dx(bounds) - (columns + 1) * gap, columns);
      var h := TruncDiv(Dy(bounds) - (rows + 1) * gap, rows);
      var ret: map<string, Rect> := map[];
      var X := gap + bounds.min.x;
      var x := 0;
      while x < columns
        invariant 0 <= x <= Count(columns)
        invariant X == gap + bounds.min.x + x * (gap + w)
        invariant rows > 0 ==> ret == Filled(bounds, gap, w, h, rows, x, 0)
        invariant rows < 0 ==> ret == map[]
      {
        ret := LayColumn(ret, bounds, gap, w, h, rows, x, X);
        assert (x + 1) * (gap + w) == x * (gap + w) + (gap + w);
        X := X + gap + w;
        x := x + 1;
      }
      assert w == CellSize(Dx(bounds), columns, gap) && h == CellSize(Dy(bounds), rows, gap);
      if columns > 0 && rows > 0 {
        assert ret == Filled(bounds, gap, w, h, rows, columns, 0);
        FilledIsLayout(bounds, gap, w, h, columns, rows);
      } else {
        assert ret == map[];
        assert Count(columns) * Count(rows) == 0;
      }
      return Ok(ret);
    }
  }

  /** The inner loop of `layout`: column x, Y accumulating. */
  method LayColumn(m: map<string, Rect>, bounds: Rect, gap: int, w: int, h: int, rows: int, x: nat, X: int)
    returns (ret: map<string, Rect>)
    requires X == gap + bounds.min.x + x * (gap + w)
    requires rows > 0 ==> m == Filled(bounds, gap, w, h, rows, x, 0)
    ensures rows > 0 ==> ret == Filled(bounds, gap, w, h, rows, x + 1, 0)
    ensures rows <= 0 ==> ret == m
  {
    ret := m;
    var Y := gap + bounds.min.y;
    var y := 0;
    while y < rows
      invariant 0 <= y <= Count(rows)
      invariant Y == gap + bounds.min.y + y * (gap + h)
      invariant rows > 0 ==> ret == Filled(bounds, gap, w, h, rows, x, y)
      invariant rows <= 0 ==> ret == m
    {
      ret := ret[Key(x, y) := MakeRect(X, Y, X + w, Y + h)];
      assert (y + 1) * (gap + h) == y * (gap + h) + (gap + h);
      Y := Y + gap + h;
      y := y + 1;
    }
  }
}
