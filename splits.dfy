/** File examples/imageviewer/splits.go: wrappers that give an environment
    a part of its parent's area by rewriting every resize on its way in.
    `FixedLeft` and `FixedTop` keep the area left of, or above, a fixed
    coordinate, `FixedRight` and `FixedBottom` the area from a fixed
    coordinate on, and `EvenHorizontal` the columns [minI, maxI) of n
    equal columns. Every other event passes unchanged, and the wrapped
    events end when the parent's do. */
module Splits {
  import opened Outcome
  import opened Geom
  import opened Events

  datatype Split =
    | FixedLeft(maxX: int)
    | FixedRight(minX: int)
    | FixedTop(maxY: int)
    | FixedBottom(minY: int)
    | EvenHorizontal(minI: int, maxI: int, n: int)


  /** Where column boundary i of n falls in [x0, x1): `x0+(x1-x0)*i/n`,
      with Go's truncating division. */
  function Boundary(x0: int, x1: int, i: int, n: int): int
    requires n != 0
  {
    x0 + TruncDiv((x1 - x0) * i, n)
  }

  /** A resize with one of its coordinates replaced; n == 0 makes
      `EvenHorizontal` divide by zero on a resize. */
  function Rewrite(s: Split, e: Event): (r: Result<Event>)
    ensures r.Panic? <==> e.Resize? && s.EvenHorizontal? && s.n == 0
    ensures r.Panic? ==> r.reason == DivideByZero
    ensures r.Ok? && !e.Resize? ==> r.value == e
    ensures r.Ok? && e.Resize? ==> r.value.Resize?
  {
    if !e.Resize? then Ok(e)
    else
      var r := e.r;
      match s
      case FixedLeft(maxX) => Ok(Resize(r.(max := r.max.(x := maxX))))
      case FixedRight(minX) => Ok(Resize(r.(min := r.min.(x := minX))))
      case FixedTop(maxY) => Ok(Resize(r.(max := r.max.(y := maxY))))
      case FixedBottom(minY) => Ok(Resize(r.(min := r.min.(y := minY))))
      case EvenHorizontal(minI, maxI, n) =>
        if n == 0 then Panic(DivideByZero)
        else Ok(Resize(r.(min := r.min.(x := Boundary(r.min.x, r.max.x, minI, n)),
                          max := r.max.(x := Boundary(r.min.x, r.max.x, maxI, n)))))
  }

  /** The rewriting goroutine: every event of the parent, rewritten, in
      order; a panic stops everything at the event that caused it. The
      close of the output channel once the parent's events end is not
      represented. */
  method Forward(s: Split, es: seq<Event>) returns (out: seq<Event>, r: Result<()>)
    ensures r.Panic? <==> exists i :: 0 <= i < |es| && Rewrite(s, es[i]).Panic?
    ensures r.Panic? ==> r.reason == DivideByZero && |out| < |es| && Rewrite(s, es[|out|]).Panic?
    ensures r.Ok? ==> |out| == |es|
    ensures |out| <= |es| && forall i :: 0 <= i < |out| ==> Rewrite(s, es[i]) == Ok(out[i])
  {
    out := [];
    var k := 0;
    while k < |es|
      invariant k == |out| <= |es|
      invariant forall i :: 0 <= i < k ==> Rewrite(s, es[i]) == Ok(out[i])
    {
      var e := Rewrite(s, es[k]);
      if e.Panic? {
        return out, Panic(e.reason);
      }
      out := out + [e.value];
      k := k + 1;
    }
    return out, Ok(());
  }

  /** `FixedLeft(x)` and `FixedRight(x)` of the same resize split its
      rectangle at x: every point of it is in exactly one of them. */
  lemma LeftRightSplit(r: Rect, x: int, p: Point)
    requires r.min.x <= x <= r.max.x
    ensures var left := Rewrite(FixedLeft(x), Resize(r)).value.r;
            var right := Rewrite(FixedRight(x), Resize(r)).value.r;
            (In(p, r) <==> In(p, left) || In(p, right)) && !(In(p, left) && In(p, right))
  {
  }

  /** `FixedTop(y)` and `FixedBottom(y)` split a rectangle at y the same
      way. */
  lemma TopBottomSplit(r: Rect, y: int, p: Point)
    requires r.min.y <= y <= r.max.y
    ensures var top := Rewrite(FixedTop(y), Resize(r)).value.r;
            var bottom := Rewrite(FixedBottom(y), Resize(r)).value.r;
            (In(p, r) <==> In(p, top) || In(p, bottom)) && !(In(p, top) && In(p, bottom))
  {
  }

  /** Euclidean division by a positive number keeps the order of
      non-negative numbers. */
  lemma DivMonotone(a: int, b: int, n: int)
    requires 0 <= a <= b && n > 0
    ensures a / n <= b / n
  {
    var qa, qb := a / n, b / n;
    assert a == n * qa + a % n && b == n * qb + b % n;
    if qa > qb {
      MulMonotone(qa - qb - 1, n);
      assert false;
    }
  }

  /** Column boundaries of a rectangle whose sides are in order grow with
      the column; the first is x0 and the last x1. */
  lemma BoundaryMonotone(x0: int, x1: int, i: int, j: int, n: int)
    requires x0 <= x1 && 0 <= i <= j && n > 0
    ensures Boundary(x0, x1, i, n) <= Boundary(x0, x1, j, n)
    ensures Boundary(x0, x1, 0, n) == x0 && Boundary(x0, x1, n, n) == x1
  {
    var d := x1 - x0;
    assert 0 <= d * i <= d * j by {
      assert d * j - d * i == d * (j - i);
    }
    DivMonotone(d * i, d * j, n);
    TruncDivMul(d, n);
  }

  lemma {:induction false} ColumnFrom(x0: int, x1: int, n: int, px: int, i: int) returns (c: int)
    requires x0 <= x1 && n > 0 && 0 <= i < n
    requires Boundary(x0, x1, i, n) <= px < Boundary(x0, x1, n, n)
    ensures i <= c < n && Boundary(x0, x1, c, n) <= px < Boundary(x0, x1, c + 1, n)
    decreases n - i
  {
    var next := Boundary(x0, x1, i + 1, n);
    if px < next {
      c := i;
    } else {
      assert next <= px < Boundary(x0, x1, n, n);
      c := ColumnFrom(x0, x1, n, px, i + 1);
    }
  }

  /** Column c of n: the rectangle `EvenHorizontal(c, c+1, n)` gives a
      resize to r. */
  function Column(r: Rect, c: int, n: int): Rect
    requires n != 0
  {
    Rewrite(EvenHorizontal(c, c + 1, n), Resize(r)).value.r
  }

  /** The n columns of a well-formed resize tile it: every point of the
      rectangle is in exactly one column. */
  lemma {:induction false} ColumnsTile(r: Rect, n: int, p: Point)
    requires WellFormed(r) && n > 0 && In(p, r)
    ensures exists c :: 0 <= c < n && In(p, Column(r, c, n))
    ensures forall c, c' :: 0 <= c < c' < n && In(p, Column(r, c, n)) ==> !In(p, Column(r, c', n))
  {
    var x0, x1 := r.min.x, r.max.x;
    BoundaryMonotone(x0, x1, 0, 0, n);
    var c := ColumnFrom(x0, x1, n, p.x, 0);
    assert In(p, Column(r, c, n));
    forall c, c' | 0 <= c < c' < n && In(p, Column(r, c, n))
      ensures !In(p, Column(r, c', n))
    {
      BoundaryMonotone(x0, x1, c + 1, c', n);
    }
  }

  /** Columns [minI, maxI) of a well-formed resize with
      0 <= minI <= maxI <= n lie inside it, and all n of them together
      are the whole of it. */
  lemma ColumnsInside(r: Rect, minI: int, maxI: int, n: int)
    requires WellFormed(r) && 0 <= minI <= maxI <= n && n > 0
    ensures var c := Rewrite(EvenHorizontal(minI, maxI, n), Resize(r)).value.r;
            WellFormed(c) && r.min.x <= c.min.x && c.max.x <= r.max.x &&
            c.min.y == r.min.y && c.max.y == r.max.y
    ensures Rewrite(EvenHorizontal(0, n, n), Resize(r)).value.r == r
  {
    BoundaryMonotone(r.min.x, r.max.x, 0, minI, n);
    BoundaryMonotone(r.min.x, r.max.x, minI, maxI, n);
    BoundaryMonotone(r.min.x, r.max.x, maxI, n, n);
  }
}
