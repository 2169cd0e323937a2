/** The parts of Go's `image` package the model needs: points, rectangles,
    `image.Rect`, `Dx`/`Dy`, `Point.In`, `Rectangle.Empty` and
    `Rectangle.Intersect`, and Go's truncating integer division. */
module Geom {

  datatype Point = Point(x: int, y: int)

  /** A colour of package image/color; only `Black` has a fixed meaning. */
  datatype Color = Black | Colour(id: nat)

  /** `image.Rectangle`: Min is inclusive, Max exclusive. */
  datatype Rect = Rect(min: Point, max: Point)

  /** `image.ZR`, the zero rectangle. */
  const ZR: Rect := Rect(Point(0, 0), Point(0, 0))

  /** A rectangle as `image.Rect` builds it: Min <= Max on both axes. */
  predicate WellFormed(r: Rect)
  {
    r.min.x <= r.max.x && r.min.y <= r.max.y
  }

  /** `image.Rect(x0, y0, x1, y1)`: swaps the coordinates of an axis when they
      are given in decreasing order. */
  function MakeRect(x0: int, y0: int, x1: int, y1: int): (r: Rect)
    ensures WellFormed(r)
    ensures x0 <= x1 ==> r.min.x == x0 && r.max.x == x1
    ensures x1 < x0 ==> r.min.x == x1 && r.max.x == x0
    ensures y0 <= y1 ==> r.min.y == y0 && r.max.y == y1
    ensures y1 < y0 ==> r.min.y == y1 && r.max.y == y0
  {
    var (lx, hx) := if x0 > x1 then (x1, x0) else (x0, x1);
    var (ly, hy) := if y0 > y1 then (y1, y0) else (y0, y1);
    Rect(Point(lx, ly), Point(hx, hy))
  }

  function Dx(r: Rect): int { r.max.x - r.min.x }

  function Dy(r: Rect): int { r.max.y - r.min.y }

  /** `Point.In`: half-open on both axes. */
  predicate In(p: Point, r: Rect)
  {
    r.min.x <= p.x < r.max.x && r.min.y <= p.y < r.max.y
  }

  /** `Rectangle.Empty`. */
  predicate Empty(r: Rect)
  {
    r.min.x >= r.max.x || r.min.y >= r.max.y
  }

  function Max(a: int, b: int): int { if a < b then b else a }

  function Min(a: int, b: int): int { if a < b then a else b }

  /** `Rectangle.Intersect`: the largest rectangle inside both, or `ZR` when
      that is empty. */
  function Intersect(r: Rect, s: Rect): (t: Rect)
    ensures forall p :: In(p, t) <==> In(p, r) && In(p, s)
    ensures Empty(t) ==> t == ZR
    ensures t != ZR ==> r.min.x <= t.min.x && t.max.x <= r.max.x && r.min.y <= t.min.y && t.max.y <= r.max.y
    ensures t != ZR ==> s.min.x <= t.min.x && t.max.x <= s.max.x && s.min.y <= t.min.y && t.max.y <= s.max.y
  {
    var c := Rect(Point(Max(r.min.x, s.min.x), Max(r.min.y, s.min.y)),
                  Point(Min(r.max.x, s.max.x), Min(r.max.y, s.max.y)));
    if Empty(c) then ZR else c
  }

  /** Mirror a rectangle in the main diagonal (swap the roles of X and Y). */
  function Transpose(r: Rect): (t: Rect)
    ensures Dx(t) == Dy(r) && Dy(t) == Dx(r)
  {
    Rect(Point(r.min.y, r.min.x), Point(r.max.y, r.max.x))
  }

  lemma TransposeMakeRect(x0: int, y0: int, x1: int, y1: int)
    ensures Transpose(MakeRect(x0, y0, x1, y1)) == MakeRect(y0, x0, y1, x1)
  {
  }

  function Abs(a: int): int { if a < 0 then -a else a }

  /** Go's `/` on `int`: the quotient truncated toward zero, so the
      remainder it leaves has the sign of the dividend and is smaller than
      the divisor in magnitude. */
  function TruncDiv(a: int, b: int): (q: int)
    requires b != 0
    ensures a >= 0 ==> 0 <= a - q * b < Abs(b)
    ensures a < 0 ==> -Abs(b) < a - q * b <= 0
  {
    if a >= 0 then
      assert a == b * (a / b) + a % b;
      a / b
    else
      assert -a == b * ((-a) / b) + (-a) % b;
      -((-a) / b)
  }

  /** On a non-negative dividend Go's quotient is the Euclidean one. */
  lemma TruncDivNonNegative(a: int, b: int)
    requires a >= 0 && b != 0
    ensures TruncDiv(a, b) == a / b
  {
  }

  /** A multiple of b strictly inside (-|b|, |b|) is zero. */
  lemma ZeroMultiple(k: int, b: int)
    requires b != 0 && -Abs(b) < k * b < Abs(b)
    ensures k == 0
  {
    if k > 0 {
      assert k * b == (k - 1) * b + b;
      MulMonotone(k - 1, b);
    } else if k < 0 {
      assert k * b == -((-k - 1) * b) - b;
      MulMonotone(-k - 1, b);
    }
  }

  lemma MulMonotone(k: nat, b: int)
    ensures b > 0 ==> k * b >= 0
    ensures b < 0 ==> k * b <= 0
  {
  }

  /** Multiplying by b and then dividing by b gives the number back. */
  lemma TruncDivMul(d: int, b: int)
    requires b != 0
    ensures TruncDiv(d * b, b) == d
  {
    var q := TruncDiv(d * b, b);
    assert (d - q) * b == d * b - q * b;
    if d * b >= 0 {
      ZeroMultiple(d - q, b);
    } else {
      ZeroMultiple(d - q, b);
    }
  }

  /** Euclidean quotient and remainder are determined by the defining
      equation, so a candidate pair that satisfies it is the pair. */
  lemma DivModUnique(a: int, b: int, q: int, r: int)
    requires b > 0 && a == b * q + r && 0 <= r < b
    ensures a / b == q && a % b == r
  {
    var q', r' := a / b, a % b;
    assert (q - q') * b == r' - r;
    ZeroMultiple(q - q', b);
  }
}
