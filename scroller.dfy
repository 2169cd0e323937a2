/** Package layout, file scroller.go: a vertical (or horizontal) list of
    equally sized children, shifted by a scroll offset that mouse scrolling
    changes. */
module Scroller {
  import opened Outcome
  import opened Geom
  import opened Events

  /** `clamp(val, a, b)`: the point of the closed interval between a and b
      (in either order) nearest to val. */
  function Clamp(val: int, a: int, b: int): (r: int)
    ensures Min(a, b) <= r <= Max(a, b)
    ensures Min(a, b) <= val <= Max(a, b) ==> r == val
    ensures val < Min(a, b) ==> r == Min(a, b)
    ensures val > Max(a, b) ==> r == Max(a, b)
  {
    if a > b then
      if val < b then b
      else if val > a then a
      else val
    else
      if val > b then b
      else if val < a then a
      else val
  }

  /** Clamping twice is clamping once. */
  lemma ClampIdempotent(val: int, a: int, b: int)
    ensures Clamp(Clamp(val, a, b), a, b) == Clamp(val, a, b)
  {
  }

  /** The top edge of child i: one gap below the shifted top, then i
      children and gaps. */
  function ChildTop(bounds: Rect, offset: int, childHeight: int, gap: int, i: int): int
  {
    bounds.min.y + offset + gap + i * (childHeight + gap)
  }

  /** The rectangles `Lay` hands out, as a closed form. */
  function Children(bounds: Rect, length: nat, childHeight: int, offset: int, gap: int): (cells: seq<Rect>)
    ensures |cells| == length
  {
    seq(length, i requires 0 <= i < length =>
      var Y := ChildTop(bounds, offset, childHeight, gap, i);
      MakeRect(bounds.min.x + gap, Y, bounds.max.x - gap, Y + childHeight))
  }

  /** With a non-negative child height and room for the side gaps, every
      child spans the bounds less one gap on each side, is exactly
      childHeight high, and the next one starts one gap below it. */
  lemma ChildrenShape(bounds: Rect, length: nat, childHeight: int, offset: int, gap: int, i: nat)
    requires i < length && childHeight >= 0 && bounds.min.x + gap <= bounds.max.x - gap
    ensures var cells := Children(bounds, length, childHeight, offset, gap);
            cells[i].min == Point(bounds.min.x + gap, bounds.min.y + offset + gap + i * (childHeight + gap)) &&
            cells[i].max.x == bounds.max.x - gap && Dy(cells[i]) == childHeight &&
            (i + 1 < length ==> cells[i + 1].min.y == cells[i].max.y + gap)
  {
    var cells := Children(bounds, length, childHeight, offset, gap);
    if i + 1 < length {
      assert (i + 1) * (childHeight + gap) == i * (childHeight + gap) + childHeight + gap;
    }
  }

  /** The exported fields of `Scroller`; `Intercept` changes `offset`. A nil
      background is `None` and paints black. */
  class Scroller {
    var background: Option<Color>
    var length: int
    var childHeight: int
    var offset: int
    var gap: int
    var vertical: bool

    constructor (background: Option<Color>, length: int, childHeight: int, offset: int, gap: int, vertical: bool)
      ensures this.background == background && this.length == length && this.childHeight == childHeight
      ensures this.offset == offset && this.gap == gap && this.vertical == vertical
    {
      this.background := background;
      this.length := length;
      this.childHeight := childHeight;
      this.offset := offset;
      this.gap := gap;
      this.vertical := vertical;
    }

    /** The colour `redraw` paints. */
    function Fill(): Color
      reads this
    {
      match background
      case None => Black
      case Some(col) => col
    }

    /** `Lay`: `make` with a negative length panics; otherwise one rectangle
        per child, Y accumulating. */
    method Lay(bounds: Rect) returns (r: Result<seq<Rect>>)
      ensures length < 0 ==> r == Panic(MakeSliceLen)
      ensures length >= 0 ==> r == Ok(Children(bounds, length, childHeight, offset, gap))
    {
      if length < 0 {
        return Panic(MakeSliceLen);
      }
      ghost var cells := Children(bounds, length, childHeight, offset, gap);
      var ret: seq<Rect> := [];
      var Y := bounds.min.y + offset + gap;
      var i := 0;
      while i < length
        invariant 0 <= i <= length
        invariant Y == ChildTop(bounds, offset, childHeight, gap, i)
        invariant ret == cells[..i]
      {
        ret := ret + [MakeRect(bounds.min.x + gap, Y, bounds.max.x - gap, Y + childHeight)];
        Y := Y + childHeight + gap;
        i := i + 1;
      }
      assert ret == cells;
      return Ok(ret);
    }
  }

  /** The variables `Intercept` keeps for one environment, besides the
      scroller's offset. `lastResize` starts as the zero rectangle. */
  datatype View = View(offset: int, over: bool, lastResize: Rect)

  /** The total length of the content: all children and the gaps around them. */
  function ContentLength(length: int, childHeight: int, gap: int): int
  {
    length * childHeight + (length + 1) * gap
  }

  /** One step of the event goroutine of `Intercept`: the new view and the
      events sent to the children. */
  function Step(length: int, childHeight: int, gap: int, vertical: bool, v: View, ev: Event): (View, seq<Event>)
  {
    match ev
    case MoMove(p) => (v.(over := In(p, v.lastResize)), [])
    case MoScroll(p) =>
      if !v.over then (v, [])
      else
        var content := ContentLength(length, childHeight, gap);
        var offset :=
          if vertical then Clamp(v.offset + p.x * 16, Dx(v.lastResize) - content, 0)
          else Clamp(v.offset + p.y * 16, Dy(v.lastResize) - content, 0);
        if offset != v.offset then (v.(offset := offset), [Resize(v.lastResize)])
        else (v, [])
    case Resize(r) => (v.(lastResize := r), [ev])
    case _ => (v, [ev])
  }

  /** Scrolling moves the offset only while the pointer is over the view,
      the new offset lies between the viewport minus the content and 0, and
      the stored resize is sent again exactly when the offset changed. */
  lemma ScrollStep(length: int, childHeight: int, gap: int, vertical: bool, v: View, p: Point)
    ensures var (w, sent) := Step(length, childHeight, gap, vertical, v, MoScroll(p));
            w.over == v.over && w.lastResize == v.lastResize &&
            (!v.over ==> w == v && sent == []) &&
            (sent == [] <==> w.offset == v.offset) &&
            (sent != [] ==> sent == [Resize(v.lastResize)]) &&
            (v.over ==>
              var viewport := if vertical then Dx(v.lastResize) else Dy(v.lastResize);
              var delta := if vertical then p.x else p.y;
              var low := Min(viewport - ContentLength(length, childHeight, gap), 0);
              var high := Max(viewport - ContentLength(length, childHeight, gap), 0);
              low <= w.offset <= high &&
              (low <= v.offset + 16 * delta <= high ==> w.offset == v.offset + 16 * delta))
  {
  }

  /** Every event other than a scroll leaves the offset alone; only a resize
      changes the stored rectangle and only a move changes `over`. A resize
      and every event that is neither a move nor a scroll is forwarded
      unchanged, alone. */
  lemma OtherSteps(length: int, childHeight: int, gap: int, vertical: bool, v: View, ev: Event)
    requires !ev.MoScroll?
    ensures var (w, sent) := Step(length, childHeight, gap, vertical, v, ev);
            w.offset == v.offset &&
            (w.lastResize != v.lastResize ==> ev.Resize?) &&
            (ev.Resize? ==> w.lastResize == ev.r) &&
            (w.over != v.over ==> ev.MoMove?) &&
            (ev.MoMove? ==> w.over == In(ev.p, v.lastResize) && sent == []) &&
            (!ev.MoMove? ==> sent == [ev])
  {
  }

  /** Once the offset is in range, scrolling by zero changes nothing and sends
      nothing. */
  lemma ScrollByZero(length: int, childHeight: int, gap: int, vertical: bool, v: View)
    requires var viewport := if vertical then Dx(v.lastResize) else Dy(v.lastResize);
             var content := ContentLength(length, childHeight, gap);
             Min(viewport - content, 0) <= v.offset <= Max(viewport - content, 0)
    ensures Step(length, childHeight, gap, vertical, v, MoScroll(Point(0, 0))) == (v, [])
  {
  }

  /** The state of one `Intercept`: the scroller it belongs to and the
      goroutine's local variables. */
  class Scrolling {
    const scroller: Scroller
    var over: bool
    var lastResize: Rect

    constructor (s: Scroller)
      ensures scroller == s && !over && lastResize == ZR
    {
      scroller := s;
      over := false;
      lastResize := ZR;
    }

    function Current(): View
      reads this, scroller
    {
      View(scroller.offset, over, lastResize)
    }

    /** One event of the `Intercept` loop; `sent` is what goes to the
        children, in order. */
    method Handle(ev: Event) returns (sent: seq<Event>)
      modifies this, scroller
      ensures unchanged(scroller`background, scroller`length, scroller`childHeight, scroller`gap, scroller`vertical)
      ensures (Current(), sent) == Step(scroller.length, scroller.childHeight, scroller.gap, scroller.vertical, old(Current()), ev)
    {
      match ev {
        case MoMove(p) =>
          over := In(p, lastResize);
          sent := [];
        case MoScroll(p) =>
          if !over {
            return [];
          }
          var oldOffset := scroller.offset;
          var content := scroller.length * scroller.childHeight + (scroller.length + 1) * scroller.gap;
          if scroller.vertical {
            var h := Dx(lastResize);
            scroller.offset := Clamp(scroller.offset + p.x * 16, h - content, 0);
          } else {
            var h := Dy(lastResize);
            scroller.offset := Clamp(scroller.offset + p.y * 16, h - content, 0);
          }
          sent := if oldOffset != scroller.offset then [Resize(lastResize)] else [];
        case Resize(r) =>
          lastResize := r;
          sent := [ev];
        case _ =>
          sent := [ev];
      }
    }
  }
}
