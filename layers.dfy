/** Package layers, file layers.go: `Layers` stacks layer images over a
    destination image and a rectangle set together by `Dst`. New layers go
    to the back, and `Flush` paints front to back, so the head of the list
    is the bottom-most layer and the last pushed one is on top. */
module Layers {
  import opened Outcome
  import opened Geom
  import opened Order

  class Layers {
    var hasDst: bool
    var r: Rect
    var order: seq<LayerId>
    var next: nat
    var images: map<LayerId, Rect>

    ghost predicate Valid()
      reads this
    {
      Distinct(order) &&
      (forall id :: id in order ==> id < next) &&
      (forall id :: id in images <==> 0 <= id < next)
    }

    /** The zero `Layers`: no destination and the zero rectangle. */
    constructor ()
      ensures Valid() && !hasDst && r == ZR && order == [] && next == 0
    {
      hasDst := false;
      r := ZR;
      order := [];
      next := 0;
      images := map[];
    }

    /** `Dst`: record the destination (absent for nil) and the rectangle,
        and give every listed layer, front to back, an image bounded by the
        rectangle; the order is untouched. */
    method Dst(present: bool, bounds: Rect)
      requires Valid()
      modifies this`hasDst, this`r, this`images
      ensures Valid() && hasDst == present && r == bounds
      ensures images == Resized(old(images), order, bounds)
    {
      hasDst := present;
      r := bounds;
      images := ResizeFrontToBack(images, order, bounds);
    }

    /** `Push`: a new layer at the back, its image bounded by the recorded
        rectangle; it works without a destination. */
    method Push() returns (id: LayerId)
      requires Valid()
      modifies this`order, this`next, this`images
      ensures Valid()
      ensures id == old(next) && next == old(next) + 1
      ensures order == old(order) + [id] && images == old(images)[id := r]
    {
      id := next;
      assert id !in order;
      next := next + 1;
      images := images[id := r];
      order := order + [id];
    }

    /** `Flush`: paint the layers front to back, so each later one covers
        the earlier ones. */
    method Flush(rect: Rect) returns (res: Result<seq<LayerId>>)
      requires Valid()
      ensures !hasDst ==> res == Panic("layers: Flush: no destination")
      ensures hasDst ==> res == Ok(order)
    {
      if !hasDst {
        return Panic("layers: Flush: no destination");
      }
      var painted: seq<LayerId> := [];
      var i := 0;
      while i < |order|
        invariant 0 <= i <= |order|
        invariant painted == order[..i]
      {
        painted := painted + [order[i]];
        i := i + 1;
      }
      assert order[..i] == order;
      return Ok(painted);
    }

    /** `Layer.Remove`: only that layer leaves the list. */
    method RemoveLayer(id: LayerId)
      requires Valid() && id < next
      modifies this`order
      ensures Valid() && order == Without(old(order), id)
    {
      order := Without(order, id);
    }

    /** `Layer.Front`: that layer moves to the head, so it is painted first
        and ends up at the bottom. */
    method FrontLayer(id: LayerId)
      requires Valid() && id < next
      modifies this`order
      ensures Valid() && order == MoveToFront(old(order), id)
    {
      order := MoveToFront(order, id);
    }
  }

  /** A pushed layer is painted last by the next flush, on top of the
      layers that were there, which keep their order. */
  method PushedOnTop(l: Layers, rect: Rect) returns (id: LayerId, painted: Result<seq<LayerId>>)
    requires l.Valid() && l.hasDst
    modifies l
    ensures painted == Ok(old(l.order) + [id])
    ensures |painted.value| >= 1 && painted.value[|painted.value| - 1] == id
  {
    id := l.Push();
    painted := l.Flush(rect);
  }

  /** A listed layer moved to the front is painted first by the next flush,
      at the bottom, and the others are painted after it in their order. */
  method FrontedAtBottom(l: Layers, id: LayerId, rect: Rect) returns (painted: Result<seq<LayerId>>)
    requires l.Valid() && l.hasDst && id < l.next && id in l.order
    modifies l
    ensures painted.Ok? && |painted.value| == |old(l.order)| && painted.value[0] == id
    ensures forall k :: 0 <= k < |old(l.order)| && old(l.order)[k] == id ==>
              painted.value[1..] == old(l.order)[..k] + old(l.order)[k + 1..]
  {
    l.FrontLayer(id);
    painted := l.Flush(rect);
    PaintOrder(old(l.order), id);
  }

  /** After `Front` a listed layer is painted first, at the bottom, and the
      others keep their order. */
  lemma PaintOrder(order: seq<LayerId>, id: LayerId)
    requires Distinct(order)
    ensures id in order ==> MoveToFront(order, id)[0] == id
    ensures forall k :: 0 <= k < |order| && order[k] == id ==> MoveToFront(order, id)[1..] == order[..k] + order[k + 1..]
  {
    forall k | 0 <= k < |order| && order[k] == id
      ensures MoveToFront(order, id)[1..] == order[..k] + order[k + 1..]
    {
      WithoutAt(order, k);
    }
  }
}
