/** Package layer, file layer.go: a `List` of layers over a destination
    (an `ImageFlusher`) set later by `Dst`. Its zero value is ready to use.
    The list is a Dispatch too, but the outcome of its own dispatch is
    ignored: every event is then offered to the layers, front to back. A
    `Layer`'s `Remove` and `Front` act on the list directly and do nothing
    for a layer that is no longer listed. */
module Layer {
  import opened Outcome
  import opened Geom
  import opened Order
  import opened Dispatch


  class List {
    var own: Trie<nat>
    var hasDst: bool
    var flushes: seq<Rect>
    var order: seq<LayerId>
    var next: nat
    var images: map<LayerId, Rect>
    var tries: map<LayerId, Trie<nat>>

    ghost predicate Valid()
      reads this
    {
      Distinct(order) &&
      (forall id :: id in order ==> id < next) &&
      (forall id :: id in images <==> 0 <= id < next) &&
      (forall id :: id in tries <==> 0 <= id < next)
    }

    /** The zero `List`. */
    constructor ()
      ensures Valid() && !hasDst && own == EmptyTrie() && flushes == [] && order == [] && next == 0
    {
      own := EmptyTrie();
      hasDst := false;
      flushes := [];
      order := [];
      next := 0;
      images := map[];
      tries := map[];
    }

    /** `Dst`: record the destination (absent for nil), then give every
        listed layer, back to front, an image with the destination's bounds;
        the order is untouched. A nil destination is recorded, and with a
        layer listed the first image it is asked for dereferences nil. */
    method Dst(present: bool, dstImage: Rect) returns (r: Result<()>)
      requires Valid()
      modifies this`hasDst, this`images
      ensures Valid() && hasDst == present
      ensures r.Panic? <==> !present && order != []
      ensures r.Panic? ==> r.reason == NilDereference && images == old(images)
      ensures r.Ok? ==> images == Resized(old(images), order, dstImage)
    {
      hasDst := present;
      if !present && |order| > 0 {
        return Panic(NilDereference);
      }
      images := ResizeBackToFront(images, order, dstImage);
      return Ok(());
    }

    /** `Push`: a new layer at the front, as large as the destination's
        image; without a destination there is no image to ask for. */
    method Push(dstImage: Rect) returns (r: Result<LayerId>)
      requires Valid()
      modifies this`order, this`next, this`images, this`tries
      ensures Valid()
      ensures !hasDst ==> r == Panic(NilDereference) && unchanged(this)
      ensures hasDst ==>
                r == Ok(old(next)) && next == old(next) + 1 &&
                order == [r.value] + old(order) &&
                images == old(images)[r.value := dstImage] &&
                tries == old(tries)[r.value := EmptyTrie()]
    {
      if !hasDst {
        return Panic(NilDereference);
      }
      var id := next;
      assert id !in order;
      next := next + 1;
      images := images[id := dstImage];
      tries := tries[id := EmptyTrie()];
      order := [id] + order;
      return Ok(id);
    }

    /** `Flush`: composite back to front, front layer on top, then flush
        the destination once. */
    method Flush(rect: Rect) returns (r: Result<seq<LayerId>>)
      requires Valid()
      modifies this`flushes
      ensures !hasDst ==> r == Panic("layers: Flush: no destination") && flushes == old(flushes)
      ensures hasDst ==> r == Ok(Reverse(order)) && flushes == old(flushes) + [rect]
    {
      if !hasDst {
        return Panic("layers: Flush: no destination");
      }
      var painted: seq<LayerId> := [];
      var i := |order|;
      while i > 0
        invariant 0 <= i <= |order|
        invariant painted == Reverse(order[i..])
      {
        i := i - 1;
        assert order[i..] == [order[i]] + order[i + 1..];
        painted := painted + [order[i]];
      }
      assert order[0..] == order;
      flushes := flushes + [rect];
      return Ok(painted);
    }

    /** `Happen`: the own Dispatch runs, but whether it consumed is
        ignored; the layers then get the event front to back. */
    method Happen(event: string, fire: (nat, string) -> bool) returns (consumed: bool)
      requires Valid()
      ensures consumed == UntilConsumed(Calls(order, event), LayerFire(tries, fire)).consumed
    {
      var ownConsumed := HappenAt(own, Segments(event), fire);
      assert forall id :: id in order ==> id in tries;
      consumed := OfferLayers(order, tries, event, fire);
    }

    /** `Layer.Remove`: only that layer leaves the list; a layer already
        gone is left alone. */
    method RemoveLayer(id: LayerId)
      requires Valid() && id < next
      modifies this`order
      ensures Valid() && order == Without(old(order), id)
    {
      order := Without(order, id);
    }

    /** `Layer.Front`: only that layer moves, to the head. */
    method FrontLayer(id: LayerId)
      requires Valid() && id < next
      modifies this`order
      ensures Valid() && order == MoveToFront(old(order), id)
    {
      order := MoveToFront(order, id);
    }

    /** `Layer.Flush` is the list's `Flush`, whether or not the layer is
        still listed. */
    method FlushLayer(id: LayerId, rect: Rect) returns (r: Result<seq<LayerId>>)
      requires Valid() && id < next
      modifies this`flushes
      ensures !hasDst ==> r == Panic("layers: Flush: no destination") && flushes == old(flushes)
      ensures hasDst ==> r == Ok(Reverse(order)) && flushes == old(flushes) + [rect]
    {
      r := Flush(rect);
    }

    method Event(pattern: string, h: nat)
      modifies this`own
      ensures own == Insert(old(own), Segments(pattern), h)
    {
      own := Insert(own, Segments(pattern), h);
    }

    method LayerEvent(id: LayerId, pattern: string, h: nat)
      requires Valid() && id < next
      modifies this`tries
      ensures Valid() && tries == old(tries)[id := Insert(old(tries)[id], Segments(pattern), h)]
    {
      tries := tries[id := Insert(tries[id], Segments(pattern), h)];
    }
  }

  /** Whatever the list's own handlers decide, an event no layer consumes
      is not consumed, and one a layer consumes is. */
  lemma HappenIgnoresOwn(order: seq<LayerId>, tries: map<LayerId, Trie<nat>>, event: string, fire: (nat, string) -> bool)
    ensures UntilConsumed(Calls(order, event), LayerFire(tries, fire)).consumed <==>
            exists j :: 0 <= j < |order| && LayerFire(tries, fire)(order[j], event)
  {
    UntilConsumedSpec(Calls(order, event), LayerFire(tries, fire));
    if exists j :: 0 <= j < |order| && LayerFire(tries, fire)(order[j], event) {
      var j :| 0 <= j < |order| && LayerFire(tries, fire)(order[j], event);
      assert Calls(order, event)[j] == Call(order[j], event);
    }
  }
}
