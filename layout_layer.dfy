/** Package layout, file layer.go: a `LayerList` stacks layers on one
    destination (an `EventImageFlusher`). It is itself a Dispatch (holding
    the "resize" handler that regrows every layer's image), is routed every
    event of the destination, and offers each event it does not consume
    itself to its layers, front to back. Layers are identities; a layer's
    pixels are left out and only the bounds of its image are kept. */
module LayoutLayer {
  import opened Outcome
  import opened Geom
  import opened Path
  import opened Order
  import opened Dispatch

  /** The handlers of the list's own Dispatch: the "resize" handler that
      `NewLayerList` registers, or a handler registered through the
      embedded `Event`, named by an identity. */
  datatype Owner = ResizeLayers | Client(h: nat)

  /** Outcome of a call into a nil interface value. */

  /** The resize handler returns false: only client handlers consume. */
  function OwnFire(fire: (nat, string) -> bool): (Owner, string) -> bool
  {
    (o: Owner, arg: string) => o.Client? && fire(o.h, arg)
  }

  /** The resize handler panics when `Sscan` finds more parts than its four
      targets, or when there is a layer to regrow and no destination to ask
      for its bounds. */
  predicate ResizeFails(arg: string, hasDst: bool, order: seq<LayerId>)
  {
    |Split(arg)| > 4 || (!hasDst && order != [])
  }

  /** Some call of the dispatch went to the resize handler. */
  predicate Resizes(cs: seq<Call<Owner>>)
  {
    exists j :: 0 <= j < |cs| && cs[j].handler.ResizeLayers?
  }

  /** Some call to the resize handler panics. */
  predicate SomeResizeFails(cs: seq<Call<Owner>>, hasDst: bool, order: seq<LayerId>)
  {
    exists j :: 0 <= j < |cs| && cs[j].handler.ResizeLayers? && ResizeFails(cs[j].arg, hasDst, order)
  }

  /** The event `NewLayerList` dispatches reaches exactly the resize
      handler, once, and with the four printed coordinates: it neither
      panics nor is consumed. */
  lemma InitialResize(xs: seq<int>, fire: (nat, string) -> bool)
    requires |xs| == 4
    ensures var t := Insert(EmptyTrie<Owner>(), ["resize"], ResizeLayers);
            var ev := Join(Printed([Str("resize")] + Ints(xs)));
            var d := Descend(t, Segments(ev), OwnFire(fire));
            d == Dispatched(false, [Call(ResizeLayers, Join(Printed(Ints(xs))))]) &&
            |Split(Join(Printed(Ints(xs))))| == 4
  {
    var t := Insert(EmptyTrie<Owner>(), ["resize"], ResizeLayers);
    var child := Node([ResizeLayers], map[]);
    assert ["resize"][1..] == [];
    assert Insert(EmptyTrie<Owner>(), [], ResizeLayers) == child;
    assert t == Node([], map["resize" := child]);
    var parts := [Str("resize")] + Ints(xs);
    assert Printed(parts) == ["resize"] + Printed(Ints(xs));
    IntsNoSep(xs);
    assert NoSep(Printed(parts));
    SplitJoin(Printed(parts));
    var ev := Join(Printed(parts));
    assert Split("") == [""] && |Split(ev)| == 5;
    var segs := Segments(ev);
    assert segs == ["resize"] + Printed(Ints(xs));
    assert segs[1..] == Printed(Ints(xs));
    ScanSprint(xs, xs);
    var f := OwnFire(fire);
    assert UntilConsumed(Calls(t.handlers, Join(segs)), f) == Dispatched(false, []);
    var arg := Join(segs[1..]);
    assert Calls(child.handlers, arg) == [Call(ResizeLayers, arg)];
    assert UntilConsumed([Call(ResizeLayers, arg)][1..], f) == Dispatched(false, []);
    assert Descend(child, segs[1..], f) == Dispatched(false, [Call(ResizeLayers, arg)]);
  }

  /** A `LayerList`. `hasDst` is false only for the zero value; `routed`
      records that `l.Happen` is registered at the root of the destination;
      `flushes` are the rectangles passed to the destination's `Flush`, in
      order. A removed layer keeps its identity, image and Dispatch. */
  class LayerList {
    var own: Trie<Owner>
    var hasDst: bool
    var routed: bool
    var flushes: seq<Rect>
    var order: seq<LayerId>
    var removed: set<LayerId>
    var next: nat
    var images: map<LayerId, Rect>
    var tries: map<LayerId, Trie<nat>>

    /** Layers are numbered from 0; each is either listed once or removed;
        every layer has an image and a Dispatch. */
    ghost predicate Valid()
      reads this
    {
      Distinct(order) &&
      (forall id :: id in order ==> id < next) &&
      (forall id :: id in removed ==> id < next) &&
      (forall id :: 0 <= id < next ==> (id in order <==> id !in removed)) &&
      (forall id :: id in images <==> 0 <= id < next) &&
      (forall id :: id in tries <==> 0 <= id < next)
    }

    /** The zero `LayerList`: no destination, no handlers, no layers. */
    constructor Zero()
      ensures Valid() && !hasDst && !routed && own == EmptyTrie()
      ensures order == [] && removed == {} && next == 0 && flushes == []
    {
      own := EmptyTrie();
      hasDst := false;
      routed := false;
      flushes := [];
      order := [];
      removed := {};
      next := 0;
      images := map[];
      tries := map[];
    }

    /** `NewLayerList`: route the destination's events here, register the
        resize handler, and dispatch one resize carrying the destination's
        bounds; there are no layers yet, so it changes nothing. */
    constructor NewLayerList(dstImage: Rect)
      ensures Valid() && hasDst && routed
      ensures own == Insert(EmptyTrie(), ["resize"], ResizeLayers)
      ensures order == [] && removed == {} && next == 0 && flushes == [] && images == map[]
    {
      own := EmptyTrie();
      hasDst := true;
      routed := true;
      flushes := [];
      order := [];
      removed := {};
      next := 0;
      images := map[];
      tries := map[];
      new;
      own := Insert(own, ["resize"], ResizeLayers);
      var r := InitialHappen(dstImage);
    }

    /** The resize `NewLayerList` dispatches before any layer exists. */
    method InitialHappen(dstImage: Rect) returns (r: Result<bool>)
      requires Valid() && order == [] && images == map[]
      requires own == Insert(EmptyTrie(), ["resize"], ResizeLayers)
      modifies this`images
      ensures Valid() && images == map[]
      ensures r == Ok(false)
    {
      var xs := [dstImage.min.x, dstImage.min.y, dstImage.max.x, dstImage.max.y];
      var ev := Sprint([Str("resize")] + Ints(xs));
      var fire := (h: nat, s: string) => false;
      InitialResize(xs, fire);
      var d := Descend(own, Segments(ev), OwnFire(fire));
      assert d.calls == [Call(ResizeLayers, Join(Printed(Ints(xs))))];
      assert !SomeResizeFails(d.calls, hasDst, order);
      assert Calls(order, ev) == [];
      r := Happen(ev, fire, dstImage);
    }

    /** The resize handler: scan up to four integers (they are not used),
        then give every listed layer, back to front, an image with the
        destination's current bounds. */
    method ResizeHandler(arg: string, dstImage: Rect) returns (r: Result<()>)
      requires Valid()
      modifies this`images
      ensures Valid()
      ensures r.Panic? <==> ResizeFails(arg, hasDst, order)
      ensures r.Ok? ==> images == Resized(old(images), order, dstImage)
      ensures r.Panic? ==> images == old(images)
    {
      var xs := new int[4];
      var scanned := Sscan(arg, xs);
      if scanned.Panic? {
        return Panic(scanned.reason);
      }
      if order != [] && !hasDst {
        return Panic(NilDereference);
      }
      images := ResizeBackToFront(images, order, dstImage);
      return Ok(());
    }

    /** `Happen`: the list's own Dispatch first (its resize handler never
        consumes), then each listed layer's Dispatch, front to back; the
        first consumer ends the dispatch. `dstImage` is the bounds the
        destination's image has at the time. */
    method Happen(event: string, fire: (nat, string) -> bool, dstImage: Rect) returns (r: Result<bool>)
      requires Valid()
      modifies this`images
      ensures Valid()
      ensures var d := Descend(own, Segments(event), OwnFire(fire));
              (r.Panic? <==> SomeResizeFails(d.calls, hasDst, order)) &&
              (r.Ok? ==> images == if Resizes(d.calls) then Resized(old(images), order, dstImage) else old(images)) &&
              (r.Panic? ==> images == old(images) || images == Resized(old(images), order, dstImage)) &&
              (r.Ok? ==> r.value == (d.consumed || UntilConsumed(Calls(order, event), LayerFire(tries, fire)).consumed))
    {
      var segs := Segments(event);
      var d := Descend(own, segs, OwnFire(fire));
      var res := RunResizes(d.calls, dstImage);
      if res.Panic? {
        return Panic(res.reason);
      }
      if d.consumed {
        return Ok(true);
      }
      assert forall id :: id in order ==> id in tries;
      var consumed := OfferLayers(order, tries, event, fire);
      return Ok(consumed);
    }

    /** The resize handler's share of the calls of one dispatch of the own
        Dispatch, in order; the first panic ends the dispatch. */
    method RunResizes(cs: seq<Call<Owner>>, dstImage: Rect) returns (r: Result<()>)
      requires Valid()
      modifies this`images
      ensures Valid()
      ensures r.Panic? <==> SomeResizeFails(cs, hasDst, order)
      ensures r.Ok? ==> images == if Resizes(cs) then Resized(old(images), order, dstImage) else old(images)
      ensures r.Panic? ==> images == old(images) || images == Resized(old(images), order, dstImage)
    {
      var k := 0;
      while k < |cs|
        invariant 0 <= k <= |cs| && Valid()
        invariant forall j :: 0 <= j < k && cs[j].handler.ResizeLayers? ==> !ResizeFails(cs[j].arg, hasDst, order)
        invariant images == if Resizes(cs[..k]) then Resized(old(images), order, dstImage) else old(images)
      {
        if cs[k].handler.ResizeLayers? {
          var res := ResizeHandler(cs[k].arg, dstImage);
          if res.Panic? {
            return Panic(res.reason);
          }
          assert cs[..k + 1][k].handler.ResizeLayers?;
          if Resizes(cs[..k]) {
            ResizedTwice(old(images), order, dstImage);
          }
        } else {
          assert Resizes(cs[..k + 1]) == Resizes(cs[..k]) by {
            if Resizes(cs[..k + 1]) {
              var j :| 0 <= j < k + 1 && cs[..k + 1][j].handler.ResizeLayers?;
              assert cs[..k][j].handler.ResizeLayers?;
            }
          }
        }
        k := k + 1;
      }
      assert cs[..k] == cs;
      return Ok(());
    }

    /** `Add`: a new layer at the front, its image as large as the
        destination's; the zero list has no destination to ask. */
    method Add(dstImage: Rect) returns (r: Result<LayerId>)
      requires Valid()
      modifies this
      ensures Valid()
      ensures !old(hasDst) ==> r == Panic(NilDereference) && unchanged(this)
      ensures old(hasDst) ==>
                r == Ok(old(next)) && next == old(next) + 1 &&
                order == [r.value] + old(order) &&
                images == old(images)[r.value := dstImage] &&
                tries == old(tries)[r.value := EmptyTrie()]
      ensures own == old(own) && hasDst == old(hasDst) && routed == old(routed) &&
              flushes == old(flushes) && removed == old(removed)
    {
      if !hasDst {
        return Panic(NilDereference);
      }
      var id := next;
      assert id !in order;
      next := next + 1;
      images := images[id := dstImage];
      tries := tries[id := EmptyTrie()];
      order := [id] + order;
      return Ok(id);
    }

    /** `Remove`: a removed layer cannot be removed again; otherwise exactly
        that layer leaves the list and is marked removed. */
    method Remove(id: LayerId) returns (r: Result<()>)
      requires Valid() && id < next
      modifies this
      ensures Valid()
      ensures old(id in removed) <==> r.Panic?
      ensures r.Panic? ==> r.reason == "layer: Remove: layer already removed" && unchanged(this)
      ensures r.Ok? ==> order == Without(old(order), id) && removed == old(removed) + {id}
      ensures own == old(own) && hasDst == old(hasDst) && routed == old(routed) && flushes == old(flushes) &&
              next == old(next) && images == old(images) && tries == old(tries)
    {
      if id in removed {
        return Panic("layer: Remove: layer already removed");
      }
      order := Without(order, id);
      removed := removed + {id};
      return Ok(());
    }

    /** `Front`: a removed layer cannot be brought to the front; otherwise
        that layer moves to the head and the others keep their order. */
    method Front(id: LayerId) returns (r: Result<()>)
      requires Valid() && id < next
      modifies this
      ensures Valid()
      ensures old(id in removed) <==> r.Panic?
      ensures r.Panic? ==> r.reason == "layer: Front: layer removed"
      ensures r.Ok? ==> order == [id] + Without(old(order), id)
      ensures r.Panic? ==> order == old(order)
      ensures own == old(own) && hasDst == old(hasDst) && routed == old(routed) && flushes == old(flushes) &&
              removed == old(removed) && next == old(next) && images == old(images) && tries == old(tries)
    {
      if id in removed {
        return Panic("layer: Front: layer removed");
      }
      order := MoveToFront(order, id);
      return Ok(());
    }

    /** `Flush`: composite the layers back to front, so that the front layer
        is painted last (on top), then flush the destination once. */
    method Flush(rect: Rect) returns (r: Result<seq<LayerId>>)
      requires Valid()
      modifies this`flushes
      ensures !hasDst ==> r == Panic("layer: Flush: no destination") && flushes == old(flushes)
      ensures hasDst ==> r == Ok(Reverse(order)) && flushes == old(flushes) + [rect]
    {
      if !hasDst {
        return Panic("layer: Flush: no destination");
      }
      var painted: seq<LayerId> := [];
      var i := |order|;
      while i > 0
        invariant 0 <= i <= |order|
        invariant painted == Reverse(order[i..])
      {
        i := i - 1;
        assert order[i..] == [order[i]] + order[i + 1..];
        painted := painted + [order[i]];
      }
      assert order[0..] == order;
      flushes := flushes + [rect];
      return Ok(painted);
    }

    /** `Layer.Flush`: a removed layer has no list to flush. */
    method FlushLayer(id: LayerId, rect: Rect) returns (r: Result<seq<LayerId>>)
      requires Valid() && id < next
      modifies this`flushes
      ensures id in removed ==> r == Panic("layer: Flush: layer removed") && flushes == old(flushes)
      ensures id !in removed && !hasDst ==> r == Panic("layer: Flush: no destination") && flushes == old(flushes)
      ensures id !in removed && hasDst ==> r == Ok(Reverse(order)) && flushes == old(flushes) + [rect]
    {
      if id in removed {
        return Panic("layer: Flush: layer removed");
      }
      r := Flush(rect);
    }

    /** `Event` on the list itself. */
    method Event(pattern: string, h: nat)
      requires Valid()
      modifies this`own
      ensures Valid() && own == Insert(old(own), Segments(pattern), Client(h))
    {
      own := Insert(own, Segments(pattern), Client(h));
    }

    /** `Event` on a layer's own Dispatch. */
    method LayerEvent(id: LayerId, pattern: string, h: nat)
      requires Valid() && id < next
      modifies this`tries
      ensures Valid() && tries == old(tries)[id := Insert(old(tries)[id], Segments(pattern), h)]
    {
      tries := tries[id := Insert(tries[id], Segments(pattern), h)];
    }
  }

  /** A layer just added to a list with a destination is composited last
      by the next flush, so it ends up on top. */
  method AddedOnTop(l: LayerList, dstImage: Rect, rect: Rect) returns (id: Result<LayerId>, painted: Result<seq<LayerId>>)
    requires l.Valid() && l.hasDst
    modifies l
    ensures id.Ok? && painted.Ok? && |painted.value| == |old(l.order)| + 1
    ensures painted.value[|painted.value| - 1] == id.value
  {
    id := l.Add(dstImage);
    painted := l.Flush(rect);
  }

  /** A layer brought to the front is composited last by the next flush,
      so it ends up on top; a removed one cannot be brought back. */
  method FrontedOnTop(l: LayerList, id: LayerId, rect: Rect) returns (front: Result<()>, painted: Result<seq<LayerId>>)
    requires l.Valid() && l.hasDst && id < l.next
    modifies l
    ensures front.Panic? <==> id in old(l.removed)
    ensures front.Ok? ==> painted.Ok? && |painted.value| >= 1 && painted.value[|painted.value| - 1] == id
  {
    front := l.Front(id);
    painted := l.Flush(rect);
  }
}
