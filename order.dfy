/** The z-order of layers as the three layer lists keep it in a
    `container/list`: a sequence of layer identities, front first. The
    list operations used are `PushFront`, `PushBack`, `Remove` and
    `MoveToFront`; `Remove` and `MoveToFront` of an element that is not in
    the list do nothing. */
module Order {
  import opened Geom
  import opened Dispatch

  /** The identity of a `*Layer`: layers are numbered in creation order. */
  type LayerId = nat

  predicate Distinct(s: seq<LayerId>)
  {
    forall i, j :: 0 <= i < j < |s| ==> s[i] != s[j]
  }

  /** `Remove`: the list without x; the other entries keep their order. */
  function Without(s: seq<LayerId>, x: LayerId): (r: seq<LayerId>)
    ensures forall y :: y in r <==> y in s && y != x
    ensures |r| <= |s|
    ensures Distinct(s) ==> Distinct(r)
  {
    if s == [] then []
    else if s[0] == x then Without(s[1..], x)
    else
      var rest := Without(s[1..], x);
      assert Distinct(s) ==> Distinct(s[1..]) && s[0] !in s[1..];
      [s[0]] + rest
  }

  /** Removing an entry of a list without repetitions takes out exactly that
      position. */
  lemma {:induction false} WithoutAt(s: seq<LayerId>, k: nat)
    requires Distinct(s) && k < |s|
    ensures Without(s, s[k]) == s[..k] + s[k + 1..]
  {
    if k == 0 {
      WithoutAbsent(s[1..], s[0]);
      assert s[..0] + s[1..] == s[1..];
    } else {
      assert s[1..][k - 1] == s[k];
      assert Distinct(s[1..]);
      WithoutAt(s[1..], k - 1);
      assert s[..k] == [s[0]] + s[1..][..k - 1];
      assert s[k + 1..] == s[1..][k..];
    }
  }

  /** Removing what is not there changes nothing. */
  lemma {:induction false} WithoutAbsent(s: seq<LayerId>, x: LayerId)
    requires x !in s
    ensures Without(s, x) == s
  {
    if s != [] {
      assert x !in s[1..];
      WithoutAbsent(s[1..], x);
      assert [s[0]] + s[1..] == s;
    }
  }

  /** `MoveToFront`: a listed layer goes to the head and the others keep
      their order; an unlisted one changes nothing. */
  function MoveToFront(s: seq<LayerId>, x: LayerId): (r: seq<LayerId>)
    ensures x in s ==> |r| >= 1 && r[0] == x
    ensures forall y :: y in r <==> y in s
    ensures Distinct(s) ==> Distinct(r)
  {
    if x in s then [x] + Without(s, x) else s
  }

  /** Moving a listed layer to the front of a list without repetitions
      rearranges it: the same layers, the same number of them. */
  lemma MoveToFrontPermutes(s: seq<LayerId>, x: LayerId)
    requires Distinct(s)
    ensures multiset(MoveToFront(s, x)) == multiset(s)
  {
    if x in s {
      var k :| 0 <= k < |s| && s[k] == x;
      WithoutAt(s, k);
      assert s == s[..k] + [s[k]] + s[k + 1..];
    }
  }

  /** The list read from the back: the order of a back-to-front walk. */
  function Reverse(s: seq<LayerId>): (r: seq<LayerId>)
    ensures |r| == |s|
    ensures forall i :: 0 <= i < |s| ==> r[i] == s[|s| - 1 - i]
  {
    if s == [] then [] else Reverse(s[1..]) + [s[0]]
  }

  /** Every listed layer's image given bounds b; every other image kept. */
  function Resized(images: map<LayerId, Rect>, ids: seq<LayerId>, b: Rect): map<LayerId, Rect>
  {
    map id | id in images :: if id in ids then b else images[id]
  }

  /** Resizing twice to the same bounds is resizing once. */
  lemma ResizedTwice(images: map<LayerId, Rect>, ids: seq<LayerId>, b: Rect)
    ensures Resized(Resized(images, ids, b), ids, b) == Resized(images, ids, b)
  {
  }

  /** The loop of `Dst` and of the resize handlers over `e = Back(); e !=
      nil; e = e.Prev()`: each layer's image is replaced by one with bounds
      b. */
  method ResizeBackToFront(images: map<LayerId, Rect>, ids: seq<LayerId>, b: Rect) returns (m: map<LayerId, Rect>)
    requires forall id :: id in ids ==> id in images
    ensures m == Resized(images, ids, b)
  {
    m := images;
    var i := |ids|;
    while i > 0
      invariant 0 <= i <= |ids|
      invariant m == Resized(images, ids[i..], b)
    {
      i := i - 1;
      assert forall id :: id in ids[i..] <==> id == ids[i] || id in ids[i + 1..];
      m := m[ids[i] := b];
    }
  }

  /** The loop of `Layers.Dst` over `e = Front(); e != nil; e = e.Next()`. */
  method ResizeFrontToBack(images: map<LayerId, Rect>, ids: seq<LayerId>, b: Rect) returns (m: map<LayerId, Rect>)
    requires forall id :: id in ids ==> id in images
    ensures m == Resized(images, ids, b)
  {
    m := images;
    var i := 0;
    while i < |ids|
      invariant 0 <= i <= |ids|
      invariant m == Resized(images, ids[..i], b)
    {
      assert forall id :: id in ids[..i + 1] <==> id == ids[i] || id in ids[..i];
      m := m[ids[i] := b];
      i := i + 1;
    }
    assert ids[..i] == ids;
  }

  /** A layer consumes an event when its own Dispatch does. */
  function LayerFire(tries: map<LayerId, Trie<nat>>, fire: (nat, string) -> bool): (LayerId, string) -> bool
  {
    (id: LayerId, ev: string) => id in tries && Descend(tries[id], Segments(ev), fire).consumed
  }

  /** The layers, front to back, each through its own Dispatch, until one
      consumes the event. */
  method OfferLayers(order: seq<LayerId>, tries: map<LayerId, Trie<nat>>, event: string, fire: (nat, string) -> bool) returns (consumed: bool)
    requires forall id :: id in order ==> id in tries
    ensures consumed == UntilConsumed(Calls(order, event), LayerFire(tries, fire)).consumed
  {
    ghost var cs := Calls(order, event);
    ghost var lf := LayerFire(tries, fire);
    ConsumedIff(cs, lf);
    var segs := Segments(event);
    var i := 0;
    while i < |order|
      invariant 0 <= i <= |order|
      invariant forall j :: 0 <= j < i ==> !lf(cs[j].handler, cs[j].arg)
    {
      assert order[i] in order;
      consumed := HappenAt(tries[order[i]], segs, fire);
      assert cs[i] == Call(order[i], event);
      if consumed {
        assert lf(cs[i].handler, cs[i].arg);
        return;
      }
      i := i + 1;
    }
    return false;
  }
}
