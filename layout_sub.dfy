/** Package layout, file sub.go: a `Sub` is a rectangle of another
    `EventImageFlusher` (its parent). It is a Dispatch whose "resize"
    handler re-cuts the sub-image from the parent's image; flushing clips
    to the sub-image and flushes the parent. Only the bounds of the
    sub-image are kept. */
module Sub {
  import opened Outcome
  import opened Geom
  import opened Path
  import opened Dispatch

  /** The handlers of a Sub's Dispatch: the "resize" handler `NewSub`
      registers, or one registered through the embedded `Event`. */
  datatype Handler = ResizeSub | Client(h: nat)

  function OwnFire(fire: (nat, string) -> bool): (Handler, string) -> bool
  {
    (o: Handler, arg: string) => o.Client? && fire(o.h, arg)
  }

  /** What the resize handler cuts for an argument: the coordinates it
      scans (0 for a part that does not read or is missing) as a
      normalised rectangle, clipped to the parent's image; an empty cut is
      the zero rectangle. */
  function Cut(arg: string, parent: Rect): Rect
  {
    var v := Scanned(Split(arg), [0, 0, 0, 0]);
    Intersect(MakeRect(v[0], v[1], v[2], v[3]), parent)
  }

  /** The argument of the last call to the resize handler, if any. */
  function LastResize(cs: seq<Call<Handler>>): Option<string>
  {
    if cs == [] then None
    else if cs[|cs| - 1].handler.ResizeSub? then Some(cs[|cs| - 1].arg)
    else LastResize(cs[..|cs| - 1])
  }

  lemma LastResizeStep(cs: seq<Call<Handler>>, k: nat)
    requires k < |cs|
    ensures LastResize(cs[..k + 1]) == if cs[k].handler.ResizeSub? then Some(cs[k].arg) else LastResize(cs[..k])
  {
    assert cs[..k + 1][..k] == cs[..k];
  }

  /** The sub-image after a dispatch whose last resize argument, if any,
      is last. */
  function SubAfter(last: Option<string>, before: Rect, parent: Rect): Rect
  {
    if last.Some? then Cut(last.value, parent) else before
  }

  /** Some call to the resize handler has more parts than its four
      targets. */
  predicate SomeResizeFails(cs: seq<Call<Handler>>)
  {
    exists j :: 0 <= j < |cs| && ResizeFails(cs[j])
  }

  /** A call to the resize handler whose argument has more than four
      parts. */
  predicate ResizeFails(c: Call<Handler>)
  {
    c.handler.ResizeSub? && |Split(c.arg)| > 4
  }

  /** The resize event `NewSub` builds for r reaches exactly the resize
      handler, once, with the four printed coordinates. */
  lemma InitialResize(xs: seq<int>, fire: (nat, string) -> bool)
    requires |xs| == 4
    ensures var t := Insert(EmptyTrie<Handler>(), ["resize"], ResizeSub);
            var ev := Join(Printed([Str("resize")] + Ints(xs)));
            Descend(t, Segments(ev), OwnFire(fire)) == Dispatched(false, [Call(ResizeSub, Join(Printed(Ints(xs))))])
  {
    var t := Insert(EmptyTrie<Handler>(), ["resize"], ResizeSub);
    var child := Node([ResizeSub], map[]);
    assert ["resize"][1..] == [];
    assert Insert(EmptyTrie<Handler>(), [], ResizeSub) == child;
    assert t == Node([], map["resize" := child]);
    var parts := [Str("resize")] + Ints(xs);
    assert Printed(parts) == ["resize"] + Printed(Ints(xs));
    IntsNoSep(xs);
    assert NoSep(Printed(parts));
    SplitJoin(Printed(parts));
    var ev := Join(Printed(parts));
    assert Split("") == [""] && |Split(ev)| == 5;
    var segs := Segments(ev);
    assert segs == ["resize"] + Printed(Ints(xs));
    assert segs[1..] == Printed(Ints(xs));
    var f := OwnFire(fire);
    assert UntilConsumed(Calls(t.handlers, Join(segs)), f) == Dispatched(false, []);
    var arg := Join(segs[1..]);
    assert Calls(child.handlers, arg) == [Call(ResizeSub, arg)];
    assert UntilConsumed([Call(ResizeSub, arg)][1..], f) == Dispatched(false, []);
  }

  /** Scanning the printed coordinates of r recovers them, so the cut is r
      clipped to the parent. */
  lemma CutPrinted(r: Rect, parent: Rect)
    requires WellFormed(r)
    ensures var xs := [r.min.x, r.min.y, r.max.x, r.max.y];
            |Split(Join(Printed(Ints(xs))))| == 4 &&
            Cut(Join(Printed(Ints(xs))), parent) == Intersect(r, parent)
  {
    var xs := [r.min.x, r.min.y, r.max.x, r.max.y];
    ScanSprint(xs, [0, 0, 0, 0]);
  }

  /** The dispatch `NewSub` runs calls the resize handler once, with
      four coordinates, and cuts `image.Rect` of r from the parent. */
  lemma NewSubResize(r: Rect, parent: Rect, fire: (nat, string) -> bool)
    ensures var xs := [r.min.x, r.min.y, r.max.x, r.max.y];
            var d := Descend(Insert(EmptyTrie<Handler>(), ["resize"], ResizeSub),
                             Segments(Join(Printed([Str("resize")] + Ints(xs)))), OwnFire(fire));
            !SomeResizeFails(d.calls) && LastResize(d.calls).Some? &&
            Cut(LastResize(d.calls).value, parent) == Intersect(MakeRect(r.min.x, r.min.y, r.max.x, r.max.y), parent)
  {
    var xs := [r.min.x, r.min.y, r.max.x, r.max.y];
    InitialResize(xs, fire);
    ScanSprint(xs, [0, 0, 0, 0]);
    var arg := Join(Printed(Ints(xs)));
    var cs := [Call(ResizeSub, arg)];
    assert LastResize(cs) == Some(arg);
    assert Scanned(Split(arg), [0, 0, 0, 0]) == xs;
  }

  class Sub {
    var own: Trie<Handler>
    var sub: Rect
    var flushed: seq<Rect>

    /** `NewSub`: register the resize handler and dispatch one resize
        carrying r; `parent` is the bounds of the parent's image. */
    constructor NewSub(parent: Rect, r: Rect)
      ensures own == Insert(EmptyTrie(), ["resize"], ResizeSub) && flushed == []
      ensures sub == Intersect(MakeRect(r.min.x, r.min.y, r.max.x, r.max.y), parent)
      ensures WellFormed(r) ==> sub == Intersect(r, parent)
    {
      own := EmptyTrie();
      sub := ZR;
      flushed := [];
      new;
      own := Insert(own, ["resize"], ResizeSub);
      var res := InitialHappen(parent, r);
      if WellFormed(r) {
        CutPrinted(r, parent);
      }
    }

    /** The resize `NewSub` dispatches, carrying r. */
    method InitialHappen(parent: Rect, r: Rect) returns (res: Result<bool>)
      requires own == Insert(EmptyTrie(), ["resize"], ResizeSub)
      modifies this`sub
      ensures res == Ok(false)
      ensures sub == Intersect(MakeRect(r.min.x, r.min.y, r.max.x, r.max.y), parent)
    {
      var xs := [r.min.x, r.min.y, r.max.x, r.max.y];
      var ev := Sprint([Str("resize")] + Ints(xs));
      var fire := (h: nat, s: string) => false;
      NewSubResize(r, parent, fire);
      InitialResize(xs, fire);
      res := Happen(ev, fire, parent);
    }

    /** The resize handler: scan four coordinates and cut that rectangle
        out of the parent's image. It never consumes. */
    method ResizeHandler(arg: string, parent: Rect) returns (r: Result<()>)
      modifies this`sub
      ensures r.Panic? <==> |Split(arg)| > 4
      ensures r.Ok? ==> sub == Cut(arg, parent)
      ensures r.Panic? ==> sub == old(sub)
    {
      var xs := new int[4];
      xs[0], xs[1], xs[2], xs[3] := 0, 0, 0, 0;
      assert xs[..] == [0, 0, 0, 0];
      var scanned := Sscan(arg, xs);
      if scanned.Panic? {
        return Panic(scanned.reason);
      }
      sub := Intersect(MakeRect(xs[0], xs[1], xs[2], xs[3]), parent);
      return Ok(());
    }

    /** `Happen` on the Sub's Dispatch: the last resize handler call decides
        the sub-image; `parent` is the bounds of the parent's image. */
    method Happen(event: string, fire: (nat, string) -> bool, parent: Rect) returns (r: Result<bool>)
      modifies this`sub
      ensures var d := Descend(own, Segments(event), OwnFire(fire));
              (r.Panic? <==> SomeResizeFails(d.calls)) &&
              (r.Ok? ==> r.value == d.consumed) &&
              (r.Ok? && LastResize(d.calls).Some? ==> sub == Cut(LastResize(d.calls).value, parent)) &&
              (r.Ok? && LastResize(d.calls).None? ==> sub == old(sub))
    {
      var d := Descend(own, Segments(event), OwnFire(fire));
      var res := RunResizes(d.calls, parent);
      if res.Panic? {
        return Panic(res.reason);
      }
      return Ok(d.consumed);
    }

    /** The resize handler's share of the calls of one dispatch, in order;
        the first panic ends the dispatch. */
    method RunResizes(cs: seq<Call<Handler>>, parent: Rect) returns (r: Result<()>)
      modifies this`sub
      ensures r.Panic? <==> SomeResizeFails(cs)
      ensures r.Ok? && LastResize(cs).Some? ==> sub == Cut(LastResize(cs).value, parent)
      ensures r.Ok? && LastResize(cs).None? ==> sub == old(sub)
    {
      var k := 0;
      ghost var last: Option<string> := None;
      while k < |cs|
        invariant 0 <= k <= |cs| && last == LastResize(cs[..k])
        invariant forall j :: 0 <= j < k ==> !ResizeFails(cs[j])
        invariant sub == SubAfter(last, old(sub), parent)
      {
        LastResizeStep(cs, k);
        var res := RunOne(cs[k], parent);
        if res.Panic? {
          return Panic(res.reason);
        }
        if cs[k].handler.ResizeSub? {
          last := Some(cs[k].arg);
        }
        k := k + 1;
      }
      assert cs[..k] == cs;
      return Ok(());
    }

    /** One call of a dispatch: the resize handler's, or a client's, which
        leaves the sub-image alone. */
    method RunOne(c: Call<Handler>, parent: Rect) returns (r: Result<()>)
      modifies this`sub
      ensures r.Panic? <==> ResizeFails(c)
      ensures r.Ok? && c.handler.ResizeSub? ==> sub == Cut(c.arg, parent)
      ensures !(r.Ok? && c.handler.ResizeSub?) ==> sub == old(sub)
    {
      if c.handler.ResizeSub? {
        r := ResizeHandler(c.arg, parent);
      } else {
        r := Ok(());
      }
    }

    /** `Flush`: forward r clipped to the sub-image to the parent. */
    method Flush(rect: Rect)
      modifies this`flushed
      ensures flushed == old(flushed) + [Intersect(sub, rect)]
      ensures forall p :: In(p, flushed[|flushed| - 1]) <==> In(p, sub) && In(p, rect)
    {
      flushed := flushed + [Intersect(sub, rect)];
    }

    method Event(pattern: string, h: nat)
      modifies this`own
      ensures own == Insert(old(own), Segments(pattern), Client(h))
    {
      own := Insert(own, Segments(pattern), Client(h));
    }
  }
}
