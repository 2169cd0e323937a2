/** The two example buttons, examples/layout/button.go and
    examples/imageviewer/button.go. Each runs one loop over its events,
    keeping its rectangle and whether the pointer is over it and whether it
    is pressed; it redraws itself when one of those changes and fires its
    action when a press inside it is released inside it. The two differ
    only in which events they read and how: the layout button reads typed
    events, any mouse button and pointer moves; the image viewer's matches
    the string forms "resize/%d/%d/%d/%d", "mo/down/%d/%d/left" and
    "mo/up/%d/%d/left", so only the left button counts, pointer moves are
    ignored, and the rectangle goes through `image.Rect`. */
module Buttons {
  import opened Geom
  import opened Events

  /** What an event means to a button. */
  datatype Input = Resized(r: Rect) | Hover(p: Point) | Press(p: Point) | Release(p: Point) | Ignored

  /** The loop's variables `r`, `over` and `pressed`. */
  datatype State = State(r: Rect, over: bool, pressed: bool)

  /** A redraw with the look of a state, the action, or the final close of
      the draw channel. */
  datatype Output = Redraw(r: Rect, over: bool, pressed: bool) | Action | Close

  datatype Trace = Trace(state: State, outs: seq<Output>)

  /** The zero values of the loop's variables. */
  const Initial := State(ZR, false, false)

  function Look(s: State): Output
  {
    Redraw(s.r, s.over, s.pressed)
  }

  /** The theme colour a redraw fills with. */
  datatype Shade = ButtonUp | ButtonOver | ButtonDown

  /** Pressed wins over hovered, which wins over neither. */
  function ShadeOf(o: Output): Shade
    requires o.Redraw?
  {
    if o.pressed then ButtonDown else if o.over then ButtonOver else ButtonUp
  }

  /** examples/layout/button.go: the type switch over typed events. */
  function LayoutInput(e: Event): Input
  {
    match e
    case Resize(r) => Resized(r)
    case MoMove(p) => Hover(p)
    case MoDown(p, _) => Press(p)
    case MoUp(p, _) => Release(p)
    case _ => Ignored
  }

  /** examples/imageviewer/button.go: the three patterns, the rectangle
      rebuilt with `image.Rect`. */
  function ViewerInput(e: Event): Input
  {
    match e
    case Resize(r) => Resized(MakeRect(r.min.x, r.min.y, r.max.x, r.max.y))
    case MoDown(p, ButtonLeft) => Press(p)
    case MoUp(p, ButtonLeft) => Release(p)
    case _ => Ignored
  }

  /** One turn of the loop. */
  function Step(s: State, i: Input): (t: Trace)
    ensures forall k :: 0 <= k < |t.outs| && t.outs[k].Redraw? ==> t.outs[k] == Look(t.state)
    ensures Action in t.outs <==> i.Release? && s.pressed && In(i.p, s.r)
    ensures Close !in t.outs
    ensures t.outs == [] <==> t.state == s && !i.Resized?
    ensures i.Release? ==> !t.state.pressed
    ensures t.state.pressed && !s.pressed ==> i.Press? && In(i.p, s.r)
  {
    match i
    case Resized(r) =>
      var n := s.(r := r);
      Trace(n, [Look(n)])
    case Hover(p) =>
      var over := In(p, s.r);
      if over != s.over then Trace(s.(over := over), [Look(s.(over := over))]) else Trace(s, [])
    case Press(p) =>
      var pressed := In(p, s.r);
      if pressed != s.pressed then Trace(s.(pressed := pressed), [Look(s.(pressed := pressed))]) else Trace(s, [])
    case Release(p) =>
      if s.pressed then
        var n := s.(pressed := false);
        Trace(n, (if In(p, s.r) then [Action] else []) + [Look(n)])
      else Trace(s, [])
    case Ignored => Trace(s, [])
  }

  /** The loop over a whole trace of events, from a state. */
  function Run(read: Event -> Input, s: State, es: seq<Event>): Trace
  {
    if es == [] then Trace(s, [])
    else
      var before := Run(read, s, es[..|es| - 1]);
      var t := Step(before.state, read(es[|es| - 1]));
      Trace(t.state, before.outs + t.outs)
  }

  /** `Button`: the loop until the events end, then closing the draw
      channel. */
  method Button(read: Event -> Input, es: seq<Event>) returns (outs: seq<Output>)
    ensures outs == Run(read, Initial, es).outs + [Close]
  {
    var s := Initial;
    outs := [];
    var k := 0;
    while k < |es|
      invariant 0 <= k <= |es|
      invariant Run(read, Initial, es[..k]) == Trace(s, outs)
    {
      assert es[..k + 1][..k] == es[..k];
      var t := Step(s, read(es[k]));
      s := t.state;
      outs := outs + t.outs;
      k := k + 1;
    }
    assert es[..k] == es;
    outs := outs + [Close];
  }

  function Count(outs: seq<Output>, o: Output): nat
  {
    if outs == [] then 0 else Count(outs[..|outs| - 1], o) + (if outs[|outs| - 1] == o then 1 else 0)
  }

  lemma {:induction false} CountAppend(a: seq<Output>, b: seq<Output>, o: Output)
    ensures Count(a + b, o) == Count(a, o) + Count(b, o)
    decreases |b|
  {
    if b == [] {
      assert a + b == a;
    } else {
      assert (a + b)[..|a + b| - 1] == a + b[..|b| - 1];
      CountAppend(a, b[..|b| - 1], o);
    }
  }

  /** How many events of a trace read as a press. */
  function Presses(read: Event -> Input, es: seq<Event>): nat
  {
    if es == [] then 0 else Presses(read, es[..|es| - 1]) + (if read(es[|es| - 1]).Press? then 1 else 0)
  }

  lemma StepActions(s: State, i: Input)
    ensures Count(Step(s, i).outs, Action) == if Action in Step(s, i).outs then 1 else 0
  {
    var o := Step(s, i).outs;
    if i.Release? && s.pressed {
      var n := s.(pressed := false);
      if In(i.p, s.r) {
        assert o == [Action, Look(n)];
        assert o[..1] == [Action] && [Action][..0] == [];
      } else {
        assert o == [Look(n)];
      }
    } else {
      assert Action !in o;
      assert |o| <= 1;
      if |o| == 1 {
        assert o[..0] == [];
      }
    }
  }

  /** Every action is paid for by an earlier press that landed inside: a
      trace fires at most as many actions as it has presses, and one more
      press is used up while the button is held. */
  lemma {:induction false} ActionsNeedPresses(read: Event -> Input, es: seq<Event>)
    ensures var t := Run(read, Initial, es);
            Count(t.outs, Action) + (if t.state.pressed then 1 else 0) <= Presses(read, es)
  {
    if es != [] {
      var init := es[..|es| - 1];
      var before := Run(read, Initial, init);
      ActionsNeedPresses(read, init);
      var i := read(es[|es| - 1]);
      CountAppend(before.outs, Step(before.state, i).outs, Action);
      StepActions(before.state, i);
    }
  }

  /** A press and a release inside a resized layout button fire its
      action once, drawing it pressed and then released. */
  lemma Click(r: Rect, p: Point)
    requires In(p, r)
    ensures Run(LayoutInput, Initial, [Resize(r), MoDown(p, ButtonLeft), MoUp(p, ButtonLeft)]).outs ==
            [Redraw(r, false, false), Redraw(r, false, true), Action, Redraw(r, false, false)]
  {
    var es := [Resize(r), MoDown(p, ButtonLeft), MoUp(p, ButtonLeft)];
    assert es[..1] == [Resize(r)] && es[..1][..0] == [];
    assert Run(LayoutInput, Initial, []) == Trace(Initial, []);
    var r1 := Run(LayoutInput, Initial, es[..1]);
    assert r1 == Trace(State(r, false, false), [Redraw(r, false, false)]);
    assert es[..2][..1] == es[..1];
    var r2 := Run(LayoutInput, Initial, es[..2]);
    assert r2 == Trace(State(r, false, true), r1.outs + [Redraw(r, false, true)]);
    assert es[..3][..2] == es[..2] && es[..3] == es;
  }

  /** The image viewer's button ignores the right button: a right click
      inside fires nothing and draws nothing. */
  lemma RightClickIgnored(r: Rect, p: Point)
    requires WellFormed(r) && In(p, r)
    ensures Run(ViewerInput, Initial, [Resize(r), MoDown(p, ButtonRight), MoUp(p, ButtonRight)]).outs ==
            [Redraw(r, false, false)]
  {
    var es := [Resize(r), MoDown(p, ButtonRight), MoUp(p, ButtonRight)];
    assert es[..1] == [Resize(r)] && es[..1][..0] == [];
    assert Run(ViewerInput, Initial, []) == Trace(Initial, []);
    var r1 := Run(ViewerInput, Initial, es[..1]);
    assert r1 == Trace(State(r, false, false), [Redraw(r, false, false)]);
    assert es[..2][..1] == es[..1];
    var r2 := Run(ViewerInput, Initial, es[..2]);
    assert r2 == r1;
    assert es[..3][..2] == es[..2] && es[..3] == es;
  }

  /** The image viewer's button never reads a pointer move, so it is never
      drawn hovered. */
  lemma {:induction false} ViewerNeverHovered(s: State, es: seq<Event>)
    requires !s.over
    ensures !Run(ViewerInput, s, es).state.over
    ensures forall k :: 0 <= k < |Run(ViewerInput, s, es).outs| && Run(ViewerInput, s, es).outs[k].Redraw? ==>
              ShadeOf(Run(ViewerInput, s, es).outs[k]) != ButtonOver
  {
    if es != [] {
      var init := es[..|es| - 1];
      ViewerNeverHovered(s, init);
      var before := Run(ViewerInput, s, init);
      var t := Step(before.state, ViewerInput(es[|es| - 1]));
      assert !t.state.over;
      assert Run(ViewerInput, s, es).outs == before.outs + t.outs;
    }
  }
}
