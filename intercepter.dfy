/** Package layout, file intercepter.go: `RedrawIntercepter.Intercept`
    puts itself between an environment and its user. Every event is passed
    on, and right after each resize it submits one draw command that
    redraws the resized rectangle and reports it as changed. It keeps no
    state, so it is a function of the event trace. When the environment's
    events end, it returns without closing the user's events channel;
    `InterceptClosing` is the output with that close. */
module Intercepter {
  import opened Geom
  import opened Events

  /** What the intercepter emits, in order: an event passed on to the
      user, a redraw command of a rectangle sent to the environment, or the
      close of the user's events channel. */
  datatype Out = Pass(e: Event) | Redraw(r: Rect) | CloseEvents

  /** What one event turns into. */
  function Handle(e: Event): (o: seq<Out>)
    ensures |o| >= 1 && o[0] == Pass(e)
  {
    if e.Resize? then [Pass(e), Redraw(e.r)] else [Pass(e)]
  }

  /** The output for a whole trace of events. */
  function Intercept(es: seq<Event>): seq<Out>
  {
    if es == [] then [] else Intercept(es[..|es| - 1]) + Handle(es[|es| - 1])
  }

  /** The events passed on to the user. */
  function Passed(o: seq<Out>): seq<Event>
  {
    if o == [] then []
    else Passed(o[..|o| - 1]) + (if o[|o| - 1].Pass? then [o[|o| - 1].e] else [])
  }

  /** The rectangles redrawn. */
  function Redrawn(o: seq<Out>): seq<Rect>
  {
    if o == [] then []
    else Redrawn(o[..|o| - 1]) + (if o[|o| - 1].Redraw? then [o[|o| - 1].r] else [])
  }

  /** The rectangles of the resizes of a trace, in order. */
  function ResizeRects(es: seq<Event>): seq<Rect>
  {
    if es == [] then []
    else ResizeRects(es[..|es| - 1]) + (if es[|es| - 1].Resize? then [es[|es| - 1].r] else [])
  }

  lemma HandleParts(e: Event)
    ensures Passed(Handle(e)) == [e]
    ensures Redrawn(Handle(e)) == if e.Resize? then [e.r] else []
  {
    assert Passed([]) == [] && Redrawn([]) == [];
    if e.Resize? {
      assert [Pass(e), Redraw(e.r)][..1] == [Pass(e)];
      assert [Pass(e)][..0] == [];
    } else {
      assert [Pass(e)][..0] == [];
    }
  }

  lemma {:induction false} PassedAppend(a: seq<Out>, b: seq<Out>)
    ensures Passed(a + b) == Passed(a) + Passed(b)
    ensures Redrawn(a + b) == Redrawn(a) + Redrawn(b)
    decreases |b|
  {
    if b == [] {
      assert a + b == a;
    } else {
      var c := b[..|b| - 1];
      assert (a + b)[..|a + b| - 1] == a + c;
      PassedAppend(a, c);
    }
  }

  /** The user sees exactly the environment's events, unchanged and in
      order. */
  lemma {:induction false} PassesEverything(es: seq<Event>)
    ensures Passed(Intercept(es)) == es
  {
    if es != [] {
      var init := es[..|es| - 1];
      var e := es[|es| - 1];
      PassesEverything(init);
      PassedAppend(Intercept(init), Handle(e));
      HandleParts(e);
      assert es == init + [e];
    }
  }

  /** One redraw per resize, of the resized rectangle, in the order of the
      resizes. */
  lemma {:induction false} RedrawsEachResize(es: seq<Event>)
    ensures Redrawn(Intercept(es)) == ResizeRects(es)
  {
    if es != [] {
      var init := es[..|es| - 1];
      var e := es[|es| - 1];
      RedrawsEachResize(init);
      PassedAppend(Intercept(init), Handle(e));
      HandleParts(e);
    }
  }

  /** Each redraw comes right after the resize it answers. */
  lemma {:induction false} RedrawFollowsResize(es: seq<Event>, k: nat)
    requires k < |Intercept(es)| && Intercept(es)[k].Redraw?
    ensures k >= 1 && Intercept(es)[k - 1] == Pass(Resize(Intercept(es)[k].r))
  {
    var init := es[..|es| - 1];
    var a, h := Intercept(init), Handle(es[|es| - 1]);
    assert Intercept(es) == a + h;
    if k < |a| {
      RedrawFollowsResize(init, k);
    } else {
      assert h[k - |a|].Redraw?;
      assert k - |a| == 1;
    }
  }

  /** As written, the loop over the environment's events returns without
      closing the channel it fills: whatever the trace, the user's events
      never close, although the environment's have ended. */
  lemma {:induction false} InterceptNeverCloses(es: seq<Event>)
    ensures CloseEvents !in Intercept(es)
  {
    if es != [] {
      InterceptNeverCloses(es[..|es| - 1]);
      var e := es[|es| - 1];
      assert CloseEvents !in Handle(e);
    }
  }

  /** The output once the environment's events have ended, with the close
      an `Env` promises its user: the loop closes its channel on the way
      out. */
  function InterceptClosing(es: seq<Event>): seq<Out>
  {
    Intercept(es) + [CloseEvents]
  }

  /** With the close, the user still sees every event in order, then the
      close exactly once, after everything else. */
  lemma InterceptClosingEnds(es: seq<Event>)
    ensures var o := InterceptClosing(es);
            Passed(o) == es && |o| >= 1 && o[|o| - 1] == CloseEvents &&
            CloseEvents !in o[..|o| - 1]
  {
    var o := InterceptClosing(es);
    PassesEverything(es);
    PassedAppend(Intercept(es), [CloseEvents]);
    assert Passed([CloseEvents]) == [] by { assert [CloseEvents][..0] == []; }
    InterceptNeverCloses(es);
    assert o[..|o| - 1] == Intercept(es);
  }
}
