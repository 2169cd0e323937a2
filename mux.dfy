/** File mux.go: a `Mux` shares one parent environment among many virtual
    ones. Every environment it makes, the master included, has a sink in
    the registry list `eventsIns`; parent events fan out to the whole list,
    and draw commands are relayed to the parent through one shared draw
    channel. Each method is one locked block or one goroutine step. */
module Mux {
  import opened Outcome
  import opened Events
  import opened Sinks

  class Mux {
    /** The master's identity: it is made first. */
    const master: EnvId
    var lastResize: Option<Event>
    var eventsIns: seq<EnvId>
    var sinks: map<EnvId, Sink>
    var next: EnvId
    /** The shared draw channel is closed (and so, by the relay, is the
        parent's). */
    var drawClosed: bool
    /** The parent's event channel ended. */
    var parentEnded: bool
    /** Draw commands relayed to the parent, in order. */
    var forwarded: seq<DrawCmd>
    /** Environments whose relay recovered from a send on the closed shared
        channel and now drops their commands. */
    var draining: set<EnvId>
    /** Environments whose draw channel was closed by their owner. */
    var done: set<EnvId>

    /** While the parent runs, every listed sink is open, and while the
        master runs too, every running environment is listed. */
    ghost predicate Valid()
      reads this
    {
      master == 0 && 0 < next &&
      (forall id :: id in sinks <==> 0 <= id < next) &&
      Distinct(eventsIns) && (forall id :: id in eventsIns ==> id in sinks) &&
      (!parentEnded ==> AllOpen(sinks, eventsIns)) &&
      (drawClosed <==> master in done) &&
      (!drawClosed && !parentEnded ==> forall id :: id in sinks && id !in done ==> id in eventsIns) &&
      (forall id :: id in draining ==> drawClosed) &&
      (forall id :: id in done ==> id in sinks) &&
      (lastResize.Some? ==> lastResize.value.Resize?)
    }

    /** `NewMux`: the master is made like any other environment, so it is
        listed too. */
    constructor NewMux()
      ensures Valid() && eventsIns == [master] && sinks == map[master := Sink([], false)]
      ensures lastResize.None? && !drawClosed && !parentEnded && forwarded == [] && done == {} && draining == {}
    {
      master := 0;
      lastResize := None;
      eventsIns := [0];
      sinks := map[0 := Sink([], false)];
      next := 1;
      drawClosed := false;
      parentEnded := false;
      forwarded := [];
      draining := {};
      done := {};
    }

    /** `MakeEnv`: a new sink at the end of the list, given the cached
        resize first if the parent has sent one. */
    method MakeEnv() returns (id: EnvId)
      requires Valid()
      modifies this`eventsIns, this`sinks, this`next
      ensures Valid()
      ensures id == old(next) && id !in old(sinks) && next == old(next) + 1
      ensures eventsIns == old(eventsIns) + [id]
      ensures sinks == old(sinks)[id := Fresh(lastResize)]
    {
      id := next;
      assert id !in eventsIns;
      next := next + 1;
      eventsIns := eventsIns + [id];
      sinks := sinks[id := Fresh(lastResize)];
    }

    /** One parent event: a resize is cached first; then every listed sink,
        in list order, gets the event. */
    method ParentEvent(e: Event)
      requires Valid() && !parentEnded
      modifies this`lastResize, this`sinks
      ensures Valid()
      ensures lastResize == if e.Resize? then Some(e) else old(lastResize)
      ensures sinks == Fanned(old(sinks), eventsIns, e)
    {
      if e.Resize? {
        lastResize := Some(e);
      }
      sinks := SendAll(sinks, eventsIns, e);
    }

    /** The parent's events end: every listed sink is closed, and the list
        is kept as it is. */
    method ParentEnd()
      requires Valid() && !parentEnded
      modifies this`sinks, this`parentEnded
      ensures Valid() && parentEnded
      ensures sinks == Closed(old(sinks), eventsIns)
    {
      var r := CloseAll(sinks, eventsIns);
      sinks := r.value;
      parentEnded := true;
    }

    /** The parent's events end, closing the listed sinks and then emptying
        the list, as closing the master does. */
    method ParentEndClearing()
      requires Valid() && !parentEnded
      modifies this`sinks, this`parentEnded, this`eventsIns
      ensures Valid() && parentEnded && eventsIns == []
      ensures sinks == Closed(old(sinks), old(eventsIns))
      ensures AllOpen(sinks, eventsIns)
    {
      var r := CloseAll(sinks, eventsIns);
      sinks := r.value;
      parentEnded := true;
      eventsIns := [];
    }

    /** An environment sends a draw command: it is relayed while the shared
        channel is open; once it is closed the send panics, the relay
        recovers and drops this and every later command of that
        environment. */
    method Draw(id: EnvId, d: DrawCmd)
      requires Valid() && id in sinks && id !in done
      modifies this`forwarded, this`draining
      ensures Valid()
      ensures id !in old(draining) && !drawClosed ==> forwarded == old(forwarded) + [d] && draining == old(draining)
      ensures id in old(draining) || drawClosed ==> forwarded == old(forwarded) && draining == old(draining) + {id}
    {
      if id in draining {
        return;
      }
      if drawClosed {
        draining := draining + {id};
        return;
      }
      forwarded := forwarded + [d];
    }

    /** An environment's draw channel is closed. For the master: close every
        listed sink, empty the list and close the shared draw channel. For
        any other: the removal loop, as written. */
    method CloseDraw(id: EnvId) returns (r: Result<()>)
      requires Valid() && id in sinks && id !in done
      modifies this`sinks, this`eventsIns, this`drawClosed, this`done
      ensures Valid() && (r.Ok? ==> done == old(done) + {id})
      ensures id == master ==>
                (r.Panic? <==> !AllOpen(old(sinks), old(eventsIns))) &&
                (r.Panic? ==> r.reason == CloseOfClosed && done == old(done) && !drawClosed &&
                              sinks == old(sinks) && eventsIns == old(eventsIns)) &&
                (r.Ok? ==> sinks == Closed(old(sinks), old(eventsIns)) && eventsIns == [] && drawClosed)
      ensures id != master ==>
                r.Ok? && sinks == old(sinks) && drawClosed == old(drawClosed) &&
                eventsIns == Removal(old(eventsIns), id)
    {
      if id == master {
        r := CloseMaster();
        assert Valid();
        return;
      } else {
        RemoveSink(id);
        assert Valid();
        r := Ok(());
      }
    }

    /** The master's half of a close, in the locked block: close every
        listed sink in order, empty the list, close the shared draw
        channel. A sink already closed panics before the list is emptied
        and the draw channel closed. */
    method CloseMaster() returns (r: Result<()>)
      requires Valid() && master !in done
      modifies this`sinks, this`eventsIns, this`drawClosed, this`done
      ensures Valid()
      ensures r.Panic? <==> !AllOpen(old(sinks), old(eventsIns))
      ensures r.Panic? ==> r.reason == CloseOfClosed && unchanged(this)
      ensures r.Ok? ==> sinks == Closed(old(sinks), old(eventsIns)) && eventsIns == [] &&
                        done == old(done) + {master} && drawClosed
    {
      var closed := CloseAll(sinks, eventsIns);
      if closed.Panic? {
        return Panic(closed.reason);
      }
      sinks := closed.value;
      eventsIns := [];
      done := done + {master};
      drawClosed := true;
      return Ok(());
    }

    /** The child's half of a close, in the locked block: find its sink by
        a loop that starts i at -1 and splice position i out. */
    method RemoveSink(id: EnvId)
      requires Valid() && id in sinks && id !in done && id != master
      modifies this`eventsIns, this`done
      ensures Valid() && done == old(done) + {id}
      ensures eventsIns == Removal(old(eventsIns), id)
      ensures !drawClosed && !parentEnded ==> forall x :: x in eventsIns <==> x in old(eventsIns) && x != id
    {
      if !drawClosed && !parentEnded {
        RemovalPresent(eventsIns, id);
      }
      eventsIns := RemoveLoop(eventsIns, id);
      done := done + {id};
    }
  }

  /** The parent's events end while the master still runs, then the master
      closes its draw channel: as written, it closes the listed sinks a
      second time and panics. */
  method ParentEndThenMasterClose() returns (r: Result<()>)
    ensures r == Panic(CloseOfClosed)
  {
    var mux := new Mux.NewMux();
    mux.ParentEnd();
    r := mux.CloseDraw(mux.master);
  }

  /** The same run when the end of the parent's events also empties the
      list: the master's close succeeds. */
  method ParentEndClearingThenMasterClose() returns (r: Result<()>)
    ensures r.Ok?
  {
    var mux := new Mux.NewMux();
    mux.ParentEndClearing();
    assert AllOpen(mux.sinks, mux.eventsIns);
    r := mux.CloseDraw(mux.master);
  }
}
