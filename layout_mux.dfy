/** Package layout, file mux.go: the `Mux` a layout uses to share its
    environment among its children. Unlike the Mux of the gui package the
    master is not listed: it gets every event unchanged, while each resize
    reaches the children cut up by the layout's `Lay`, the child at
    position i of the list getting rectangle i. Each method is one locked
    block or one goroutine step. */
module LayoutMux {
  import opened Outcome
  import opened Geom
  import opened Events
  import opened Sinks

  /** The resize every listed child gets: the one at position i of the list
      is resized to lay[i]; every other sink is untouched. */
  function Partitioned(sinks: map<EnvId, Sink>, ids: seq<EnvId>, lay: seq<Rect>): (m: map<EnvId, Sink>)
    requires |ids| <= |lay|
    ensures m.Keys == sinks.Keys
  {
    map id | id in sinks ::
      if id in ids then sinks[id].(received := sinks[id].received + [Resize(lay[FirstIndex(ids, id)])])
      else sinks[id]
  }

  /** Position by position: the i-th listed child got exactly a resize to
      lay[i] and nothing else. */
  lemma PartitionedAt(sinks: map<EnvId, Sink>, ids: seq<EnvId>, lay: seq<Rect>, i: nat)
    requires Distinct(ids) && |ids| <= |lay| && i < |ids| && ids[i] in sinks
    ensures Partitioned(sinks, ids, lay)[ids[i]] == sinks[ids[i]].(received := sinks[ids[i]].received + [Resize(lay[i])])
  {
    var f := FirstIndex(ids, ids[i]);
    assert f == i;
  }

  /** One more child of the list receives its share. */
  lemma PartitionedStep(sinks: map<EnvId, Sink>, ids: seq<EnvId>, lay: seq<Rect>, k: nat)
    requires Distinct(ids) && |ids| <= |lay| && k < |ids| && ids[k] in sinks
    ensures Partitioned(sinks, ids[..k + 1], lay) ==
            Partitioned(sinks, ids[..k], lay)[ids[k] := sinks[ids[k]].(received := sinks[ids[k]].received + [Resize(lay[k])])]
  {
    var pre, post := ids[..k], ids[..k + 1];
    assert ids[k] !in pre;
    forall id | id in sinks && id != ids[k]
      ensures Partitioned(sinks, post, lay)[id] == Partitioned(sinks, pre, lay)[id]
    {
      if id in pre {
        var f := FirstIndex(pre, id);
        var g := FirstIndex(post, id);
        assert post[f] == id;
        assert f == g;
      } else {
        assert id !in post;
      }
    }
    assert FirstIndex(post, ids[k]) == k;
  }

  /** `for i, eventsIn := range mux.eventsIns { resize.Rectangle = lay[i];
      eventsIn <- resize }`. */
  method SendPartitioned(sinks: map<EnvId, Sink>, ids: seq<EnvId>, lay: seq<Rect>) returns (m: map<EnvId, Sink>)
    requires Distinct(ids) && (forall id :: id in ids ==> id in sinks) && |ids| <= |lay|
    ensures m == Partitioned(sinks, ids, lay)
  {
    m := sinks;
    var k := 0;
    assert Partitioned(sinks, ids[..0], lay) == sinks;
    while k < |ids|
      invariant 0 <= k <= |ids|
      invariant m == Partitioned(sinks, ids[..k], lay)
    {
      PartitionedStep(sinks, ids, lay, k);
      assert ids[k] !in ids[..k];
      m := m[ids[k] := m[ids[k]].(received := m[ids[k]].received + [Resize(lay[k])])];
      k := k + 1;
    }
    assert ids[..k] == ids;
  }

  class Mux {
    /** The layout's `Lay`, from the resized rectangle to the children's. */
    const lay: Rect -> seq<Rect>
    /** `len(envs)`: how many children the layout asked for. */
    const nEnvs: nat
    /** What the master's sink received; it is never closed. */
    var masterReceived: seq<Event>
    var lastResize: Option<Event>
    var eventsIns: seq<EnvId>
    /** The children's sinks, numbered in creation order. */
    var sinks: map<EnvId, Sink>
    var made: nat
    var drawClosed: bool
    var masterDone: bool
    /** The forwarded parent events ended. */
    var eventsEnded: bool
    var forwarded: seq<DrawCmd>
    var draining: set<EnvId>
    var done: set<EnvId>

    /** At most `len(envs)` children are listed, so every resize that is
        partitioned has a rectangle for each of them. */
    ghost predicate Valid()
      reads this
    {
      made <= nEnvs &&
      (forall id :: id in sinks <==> 0 <= id < made) &&
      Distinct(eventsIns) && (forall id :: id in eventsIns ==> id in sinks) &&
      |eventsIns| <= made &&
      (!eventsEnded ==> AllOpen(sinks, eventsIns)) &&
      (drawClosed <==> masterDone) &&
      (!drawClosed && !eventsEnded ==> forall id :: id in sinks && id !in done ==> id in eventsIns) &&
      (forall id :: id in draining ==> drawClosed) &&
      (forall id :: id in done ==> id in sinks) &&
      (lastResize.Some? ==> lastResize.value.Resize?)
    }

    /** The first half of `NewMux`: the master is made, and is not listed. */
    constructor Start(lay: Rect -> seq<Rect>, nEnvs: nat)
      ensures Valid() && this.lay == lay && this.nEnvs == nEnvs
      ensures made == 0 && eventsIns == [] && sinks == map[] && masterReceived == []
      ensures lastResize.None? && !drawClosed && !eventsEnded && forwarded == [] && done == {}
    {
      this.lay := lay;
      this.nEnvs := nEnvs;
      masterReceived := [];
      lastResize := None;
      eventsIns := [];
      sinks := map[];
      made := 0;
      drawClosed := false;
      masterDone := false;
      eventsEnded := false;
      forwarded := [];
      draining := {};
      done := {};
    }

    /** `makeEnv(false)` for the next of `envs`: appended to the list and
        given the raw cached resize first if one arrived already. */
    method MakeChild() returns (id: EnvId)
      requires Valid() && made < nEnvs
      modifies this`eventsIns, this`sinks, this`made
      ensures Valid()
      ensures id == old(made) && made == old(made) + 1
      ensures eventsIns == old(eventsIns) + [id]
      ensures sinks == old(sinks)[id := Fresh(lastResize)]
    {
      id := made;
      assert id !in eventsIns;
      made := made + 1;
      eventsIns := eventsIns + [id];
      sinks := sinks[id := Fresh(lastResize)];
    }

    /** One event from the intercepted parent: first to the master as it
        is; a resize is cached whole and, if the layout gives enough
        rectangles, cut up among the listed children; any other event goes
        to every listed child. */
    method ParentEvent(e: Event)
      requires Valid() && !eventsEnded
      modifies this`masterReceived, this`lastResize, this`sinks
      ensures Valid()
      ensures masterReceived == old(masterReceived) + [e]
      ensures lastResize == if e.Resize? then Some(e) else old(lastResize)
      ensures e.Resize? && |lay(e.r)| < nEnvs ==> sinks == old(sinks)
      ensures e.Resize? && |lay(e.r)| >= nEnvs ==> sinks == Partitioned(old(sinks), eventsIns, lay(e.r))
      ensures !e.Resize? ==> sinks == Fanned(old(sinks), eventsIns, e)
    {
      masterReceived := masterReceived + [e];
      if e.Resize? {
        lastResize := Some(e);
        var rects := lay(e.r);
        if |rects| < nEnvs {
          return;
        }
        sinks := SendPartitioned(sinks, eventsIns, rects);
      } else {
        sinks := SendAll(sinks, eventsIns, e);
      }
    }

    /** The end of the forwarded events: every listed child is closed.
        The goroutine that copies the parent's events into `events` never
        closes it, so as written this step is never reached. */
    method EventsEnd()
      requires Valid() && !eventsEnded
      modifies this`sinks, this`eventsEnded
      ensures Valid() && eventsEnded
      ensures sinks == Closed(old(sinks), eventsIns)
    {
      var r := CloseAll(sinks, eventsIns);
      sinks := r.value;
      eventsEnded := true;
    }

    /** A draw command of the master: relayed until its own close. */
    method MasterDraw(d: DrawCmd)
      requires Valid() && !masterDone
      modifies this`forwarded
      ensures Valid() && forwarded == old(forwarded) + [d]
    {
      forwarded := forwarded + [d];
    }

    /** A draw command of a child: relayed while the shared channel is
        open, and from the first one after it closed on, dropped. */
    method Draw(id: EnvId, d: DrawCmd)
      requires Valid() && id in sinks && id !in done
      modifies this`forwarded, this`draining
      ensures Valid()
      ensures id !in old(draining) && !drawClosed ==> forwarded == old(forwarded) + [d] && draining == old(draining)
      ensures id in old(draining) || drawClosed ==> forwarded == old(forwarded) && draining == old(draining) + {id}
    {
      if id in draining {
        return;
      }
      if drawClosed {
        draining := draining + {id};
        return;
      }
      forwarded := forwarded + [d];
    }

    /** The master closes its draw channel: every listed child is closed,
        the list emptied and the shared draw channel closed. The master's
        own sink stays open. A child already closed panics before the list
        is emptied and the draw channel closed. */
    method CloseMaster() returns (r: Result<()>)
      requires Valid() && !masterDone
      modifies this`sinks, this`eventsIns, this`drawClosed, this`masterDone
      ensures Valid()
      ensures r.Panic? <==> !AllOpen(old(sinks), old(eventsIns))
      ensures r.Panic? ==> r.reason == CloseOfClosed && unchanged(this)
      ensures r.Ok? ==> sinks == Closed(old(sinks), old(eventsIns)) && eventsIns == [] && masterDone && drawClosed
    {
      var closed := CloseAll(sinks, eventsIns);
      if closed.Panic? {
        return Panic(closed.reason);
      }
      sinks := closed.value;
      eventsIns := [];
      masterDone := true;
      drawClosed := true;
      return Ok(());
    }

    /** A child closes its draw channel: its sink leaves the list by the
        removal loop, as written; the sink itself stays open. */
    method CloseChild(id: EnvId)
      requires Valid() && id in sinks && id !in done
      modifies this`eventsIns, this`done
      ensures Valid() && done == old(done) + {id}
      ensures eventsIns == Removal(old(eventsIns), id)
      ensures !drawClosed && !eventsEnded ==> forall x :: x in eventsIns <==> x in old(eventsIns) && x != id
    {
      if !drawClosed && !eventsEnded {
        RemovalPresent(eventsIns, id);
      }
      eventsIns := RemoveLoop(eventsIns, id);
      done := done + {id};
    }
  }

  /** `NewMux`: the master, then one child per entry of `envs`, in order. */
  method NewMux(lay: Rect -> seq<Rect>, nEnvs: nat) returns (mux: Mux)
    ensures mux.Valid() && mux.lay == lay && mux.made == nEnvs && |mux.eventsIns| == nEnvs
    ensures forall i :: 0 <= i < nEnvs ==> mux.eventsIns[i] == i && mux.sinks[i] == Sink([], false)
    ensures mux.masterReceived == [] && mux.lastResize.None? && !mux.drawClosed
  {
    mux := new Mux.Start(lay, nEnvs);
    while mux.made < nEnvs
      invariant mux.Valid() && mux.lay == lay && mux.nEnvs == nEnvs
      invariant |mux.eventsIns| == mux.made
      invariant forall i :: 0 <= i < mux.made ==> mux.eventsIns[i] == i && mux.sinks[i] == Sink([], false)
      invariant mux.masterReceived == [] && mux.lastResize.None? && !mux.drawClosed
      modifies mux
      decreases nEnvs - mux.made
    {
      var _ := mux.MakeChild();
    }
  }
}
