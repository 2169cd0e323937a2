/** Package layout, file layout.go: the name-keyed `Layout`. Children ask
    for an environment by name; the parent's events go through the input of
    an internal master environment, and a dispatch step takes them from
    there one at a time: a resize is cached, a redraw of the whole
    rectangle is submitted, and each named child is resized to the
    rectangle `Lay` gives its name. A child that closes its draw channel
    is unregistered, its sink closed, and the cached resize fed back in so
    the others are laid out again. */
module NamedLayout {
  import opened Outcome
  import opened Geom
  import opened Events
  import opened Sinks

  /** What reaches the shared draw channel: the layout's own redraw of a
      rectangle, or a child's command. */
  datatype Cmd = Redraw(r: Rect) | ChildCmd(id: EnvId, d: DrawCmd)

  /** `l[key]`: a name `Lay` has no rectangle for gets the zero one. */
  function RectFor(l: map<string, Rect>, name: string): Rect
  {
    if name in l then l[name] else ZR
  }

  /** What the child registered under a name gets for an event: a resize
      to the rectangle `Lay` gives the name, any other event as it is. */
  function ChildEvent(lay: Rect -> map<string, Rect>, e: Event, name: string): Event
  {
    if e.Resize? then Resize(RectFor(lay(e.r), name)) else e
  }

  /** Every registered name is a different sink. */
  predicate OneSinkPerName(names: map<string, EnvId>)
  {
    forall a, b :: a in names && b in names && a != b ==> names[a] != names[b]
  }

  /** `for key, eventsIn := range mux.eventsIns { eventsIn <- ev(key) }`:
      each registered sink gets the event for its name, once, whatever the
      order of the map's keys; every other sink is untouched. */
  method SendEach(sinks: map<EnvId, Sink>, names: map<string, EnvId>, ev: string -> Event)
    returns (m: map<EnvId, Sink>)
    requires OneSinkPerName(names) && forall n :: n in names ==> names[n] in sinks
    ensures m.Keys == sinks.Keys
    ensures forall n :: n in names ==> m[names[n]] == sinks[names[n]].(received := sinks[names[n]].received + [ev(n)])
    ensures forall id :: id in sinks && id !in names.Values ==> m[id] == sinks[id]
  {
    m := sinks;
    var todo := names.Keys;
    while todo != {}
      invariant todo <= names.Keys && m.Keys == sinks.Keys
      invariant forall n :: n in names && n !in todo ==> m[names[n]] == sinks[names[n]].(received := sinks[names[n]].received + [ev(n)])
      invariant forall n :: n in todo ==> m[names[n]] == sinks[names[n]]
      invariant forall id :: id in sinks && id !in names.Values ==> m[id] == sinks[id]
      decreases |todo|
    {
      var key :| key in todo;
      var id := names[key];
      m := m[id := m[id].(received := m[id].received + [ev(key)])];
      todo := todo - {key};
    }
  }

  class Layout {
    /** `Lay`, from the resized rectangle to each name's rectangle. */
    const lay: Rect -> map<string, Rect>
    /** The master's input queue: events waiting for the dispatch step. */
    var pending: seq<Event>
    var lastResize: Option<Event>
    /** `eventsIns`: the registered sink of each name. */
    var eventsIns: map<string, EnvId>
    /** Every child sink ever made, by creation order. */
    var sinks: map<EnvId, Sink>
    /** The name each child was made with. */
    var names: map<EnvId, string>
    var next: EnvId
    var forwarded: seq<Cmd>
    /** Children whose draw channel was closed. */
    var done: set<EnvId>

    /** A name is registered to a sink made with that name and still open;
        a sink is closed exactly when its child closed. */
    ghost predicate Valid()
      reads this
    {
      (forall id :: id in sinks <==> 0 <= id < next) &&
      names.Keys == sinks.Keys &&
      (forall n :: n in eventsIns ==> eventsIns[n] in sinks && names[eventsIns[n]] == n && !sinks[eventsIns[n]].closed) &&
      (forall id :: id in sinks ==> (sinks[id].closed <==> id in done)) &&
      (forall id :: id in done ==> id in sinks) &&
      (lastResize.Some? ==> lastResize.value.Resize?)
    }

    lemma ValidOneSinkPerName()
      requires Valid()
      ensures OneSinkPerName(eventsIns)
      ensures forall n :: n in eventsIns ==> eventsIns[n] !in done
    {
    }

    /** `New`: no child yet, nothing cached, nothing waiting. */
    constructor New(lay: Rect -> map<string, Rect>)
      ensures Valid() && this.lay == lay
      ensures pending == [] && lastResize.None? && eventsIns == map[] && sinks == map[] && forwarded == []
    {
      this.lay := lay;
      pending := [];
      lastResize := None;
      eventsIns := map[];
      sinks := map[];
      names := map[];
      next := 0;
      forwarded := [];
      done := {};
    }

    /** The parent sends an event: it joins the master's input queue. */
    method ParentEvent(e: Event)
      requires Valid()
      modifies this`pending
      ensures Valid() && pending == old(pending) + [e]
    {
      pending := pending + [e];
    }

    /** One turn of the dispatch loop, on the oldest waiting event. */
    method Step()
      requires Valid() && pending != []
      modifies this`pending, this`lastResize, this`forwarded, this`sinks
      ensures Valid() && pending == old(pending)[1..]
      ensures var e := old(pending)[0];
              (e.Resize? ==> lastResize == Some(e) && forwarded == old(forwarded) + [Redraw(e.r)]) &&
              (!e.Resize? ==> lastResize == old(lastResize) && forwarded == old(forwarded))
      ensures sinks.Keys == old(sinks).Keys
      ensures forall n :: n in eventsIns ==>
                sinks[eventsIns[n]].received == old(sinks)[eventsIns[n]].received + [ChildEvent(lay, old(pending)[0], n)]
      ensures forall id :: id in sinks && id !in eventsIns.Values ==> sinks[id] == old(sinks)[id]
    {
      var e := pending[0];
      pending := pending[1..];
      if e.Resize? {
        lastResize := Some(e);
        forwarded := forwarded + [Redraw(e.r)];
      }
      Broadcast(e);
    }

    /** Each registered child gets its share of one event. */
    method Broadcast(e: Event)
      requires Valid()
      modifies this`sinks
      ensures Valid() && sinks.Keys == old(sinks).Keys
      ensures forall n :: n in eventsIns ==>
                sinks[eventsIns[n]] == old(sinks)[eventsIns[n]].(received := old(sinks)[eventsIns[n]].received + [ChildEvent(lay, e, n)])
      ensures forall id :: id in sinks && id !in eventsIns.Values ==> sinks[id] == old(sinks)[id]
    {
      ValidOneSinkPerName();
      sinks := SendEach(sinks, eventsIns, (n: string) => ChildEvent(lay, e, n));
    }

    /** `GetEnv`: a new sink registered under the name, replacing the one
        registered there before, and given the cached resize first. */
    method GetEnv(name: string) returns (id: EnvId)
      requires Valid()
      modifies this`eventsIns, this`sinks, this`names, this`next
      ensures Valid()
      ensures id == old(next) && id !in old(sinks) && next == old(next) + 1
      ensures eventsIns == old(eventsIns)[name := id]
      ensures sinks == old(sinks)[id := Fresh(lastResize)] && names == old(names)[id := name]
    {
      id := next;
      next := next + 1;
      sinks := sinks[id := Fresh(lastResize)];
      names := names[id := name];
      eventsIns := eventsIns[name := id];
    }

    /** A child's draw command is relayed; the shared draw channel stays
        open, as nothing closes the master's draw channel. */
    method Draw(id: EnvId, d: DrawCmd)
      requires Valid() && id in sinks && id !in done
      modifies this`forwarded
      ensures Valid() && forwarded == old(forwarded) + [ChildCmd(id, d)]
    {
      forwarded := forwarded + [ChildCmd(id, d)];
    }

    /** A child closes its draw channel: whatever is registered under its
        name is unregistered, its own sink is closed, and the cached
        resize, if any, is queued to the master again. */
    method CloseChild(id: EnvId)
      requires Valid() && id in sinks && id !in done
      modifies this`eventsIns, this`sinks, this`done, this`pending
      ensures Valid() && done == old(done) + {id}
      ensures eventsIns == old(eventsIns) - {names[id]}
      ensures sinks == old(sinks)[id := old(sinks)[id].(closed := true)]
      ensures pending == old(pending) + (if lastResize.Some? then [lastResize.value] else [])
    {
      eventsIns := eventsIns - {names[id]};
      sinks := sinks[id := sinks[id].(closed := true)];
      done := done + {id};
      if lastResize.Some? {
        pending := pending + [lastResize.value];
      }
    }
  }

  /** A closed child is never sent anything again: it is not registered. */
  lemma ClosedNotRegistered(l: Layout, id: EnvId)
    requires l.Valid() && id in l.done
    ensures id !in l.eventsIns.Values
  {
  }

  /** Two children asked for under one name, and the first closes: the
      name is unregistered, so the second, still running, gets no events
      any more. */
  method SameNameTwice(lay: Rect -> map<string, Rect>) returns (first: EnvId, second: EnvId, registered: bool)
    ensures first != second && !registered
  {
    var layout := new Layout.New(lay);
    first := layout.GetEnv("a");
    second := layout.GetEnv("a");
    layout.CloseChild(first);
    registered := "a" in layout.eventsIns;
  }
}
