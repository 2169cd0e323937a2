/** The event sinks of the three environment registries (mux.go,
    layout/mux.go, layout/layout.go): each registered environment has the
    input end of a `MakeEventsChan`, here the events sent into it, in order,
    and whether it was closed. A registry keeps every sink it ever made,
    by environment identity. */
module Sinks {
  import opened Outcome
  import opened Events

  type EnvId = nat

  datatype Sink = Sink(received: seq<Event>, closed: bool)


  predicate Distinct(s: seq<EnvId>)
  {
    forall i, j :: 0 <= i < j < |s| ==> s[i] != s[j]
  }

  /** A new sink, holding the cached resize first if there is one. */
  function Fresh(lastResize: Option<Event>): Sink
  {
    Sink(if lastResize.Some? then [lastResize.value] else [], false)
  }

  /** Every listed sink got e; every other sink is untouched. */
  function Fanned(sinks: map<EnvId, Sink>, ids: seq<EnvId>, e: Event): (m: map<EnvId, Sink>)
    ensures m.Keys == sinks.Keys
  {
    map id | id in sinks :: if id in ids then sinks[id].(received := sinks[id].received + [e]) else sinks[id]
  }

  /** Every listed sink is closed; every other sink is untouched. */
  function Closed(sinks: map<EnvId, Sink>, ids: seq<EnvId>): (m: map<EnvId, Sink>)
    ensures m.Keys == sinks.Keys
  {
    map id | id in sinks :: if id in ids then sinks[id].(closed := true) else sinks[id]
  }

  predicate AllOpen(sinks: map<EnvId, Sink>, ids: seq<EnvId>)
  {
    forall id :: id in ids && id in sinks ==> !sinks[id].closed
  }

  /** `for _, eventsIn := range list { eventsIn <- e }` over open sinks. */
  method SendAll(sinks: map<EnvId, Sink>, ids: seq<EnvId>, e: Event) returns (m: map<EnvId, Sink>)
    requires Distinct(ids) && forall id :: id in ids ==> id in sinks
    ensures m == Fanned(sinks, ids, e)
  {
    m := sinks;
    var k := 0;
    while k < |ids|
      invariant 0 <= k <= |ids|
      invariant m == Fanned(sinks, ids[..k], e)
    {
      assert ids[k] !in ids[..k];
      assert forall id :: id in ids[..k + 1] <==> id == ids[k] || id in ids[..k];
      m := m[ids[k] := m[ids[k]].(received := m[ids[k]].received + [e])];
      k := k + 1;
    }
    assert ids[..k] == ids;
  }

  /** `for _, eventsIn := range list { close(eventsIn) }`: closing a sink
      that is already closed panics, and the sinks before it stay closed. */
  method CloseAll(sinks: map<EnvId, Sink>, ids: seq<EnvId>) returns (r: Result<map<EnvId, Sink>>)
    requires Distinct(ids) && forall id :: id in ids ==> id in sinks
    ensures r.Panic? <==> !AllOpen(sinks, ids)
    ensures r.Panic? ==> r.reason == CloseOfClosed
    ensures r.Ok? ==> r.value == Closed(sinks, ids)
  {
    var m := sinks;
    var k := 0;
    while k < |ids|
      invariant 0 <= k <= |ids|
      invariant m == Closed(sinks, ids[..k])
      invariant AllOpen(sinks, ids[..k])
    {
      assert ids[k] !in ids[..k];
      assert forall id :: id in ids[..k + 1] <==> id == ids[k] || id in ids[..k];
      if m[ids[k]].closed {
        return Panic(CloseOfClosed);
      }
      m := m[ids[k] := m[ids[k]].(closed := true)];
      k := k + 1;
    }
    assert ids[..k] == ids;
    return Ok(m);
  }

  /** A draw command, by identity; what it paints is left out. */
  type DrawCmd = nat

  /** The first position of id in the list. */
  function FirstIndex(list: seq<EnvId>, id: EnvId): (i: nat)
    requires id in list
    ensures i < |list| && list[i] == id
    ensures forall j :: 0 <= j < i ==> list[j] != id
  {
    if list[0] == id then 0 else 1 + FirstIndex(list[1..], id)
  }

  /** Where `for i = range list { if list[i] == id { break } }` leaves i
      when it started at -1: at the first match, else at the last index,
      and at -1 only for an empty list. */
  function LoopIndex(list: seq<EnvId>, id: EnvId): (i: int)
    ensures -1 <= i < |list|
  {
    if id in list then FirstIndex(list, id) else |list| - 1
  }

  /** The list after a child's close, as written: splice out position i
      unless it is -1. */
  function Removal(list: seq<EnvId>, id: EnvId): seq<EnvId>
  {
    var i := LoopIndex(list, id);
    if i != -1 then list[..i] + list[i + 1..] else list
  }

  /** Splicing out one position of a list without repetitions takes out
      exactly the entry there. */
  lemma Splice(list: seq<EnvId>, i: nat)
    requires Distinct(list) && i < |list|
    ensures Distinct(list[..i] + list[i + 1..])
    ensures forall x :: x in list[..i] + list[i + 1..] <==> x in list && x != list[i]
  {
    var r := list[..i] + list[i + 1..];
    assert forall j :: 0 <= j < |r| ==> r[j] == list[if j < i then j else j + 1];
    forall x | x in list && x != list[i]
      ensures x in r
    {
      var j :| 0 <= j < |list| && list[j] == x;
      if j < i {
        assert r[j] == x;
      } else {
        assert r[j - 1] == x;
      }
    }
  }

  /** A listed sink is spliced out exactly, and the other sinks keep their
      order. */
  lemma RemovalPresent(list: seq<EnvId>, id: EnvId)
    requires Distinct(list) && id in list
    ensures var i := FirstIndex(list, id); Removal(list, id) == list[..i] + list[i + 1..]
    ensures forall x :: x in Removal(list, id) <==> x in list && x != id
  {
    Splice(list, FirstIndex(list, id));
  }

  /** As written, closing an environment that is not listed drops the last
      listed sink, whoever owns it. */
  lemma RemovalAbsent(list: seq<EnvId>, id: EnvId)
    requires id !in list && list != []
    ensures Removal(list, id) == list[..|list| - 1]
    ensures list[|list| - 1] !in Removal(list, id) || !Distinct(list)
  {
    if Distinct(list) {
      Splice(list, |list| - 1);
    }
  }

  /** The removal as intended: only a listed sink leaves the list. */
  function Unlisted(list: seq<EnvId>, id: EnvId): seq<EnvId>
  {
    if id in list then
      var i := FirstIndex(list, id);
      list[..i] + list[i + 1..]
    else list
  }

  lemma UnlistedRemovesOnlyId(list: seq<EnvId>, id: EnvId)
    requires Distinct(list)
    ensures Distinct(Unlisted(list, id))
    ensures forall x :: x in Unlisted(list, id) <==> x in list && x != id
  {
    if id in list {
      Splice(list, FirstIndex(list, id));
    }
  }

  /** A child made before the master closed, closing after a child made
      later: as written it takes the later child's sink out of the list. */
  lemma RemovalDropsStranger()
    ensures Removal([2], 1) == [] && Unlisted([2], 1) == [2]
  {
  }

  /** Removal as written agrees with the intended one whenever the closing
      environment is listed, or the list is empty. */
  lemma RemovalAgrees(list: seq<EnvId>, id: EnvId)
    requires id in list || list == []
    ensures Removal(list, id) == Unlisted(list, id)
  {
  }

  /** The search of a child's close: i starts at -1 and a range loop over
      the list moves it on, breaking at the first match. */
  method FindLoop(list: seq<EnvId>, id: EnvId) returns (i: int)
    ensures i == LoopIndex(list, id)
  {
    i := -1;
    var k := 0;
    while k < |list|
      invariant 0 <= k <= |list| && i == k - 1
      invariant forall j :: 0 <= j < k ==> list[j] != id
    {
      i := k;
      if list[k] == id {
        break;
      }
      k := k + 1;
    }
    if id in list {
      var f := FirstIndex(list, id);
      assert i < |list| && list[i] == id;
    }
  }

  /** The removal of a child's close: position i of the search is spliced
      out unless it is still -1. */
  method RemoveLoop(list: seq<EnvId>, id: EnvId) returns (r: seq<EnvId>)
    requires Distinct(list)
    ensures r == Removal(list, id)
    ensures Distinct(r) && |r| <= |list| && forall x :: x in r ==> x in list
  {
    var i := FindLoop(list, id);
    r := list;
    if i != -1 {
      Splice(list, i);
      r := list[..i] + list[i + 1..];
    }
  }
}
