/** Package event, file dispatch.go: events are "/"-separated paths, and a
    Dispatch is a trie of handlers keyed by path segments. An event is
    offered to the handlers of every node along its path, root first, until
    one of them consumes it. */
module Dispatch {
  import opened Outcome
  import opened Path
  import opened Decimal

  /** A value given to `Sprint`; the core prints strings and ints only. */
  datatype Arg = Str(s: string) | Int(i: int)

  /** `fmt.Fprint` of one value. */
  function Print(a: Arg): string
  {
    match a
    case Str(s) => s
    case Int(i) => IntToString(i)
  }

  function Printed(args: seq<Arg>): (parts: seq<string>)
    ensures |parts| == |args|
  {
    seq(|args|, i requires 0 <= i < |args| => Print(args[i]))
  }

  function Ints(xs: seq<int>): (args: seq<Arg>)
    ensures |args| == |xs|
  {
    seq(|xs|, i requires 0 <= i < |xs| => Int(xs[i]))
  }

  /** `Sprint`: the printed arguments with one separator between each two
      and none before the first or after the last. */
  method Sprint(args: seq<Arg>) returns (s: string)
    ensures s == Join(Printed(args))
  {
    s := "";
    var i := 0;
    while i < |args|
      invariant 0 <= i <= |args|
      invariant s == Join(Printed(args[..i]))
    {
      assert Printed(args[..i + 1]) == Printed(args[..i]) + [Print(args[i])];
      if i > 0 {
        JoinSnoc(Printed(args[..i]), Print(args[i]));
        s := s + [Sep];
      }
      s := s + Print(args[i]);
      i := i + 1;
    }
    assert args[..i] == args;
  }

  /** What `Sscan` leaves in its targets: a part that reads as a decimal
      integer overwrites its target; a target whose part does not read, or
      that has no part, keeps its value. */
  function Scanned(parts: seq<string>, before: seq<int>): (after: seq<int>)
    ensures |after| == |before|
  {
    seq(|before|, i requires 0 <= i < |before| =>
      if i < |parts| && ParseInt(parts[i]).Some? then ParseInt(parts[i]).value else before[i])
  }

  /** `Sscan`: part i of the event is scanned into target i; a part beyond
      the last target indexes past the arguments and panics, after the
      earlier parts were scanned. */
  method Sscan(event: string, a: array<int>) returns (r: Result<()>)
    modifies a
    ensures a[..] == Scanned(Split(event), old(a[..]))
    ensures r.Panic? <==> |Split(event)| > a.Length
    ensures r.Panic? ==> r.reason == IndexOutOfRange
  {
    var parts := Split(event);
    var i := 0;
    while i < |parts|
      invariant 0 <= i <= |parts| && i <= a.Length
      invariant a[..] == Scanned(parts[..i], old(a[..]))
    {
      if i >= a.Length {
        assert a[..] == Scanned(parts, old(a[..]));
        return Panic(IndexOutOfRange);
      }
      match ParseInt(parts[i]) {
        case Some(v) => a[i] := v;
        case None =>
      }
      i := i + 1;
    }
    assert parts[..i] == parts;
    return Ok(());
  }

  /** Printed integers hold no separator. */
  lemma IntsNoSep(xs: seq<int>)
    ensures NoSep(Printed(Ints(xs)))
  {
    forall i | 0 <= i < |xs| ensures Sep !in Printed(Ints(xs))[i] {
      assert Printed(Ints(xs))[i] == IntToString(xs[i]);
    }
  }

  /** Scanning what `Sprint` printed for at least one integer, into as many
      targets, recovers the integers and does not panic. */
  lemma ScanSprint(xs: seq<int>, before: seq<int>)
    requires |xs| == |before| >= 1
    ensures |Split(Join(Printed(Ints(xs))))| == |xs|
    ensures Scanned(Split(Join(Printed(Ints(xs)))), before) == xs
  {
    IntsNoSep(xs);
    SplitJoin(Printed(Ints(xs)));
    forall i | 0 <= i < |xs| ensures ParseInt(Printed(Ints(xs))[i]) == Some(xs[i]) {
      ParseIntToString(xs[i]);
    }
  }

  /** A node of the trie: its handlers in registration order and its
      children by segment. A missing child map and a missing child are both
      an absent key. */
  datatype Trie<H> = Node(handlers: seq<H>, children: map<string, Trie<H>>)

  function EmptyTrie<H>(): Trie<H>
  {
    Node([], map[])
  }

  /** The segments of a pattern or an event: none for the empty string,
      `strings.Split` otherwise. */
  function Segments(s: string): (segs: seq<string>)
    ensures s == "" <==> segs == []
  {
    if s == "" then [] else Split(s)
  }

  /** `event`: follow the segments, creating missing nodes, and append the
      handler at the node reached. */
  function Insert<H>(t: Trie<H>, pattern: seq<string>, h: H): Trie<H>
    decreases |pattern|
  {
    if pattern == [] then t.(handlers := t.handlers + [h])
    else
      var child := if pattern[0] in t.children then t.children[pattern[0]] else EmptyTrie();
      t.(children := t.children[pattern[0] := Insert(child, pattern[1..], h)])
  }

  /** The handlers registered at a path; none where there is no node. */
  function HandlersAt<H>(t: Trie<H>, path: seq<string>): seq<H>
    decreases |path|
  {
    if path == [] then t.handlers
    else if path[0] in t.children then HandlersAt(t.children[path[0]], path[1..])
    else []
  }

  lemma {:induction false} HandlersAtEmpty<H>(path: seq<string>)
    ensures HandlersAt(EmptyTrie<H>(), path) == []
  {
  }

  /** Registering appends the handler at its pattern and changes the
      handlers of no other path. */
  lemma {:induction false} InsertHandlersAt<H>(t: Trie<H>, pattern: seq<string>, h: H, path: seq<string>)
    ensures HandlersAt(Insert(t, pattern, h), path) ==
            if path == pattern then HandlersAt(t, path) + [h] else HandlersAt(t, path)
    decreases |pattern|
  {
    if pattern != [] && path != [] && path[0] == pattern[0] {
      var child := if pattern[0] in t.children then t.children[pattern[0]] else EmptyTrie();
      InsertHandlersAt(child, pattern[1..], h, path[1..]);
      if pattern[0] !in t.children {
        HandlersAtEmpty<H>(path[1..]);
      }
      assert path == pattern <==> path[1..] == pattern[1..];
    }
  }

  /** One offer of the event to a handler: the handler and what it was
      given. */
  datatype Call<H> = Call(handler: H, arg: string)

  /** The outcome of a dispatch: whether some handler consumed the event,
      and the calls made, in order. */
  datatype Dispatched<H> = Dispatched(consumed: bool, calls: seq<Call<H>>)

  function Calls<H>(hs: seq<H>, arg: string): (cs: seq<Call<H>>)
    ensures |cs| == |hs|
  {
    seq(|hs|, i requires 0 <= i < |hs| => Call(hs[i], arg))
  }

  /** Make the calls in order, stopping after the first that consumes. */
  function UntilConsumed<H>(cs: seq<Call<H>>, fire: (H, string) -> bool): Dispatched<H>
    decreases |cs|
  {
    if cs == [] then Dispatched(false, [])
    else if fire(cs[0].handler, cs[0].arg) then Dispatched(true, [cs[0]])
    else
      var rest := UntilConsumed(cs[1..], fire);
      Dispatched(rest.consumed, [cs[0]] + rest.calls)
  }

  /** The calls made are a prefix of the candidates; the dispatch is
      consumed exactly when some candidate consumes, and then the last call
      made is the first candidate that consumes; every other call declined. */
  lemma {:induction false} UntilConsumedSpec<H>(cs: seq<Call<H>>, fire: (H, string) -> bool)
    ensures var r := UntilConsumed(cs, fire);
            |r.calls| <= |cs| && r.calls == cs[..|r.calls|] &&
            (r.consumed <==> exists j :: 0 <= j < |cs| && fire(cs[j].handler, cs[j].arg)) &&
            (!r.consumed ==> r.calls == cs) &&
            (r.consumed ==> |r.calls| >= 1 && fire(r.calls[|r.calls| - 1].handler, r.calls[|r.calls| - 1].arg)) &&
            (forall j :: 0 <= j < |r.calls| - 1 ==> !fire(r.calls[j].handler, r.calls[j].arg)) &&
            (!r.consumed ==> forall j :: 0 <= j < |r.calls| ==> !fire(r.calls[j].handler, r.calls[j].arg))
    decreases |cs|
  {
    if cs != [] && !fire(cs[0].handler, cs[0].arg) {
      UntilConsumedSpec(cs[1..], fire);
      var rest := UntilConsumed(cs[1..], fire);
      assert UntilConsumed(cs, fire).calls == [cs[0]] + rest.calls;
      forall j | 0 <= j < |cs| - 1 ensures cs[1..][j] == cs[j + 1] { }
      if rest.consumed {
        var j :| 0 <= j < |cs[1..]| && fire(cs[1..][j].handler, cs[1..][j].arg);
        assert fire(cs[j + 1].handler, cs[j + 1].arg);
      }
    }
  }

  /** The dispatch is consumed exactly when some candidate consumes. */
  lemma ConsumedIff<H>(cs: seq<Call<H>>, fire: (H, string) -> bool)
    ensures UntilConsumed(cs, fire).consumed <==> exists j :: 0 <= j < |cs| && fire(cs[j].handler, cs[j].arg)
  {
    UntilConsumedSpec(cs, fire);
  }

  /** Offering `first` and then `second`: the second set is offered only
      when the first did not consume. */
  lemma {:induction false} UntilConsumedAppend<H>(first: seq<Call<H>>, second: seq<Call<H>>, fire: (H, string) -> bool)
    ensures var a := UntilConsumed(first, fire);
            var b := UntilConsumed(second, fire);
            UntilConsumed(first + second, fire) ==
              if a.consumed then a else Dispatched(b.consumed, a.calls + b.calls)
    decreases |first|
  {
    if first == [] {
      assert first + second == second;
    } else {
      assert (first + second)[0] == first[0];
      assert (first + second)[1..] == first[1..] + second;
      UntilConsumedAppend(first[1..], second, fire);
    }
  }

  /** `happen`: the handlers of this node in order, each given the rest of
      the event; then, unless one consumed it, the child for the next
      segment. */
  function Descend<H>(t: Trie<H>, segs: seq<string>, fire: (H, string) -> bool): Dispatched<H>
    decreases |segs|
  {
    var here := UntilConsumed(Calls(t.handlers, Join(segs)), fire);
    if here.consumed || segs == [] || segs[0] !in t.children then here
    else
      var below := Descend(t.children[segs[0]], segs[1..], fire);
      Dispatched(below.consumed, here.calls + below.calls)
  }

  /** The reference order of candidates for an event: for each prefix of its
      segments, shortest first, the handlers registered there, each given the
      segments after that prefix. */
  function AlongFrom<H>(t: Trie<H>, segs: seq<string>, i: nat): seq<Call<H>>
    requires i <= |segs|
    decreases |segs| - i
  {
    Calls(HandlersAt(t, segs[..i]), Join(segs[i..])) + (if i < |segs| then AlongFrom(t, segs, i + 1) else [])
  }

  function Along<H>(t: Trie<H>, segs: seq<string>): seq<Call<H>>
  {
    AlongFrom(t, segs, 0)
  }

  lemma {:induction false} AlongFromMissing<H>(t: Trie<H>, segs: seq<string>, i: nat)
    requires 1 <= i <= |segs| && segs[0] !in t.children
    ensures AlongFrom(t, segs, i) == []
    decreases |segs| - i
  {
    assert segs[..i][0] == segs[0];
    if i < |segs| {
      AlongFromMissing(t, segs, i + 1);
    }
  }

  lemma {:induction false} AlongFromChild<H>(t: Trie<H>, segs: seq<string>, i: nat)
    requires i < |segs| && segs[0] in t.children
    ensures AlongFrom(t, segs, i + 1) == AlongFrom(t.children[segs[0]], segs[1..], i)
    decreases |segs| - i
  {
    assert segs[..i + 1][0] == segs[0] && segs[..i + 1][1..] == segs[1..][..i];
    assert segs[i + 1..] == segs[1..][i..];
    if i + 1 < |segs| {
      AlongFromChild(t, segs, i + 1);
    }
  }

  /** `happen` offers the event to the reference candidates in order and
      stops at the first that consumes it. */
  lemma {:induction false} DescendIsAlong<H>(t: Trie<H>, segs: seq<string>, fire: (H, string) -> bool)
    ensures Descend(t, segs, fire) == UntilConsumed(Along(t, segs), fire)
    decreases |segs|
  {
    var local := Calls(t.handlers, Join(segs));
    assert segs[..0] == [] && segs[0..] == segs;
    if segs == [] {
      assert Along(t, segs) == local + [];
      assert local + [] == local;
    } else {
      assert Along(t, segs) == local + AlongFrom(t, segs, 1);
      UntilConsumedAppend(local, AlongFrom(t, segs, 1), fire);
      if segs[0] in t.children {
        AlongFromChild(t, segs, 0);
        DescendIsAlong(t.children[segs[0]], segs[1..], fire);
      } else {
        AlongFromMissing(t, segs, 1);
        assert UntilConsumed<H>([], fire).calls == [];
        assert UntilConsumed(local, fire).calls + [] == UntilConsumed(local, fire).calls;
      }
    }
  }

  /** Every call of a prefix's handlers appears among the candidates. */
  lemma {:induction false} AlongFromHas<H>(t: Trie<H>, segs: seq<string>, i: nat, k: nat, c: Call<H>)
    requires i <= k <= |segs| && c in Calls(HandlersAt(t, segs[..k]), Join(segs[k..]))
    ensures c in AlongFrom(t, segs, i)
    decreases k - i
  {
    if i < k {
      AlongFromHas(t, segs, i + 1, k, c);
    }
  }

  /** A candidate is called when none before it consumes. */
  lemma UntilConsumedReaches<H>(cs: seq<Call<H>>, j: nat, fire: (H, string) -> bool)
    requires j < |cs| && forall k :: 0 <= k < j ==> !fire(cs[k].handler, cs[k].arg)
    ensures cs[j] in UntilConsumed(cs, fire).calls
  {
    UntilConsumedSpec(cs, fire);
    var r := UntilConsumed(cs, fire);
    assert r.calls[j] == cs[j];
  }

  /** A handler registered at pattern p is a candidate for every event
      whose segments extend p, and it is given the remaining segments; the
      dispatch calls it unless a candidate ahead of it consumes the event. */
  lemma RegisteredIsCandidate<H>(t: Trie<H>, p: seq<string>, h: H, rest: seq<string>, fire: (H, string) -> bool)
    ensures Call(h, Join(rest)) in Along(Insert(t, p, h), p + rest)
    ensures var cs := Along(Insert(t, p, h), p + rest);
            exists j :: 0 <= j < |cs| && cs[j] == Call(h, Join(rest)) &&
              ((forall k :: 0 <= k < j ==> !fire(cs[k].handler, cs[k].arg)) ==>
                 Call(h, Join(rest)) in Descend(Insert(t, p, h), p + rest, fire).calls)
  {
    var t' := Insert(t, p, h);
    var segs := p + rest;
    assert segs[..|p|] == p && segs[|p|..] == rest;
    InsertHandlersAt(t, p, h, p);
    var hs := HandlersAt(t', p);
    assert hs[|hs| - 1] == h;
    assert Calls(hs, Join(rest))[|hs| - 1] == Call(h, Join(rest));
    AlongFromHas(t', segs, 0, |p|, Call(h, Join(rest)));
    var cs := Along(t', segs);
    var j :| 0 <= j < |cs| && cs[j] == Call(h, Join(rest));
    if forall k :: 0 <= k < j ==> !fire(cs[k].handler, cs[k].arg) {
      UntilConsumedReaches(cs, j, fire);
      DescendIsAlong(t', segs, fire);
    }
  }

  /** A Dispatch; its trie is held as a value (nodes are never shared). */
  class Dispatch<H> {
    var trie: Trie<H>

    constructor ()
      ensures trie == EmptyTrie()
    {
      trie := EmptyTrie();
    }

    /** `Event`: the empty pattern registers at the root. */
    method Event(pattern: string, handler: H)
      modifies this
      ensures trie == Insert(old(trie), Segments(pattern), handler)
    {
      trie := Insert(trie, Segments(pattern), handler);
    }

    /** `Happen`: the empty event is offered to the root handlers only. */
    method Happen(event: string, fire: (H, string) -> bool) returns (consumed: bool)
      ensures consumed == Descend(trie, Segments(event), fire).consumed
    {
      consumed := HappenAt(trie, Segments(event), fire);
    }
  }

  /** `happen` on one node: the handler loop, then the descent. */
  method HappenAt<H>(node: Trie<H>, segs: seq<string>, fire: (H, string) -> bool) returns (consumed: bool)
    ensures consumed == Descend(node, segs, fire).consumed
    decreases |segs|
  {
    var handlers := node.handlers;
    var arg := Join(segs);
    ghost var cs := Calls(handlers, arg);
    UntilConsumedSpec(cs, fire);
    var i := 0;
    while i < |handlers|
      invariant 0 <= i <= |handlers|
      invariant forall j :: 0 <= j < i ==> !fire(cs[j].handler, cs[j].arg)
    {
      if fire(handlers[i], arg) {
        assert fire(cs[i].handler, cs[i].arg);
        return true;
      }
      i := i + 1;
    }
    if segs == [] {
      return false;
    }
    if segs[0] in node.children {
      consumed := HappenAt(node.children[segs[0]], segs[1..], fire);
    } else {
      consumed := false;
    }
  }
}
