/** File event.go, `MakeEventsChan`: a channel of events with unlimited
    capacity, made of an input channel, an output channel and a goroutine
    that queues what arrives on the input until the output takes it. Each
    method is one step of that goroutine, as seen from the two ends. */
module EventsChan {
  import opened Outcome
  import opened Events

  class EventsChan {
    /** The goroutine's `queue`. */
    var queue: seq<Event>
    /** Every event taken from the input, in order. */
    ghost var accepted: seq<Event>
    /** Every event handed to the output, in order. */
    ghost var delivered: seq<Event>
    var inClosed: bool
    var outClosed: bool
    /** How many times the output was closed. */
    ghost var outCloses: nat

    /** Events leave in the order they arrived, each once, and the output
        is closed once, only after the input and with nothing left. */
    ghost predicate Valid()
      reads this
    {
      accepted == delivered + queue &&
      (outClosed <==> inClosed && queue == []) &&
      outCloses == (if outClosed then 1 else 0)
    }

    constructor ()
      ensures Valid() && queue == [] && accepted == [] && !inClosed && !outClosed
    {
      queue := [];
      accepted := [];
      delivered := [];
      inClosed := false;
      outClosed := false;
      outCloses := 0;
    }

    /** A send on the input: appended at the tail. Sending on a closed
        channel panics. */
    method Send(x: Event) returns (r: Result<()>)
      requires Valid()
      modifies this
      ensures Valid()
      ensures old(inClosed) <==> r.Panic?
      ensures r.Panic? ==> r.reason == SendOnClosed && unchanged(this)
      ensures r.Ok? ==> queue == old(queue) + [x] && accepted == old(accepted) + [x] &&
                        delivered == old(delivered) && !inClosed && !outClosed
    {
      if inClosed {
        return Panic(SendOnClosed);
      }
      queue := queue + [x];
      accepted := accepted + [x];
      return Ok(());
    }

    /** Closing the input: with nothing queued the output closes at once;
        otherwise the queue is still delivered first. */
    method CloseIn() returns (r: Result<()>)
      requires Valid()
      modifies this
      ensures Valid()
      ensures old(inClosed) <==> r.Panic?
      ensures r.Panic? ==> r.reason == CloseOfClosed && unchanged(this)
      ensures r.Ok? ==> inClosed && queue == old(queue) && accepted == old(accepted) &&
                        delivered == old(delivered)
    {
      if inClosed {
        return Panic(CloseOfClosed);
      }
      inClosed := true;
      if queue == [] {
        outClosed := true;
        outCloses := outCloses + 1;
      }
      return Ok(());
    }

    /** A receive on the output: the head of the queue, or nothing once the
        output is closed. A receive that would block is not taken. */
    method Receive() returns (e: Option<Event>)
      requires Valid() && (queue != [] || outClosed)
      modifies this
      ensures Valid()
      ensures old(queue) != [] ==> e == Some(old(queue)[0]) && queue == old(queue)[1..] &&
                                   delivered == old(delivered) + [e.value]
      ensures old(queue) == [] ==> e == None && unchanged(this)
      ensures accepted == old(accepted) && inClosed == old(inClosed)
    {
      if queue == [] {
        return None;
      }
      e := Some(queue[0]);
      delivered := delivered + [queue[0]];
      queue := queue[1..];
      if inClosed && queue == [] {
        outClosed := true;
        outCloses := outCloses + 1;
      }
    }

    /** Ranging over the output after the input closed: everything accepted
        is received, in order, and the output ends closed. */
    method Drain() returns (got: seq<Event>)
      requires Valid() && inClosed
      modifies this
      ensures Valid() && outClosed && queue == []
      ensures got == old(queue) && delivered == accepted
    {
      got := [];
      while !outClosed
        invariant Valid() && inClosed && accepted == old(accepted)
        invariant got + queue == old(queue)
        decreases |queue|
      {
        var e := Receive();
        got := got + [e.value];
      }
    }
  }
}
