/** Option and Result values shared by the whole model. A Go panic is modelled
    as the `Panic` alternative of a `Result`, carrying the panic message. */
module Outcome {

  datatype Option<T> = None | Some(value: T)

  datatype Result<T> = Ok(value: T) | Panic(reason: string)

  /** The Go runtime's panic messages. The runtime's own errors carry the
      "runtime error: " prefix; the channel panics do not. An index out of
      range is reported here without the "[i] with length n" suffix Go
      appends. */
  const NilDereference := "runtime error: invalid memory address or nil pointer dereference"
  const DivideByZero := "runtime error: integer divide by zero"
  const IndexOutOfRange := "runtime error: index out of range"
  const MakeSliceLen := "runtime error: makeslice: len out of range"
  const MakeSliceCap := "runtime error: makeslice: cap out of range"
  const CloseOfClosed := "close of closed channel"
  const SendOnClosed := "send on closed channel"

  /** Sum of a sequence of integers. */
  function Sum(s: seq<int>): int
  {
    if s == [] then 0 else Sum(s[..|s| - 1]) + s[|s| - 1]
  }

  /** Sum distributes over concatenation. */
  lemma {:induction false} SumAppend(a: seq<int>, b: seq<int>)
    ensures Sum(a + b) == Sum(a) + Sum(b)
    decreases |b|
  {
    if b == [] {
      assert a + b == a;
    } else {
      assert (a + b)[..|a + b| - 1] == a + b[..|b| - 1];
      SumAppend(a, b[..|b| - 1]);
    }
  }

  /** Summing a prefix one element further adds that element. */
  lemma SumPrefixStep(s: seq<int>, i: nat)
    requires i < |s|
    ensures Sum(s[..i + 1]) == Sum(s[..i]) + s[i]
  {
    assert s[..i + 1][..i] == s[..i];
  }
}
