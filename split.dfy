/** Package layout, file split.go: the `SplitFunc` contract and `EvenSplit`. */
module Split {
  import opened Outcome
  import opened Geom

  /** The `SplitFunc` contract: for a non-negative number of elements, one
      length per element, and the lengths add up to the space split (which
      no function can do for zero elements and a non-zero space). */
  ghost predicate HonoursContract(f: (int, int) -> seq<int>)
  {
    forall elements: int, space: int {:trigger f(elements, space)} ::
      elements >= 0 ==>
        |f(elements, space)| == elements && (elements > 0 ==> Sum(f(elements, space)) == space)
  }

  /** The lengths `EvenSplit` appends, one loop round per element: each round
      takes the remaining width divided (truncating) by the remaining count. */
  function EvenSplitSpec(elements: nat, width: int): (r: seq<int>)
    ensures |r| == elements
    decreases elements
  {
    if elements == 0 then []
    else
      var v := TruncDiv(width, elements);
      [v] + EvenSplitSpec(elements - 1, width - v)
  }

  /** `EvenSplit(elements, width)`: `make` with a negative capacity panics, so
      a negative element count is an error; otherwise the loop's result. */
  method EvenSplit(elements: int, width: int) returns (r: Result<seq<int>>)
    ensures elements < 0 ==> r == Panic(MakeSliceCap)
    ensures elements >= 0 ==> r == Ok(EvenSplitSpec(elements, width))
  {
    if elements < 0 {
      return Panic(MakeSliceCap);
    }
    var ret: seq<int> := [];
    var e, w := elements, width;
    while e > 0
      invariant 0 <= e <= elements
      invariant ret + EvenSplitSpec(e, w) == EvenSplitSpec(elements, width)
    {
      var v := TruncDiv(w, e);
      ghost var tail := EvenSplitSpec(e - 1, w - v);
      assert EvenSplitSpec(e, w) == [v] + tail;
      assert (ret + [v]) + tail == ret + ([v] + tail);
      w := w - v;
      e := e - 1;
      ret := ret + [v];
    }
    assert ret + EvenSplitSpec(e, w) == ret;
    return Ok(ret);
  }

  /** The lengths add up to exactly the width, whatever its sign. */
  lemma {:induction false} EvenSplitSum(elements: nat, width: int)
    ensures elements > 0 ==> Sum(EvenSplitSpec(elements, width)) == width
    ensures elements == 0 ==> EvenSplitSpec(elements, width) == []
    decreases elements
  {
    if elements > 0 {
      var v := TruncDiv(width, elements);
      var rest := EvenSplitSpec(elements - 1, width - v);
      EvenSplitSum(elements - 1, width - v);
      SumAppend([v], rest);
      assert Sum([v]) == v by { assert [v][..0] == []; }
      if elements == 1 {
        assert v == width by { TruncDivMul(width, 1); assert width * 1 == width; }
      }
    }
  }

  /** For a non-negative width: the first `elements - width % elements`
      lengths are `width / elements`, the rest one more, so the remainder goes
      to the later elements. */
  lemma {:induction false} EvenSplitClosedForm(elements: nat, width: int, i: nat)
    requires width >= 0 && i < elements
    ensures EvenSplitSpec(elements, width)[i]
            == if i < elements - width % elements then width / elements else width / elements + 1
    decreases elements
  {
    var n, q := elements, width / elements;
    TruncDivNonNegative(width, n);
    var rest := EvenSplitSpec(n - 1, width - q);
    assert EvenSplitSpec(n, width) == [q] + rest;
    if i > 0 {
      EvenSplitNext(n, width);
      EvenSplitClosedForm(n - 1, width - q, i - 1);
    }
  }

  /** After the first round the remaining width splits among one element
      fewer with the same quotient, or with one more when the remainder
      was n - 1. */
  lemma EvenSplitNext(n: nat, width: int)
    requires width >= 0 && n > 1
    ensures var q, m := width / n, width % n;
            width - q >= 0 &&
            (m < n - 1 ==> (width - q) / (n - 1) == q && (width - q) % (n - 1) == m) &&
            (m >= n - 1 ==> (width - q) / (n - 1) == q + 1 && (width - q) % (n - 1) == 0)
  {
    var q, m := width / n, width % n;
    var w' := width - q;
    assert width == n * q + m;
    assert q * (n - 1) == n * q - q;
    assert w' == (n - 1) * q + m;
    if m < n - 1 {
      DivModUnique(w', n - 1, q, m);
    } else {
      assert (n - 1) * (q + 1) == (n - 1) * q + (n - 1);
      assert w' == (n - 1) * (q + 1) + 0;
      DivModUnique(w', n - 1, q + 1, 0);
    }
  }

  /** With a non-negative width every length is non-negative, two lengths
      differ by at most one, and the lengths never decrease. */
  lemma EvenSplitAlmostEven(elements: nat, width: int, i: nat, j: nat)
    requires width >= 0 && i <= j < elements
    ensures var s := EvenSplitSpec(elements, width);
            0 <= s[i] <= s[j] <= s[i] + 1
  {
    EvenSplitClosedForm(elements, width, i);
    EvenSplitClosedForm(elements, width, j);
  }

  lemma EvenSplitExample()
    ensures EvenSplitSpec(3, 10) == [3, 3, 4]
  {
    assert TruncDiv(10, 3) == 3;
    assert TruncDiv(7, 2) == 3;
    assert TruncDiv(4, 1) == 4;
  }

  /** The way a layout splits space: `EvenSplit`, or a caller's own function. */
  /** `Nil` is a nil function value, which a layout that does not
      replace it calls anyway. */
  datatype Splitter = Even | Custom(f: (int, int) -> seq<int>) | Nil


  /** The result of calling a splitter; calling a nil function panics. */
  function Apply(s: Splitter, elements: int, space: int): Result<seq<int>>
  {
    match s
    case Even => if elements < 0 then Panic(MakeSliceCap) else Ok(EvenSplitSpec(elements, space))
    case Custom(f) => Ok(f(elements, space))
    case Nil => Panic(NilDereference)
  }

  /** `EvenSplit` honours the `SplitFunc` contract. */
  lemma EvenHonoursContract(elements: int, space: int)
    requires elements >= 0
    ensures Apply(Even, elements, space).Ok?
    ensures |Apply(Even, elements, space).value| == elements
    ensures elements > 0 ==> Sum(Apply(Even, elements, space).value) == space
  {
    EvenSplitSum(elements, space);
  }

  /** Calling a splitter: `EvenSplit` runs its loop, a custom one is applied. */
  method Call(s: Splitter, elements: int, space: int) returns (r: Result<seq<int>>)
    ensures r == Apply(s, elements, space)
  {
    match s {
      case Even => r := EvenSplit(elements, space);
      case Custom(f) => r := Ok(f(elements, space));
      case Nil => r := Panic(NilDereference);
    }
  }
}
