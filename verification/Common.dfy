/** An optional value. */
module Options {
  datatype Option<T> = None | Some(value: T)
}

/** Multiples and remainders. */
module Arithmetic {

  lemma MulMonotone(a: int, b: int, c: int)
    requires a <= b && 0 <= c
    ensures a * c <= b * c
  {}

  lemma ModUnique(a: int, q: int, r: int, n: int)
    requires 0 < n && 0 <= r < n && a == q * n + r
    ensures a % n == r
  {
    var p, s := a / n, a % n;
    assert a == p * n + s;
    if p < q { MulMonotone(p + 1, q, n); } else if q < p { MulMonotone(q + 1, p, n); }
  }
}

/** Money and shares, as exact reals. */
module Reals {

  function Max(a: real, b: real): real { if a < b then b else a }

  function Min(a: real, b: real): real { if a < b then a else b }

  function Sum(sizes: seq<real>): real {
    if sizes == [] then 0.0 else sizes[0] + Sum(sizes[1..])
  }

  lemma {:induction false} SumNonNegative(sizes: seq<real>)
    requires forall i :: 0 <= i < |sizes| ==> 0.0 <= sizes[i]
    ensures 0.0 <= Sum(sizes)
    decreases |sizes|
  {
    if sizes != [] { SumNonNegative(sizes[1..]); }
  }

  lemma {:induction false} SumOfMore(sizes: seq<real>, last: real)
    ensures Sum(sizes + [last]) == Sum(sizes) + last
    decreases |sizes|
  {
    if sizes != [] {
      assert (sizes + [last])[1..] == sizes[1..] + [last];
      SumOfMore(sizes[1..], last);
    }
  }
}
