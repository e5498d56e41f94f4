/** The two Python built-ins whose exact behaviour the modelled code depends on:
    `int()` applied to a float, and subscripting a list with an `int`. */
module Python {
  import opened Wrappers

  /** `int(x)` for a float `x`: truncation toward zero (not floor). */
  function Int(x: real): (n: int)
    ensures x >= 0.0 ==> n as real <= x < n as real + 1.0
    ensures x < 0.0 ==> x <= n as real < x + 1.0
  {
    if x >= 0.0 then x.Floor else -((-x).Floor)
  }

  /** `xs[i]`: negative indices count from the end, and anything outside
      `-len(xs) <= i < len(xs)` raises `IndexError` (here `None`). */
  function Subscript<T>(xs: seq<T>, i: int): (r: Option<T>)
    ensures r.Some? <==> -|xs| <= i < |xs|
    ensures 0 <= i < |xs| ==> r == Some(xs[i])
    ensures -|xs| <= i < 0 ==> r == Some(xs[|xs| + i])
  {
    if 0 <= i < |xs| then Some(xs[i])
    else if -|xs| <= i < 0 then Some(xs[|xs| + i])
    else None
  }

  /** Truncation toward zero is monotone. */
  lemma IntMonotone(x: real, y: real)
    requires x <= y
    ensures Int(x) <= Int(y)
  {
  }
}
