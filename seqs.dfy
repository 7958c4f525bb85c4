/** `System.Array.LastIndexOf`, shared by the handlers. */
module Seqs {
  /** `System.Array.LastIndexOf`: the last position of `x` in `xs`, or -1. */
  function LastIndexOf<T(==)>(x: T, xs: seq<T>): (r: int)
    ensures -1 <= r < |xs|
    ensures r == -1 <==> x !in xs
    ensures r >= 0 ==> xs[r] == x && forall j :: r < j < |xs| ==> xs[j] != x
  {
    if xs == [] then -1
    else if xs[|xs| - 1] == x then |xs| - 1
    else LastIndexOf(x, xs[..|xs| - 1])
  }
}
