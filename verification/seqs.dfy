/** Small sequence helpers used throughout the model. */
module Seqs {

  /** `n` copies of `x`. */
  function Replicate<T>(x: T, n: nat): (r: seq<T>)
    ensures |r| == n
    ensures forall i :: 0 <= i < n ==> r[i] == x
  {
    if n == 0 then [] else [x] + Replicate(x, n - 1)
  }

  /** A run of `a` followed by a run of `b`: position `i` holds `a` exactly
      when it lies in the first run. */
  lemma TwoRuns<T>(a: T, m: nat, b: T, n: nat)
    ensures |Replicate(a, m) + Replicate(b, n)| == m + n
    ensures forall i :: 0 <= i < m + n ==> (Replicate(a, m) + Replicate(b, n))[i] == if i < m then a else b
  {
  }
}
