/** The same step many times, and bytes passed on from one sequence to the next. */
module Sequences {
  function Repeat<X>(a: X, k: nat): (acts: seq<X>)
    ensures |acts| == k && forall i :: 0 <= i < k ==> acts[i] == a
  {
    if k == 0 then [] else [a] + Repeat(a, k - 1)
  }

  lemma Transfer<T>(a: seq<T>, b: seq<T>, m: nat)
    requires m <= |b|
    ensures (a + b[..m]) + b[m..] == a + b
  {}

  lemma Regroup<T>(a: seq<T>, b: seq<T>, m: nat, c: seq<T>)
    requires m <= |b|
    ensures (a + b[..m]) + (b[m..] + c) == a + (b + c)
  {}
}
