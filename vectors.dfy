/**
 * `std::vector::resize` as a function on sequences. The ECS core resizes three
 * vectors this way: a pool's storage, the table of pools and the table of
 * entity signatures.
 */
module Vectors {

  /** `v.resize(n, fill)`: keep the first `n` elements, pad with `fill` up to `n`. */
  function Resized<V>(s: seq<V>, n: nat, fill: V): (r: seq<V>)
    ensures |r| == n
    ensures forall i :: 0 <= i < n && i < |s| ==> r[i] == s[i]
    ensures forall i :: |s| <= i < n ==> r[i] == fill
  {
    if n <= |s| then s[..n] else s + seq(n - |s|, _ => fill)
  }

  /**
   * Growing is transparent to values already written: writing slot `i` and then
   * growing is the same as growing and then writing slot `i`.
   */
  lemma {:induction false} GrowKeepsWrite<V>(s: seq<V>, i: nat, v: V, n: nat, fill: V)
    requires i < |s| <= n
    ensures Resized(s[i := v], n, fill) == Resized(s, n, fill)[i := v]
  {
    var a, b := Resized(s[i := v], n, fill), Resized(s, n, fill)[i := v];
    forall j | 0 <= j < n ensures a[j] == b[j] {
      if j < |s| { assert a[j] == s[i := v][j]; }
    }
  }
}
