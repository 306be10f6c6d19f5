/** Lists that keep some elements of another list: which ones, in which order, and how often. */
module Sublists {

  /** `ys` consists of the elements of `xs` at the places `at`, which come in order, each once. */
  predicate Keeps<T(==)>(xs: seq<T>, ys: seq<T>, at: seq<nat>) {
    && |at| == |ys|
    && (forall j, k | 0 <= j < k < |at| :: at[j] < at[k])
    && (forall k {:trigger at[k]} {:trigger ys[k]} | 0 <= k < |at| :: at[k] < |xs| && ys[k] == xs[at[k]])
  }

  lemma KeepsNext<T>(xs: seq<T>, ys: seq<T>, at: seq<nat>, x: T)
    requires Keeps(xs, ys, at)
    ensures Keeps(xs + [x], ys, at)
    ensures Keeps(xs + [x], ys + [x], at + [|xs|])
    ensures |xs| !in at
  {
  }

  predicate InRange<T>(xs: seq<T>, at: seq<nat>) {
    forall k | 0 <= k < |at| :: at[k] < |xs|
  }

  /** The elements at the given places. */
  function Elements<T>(xs: seq<T>, at: seq<nat>): (ys: seq<T>)
    requires InRange(xs, at)
    ensures |ys| == |at| && forall k | 0 <= k < |ys| :: ys[k] == xs[at[k]]
  {
    seq(|at|, k requires 0 <= k < |at| => xs[at[k]])
  }
}
