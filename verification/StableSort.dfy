/** Python's stable descending sort, `sorted(xs, key=key, reverse=True)`: what it returns, and that
    nothing else is sorted and keeps the order of equal keys. */
module StableSort {
  import opened Sublists

  function Insert<T>(x: T, ys: seq<T>, key: T -> real): seq<T> {
    if ys == [] || key(x) >= key(ys[0]) then [x] + ys else [ys[0]] + Insert(x, ys[1..], key)
  }

  function Sort<T>(xs: seq<T>, key: T -> real): seq<T> {
    if xs == [] then [] else Insert(xs[0], Sort(xs[1..], key), key)
  }

  predicate Descending<T>(ys: seq<T>, key: T -> real) {
    forall i, j | 0 <= i < j < |ys| :: key(ys[i]) >= key(ys[j])
  }

  function Kept<T>(x: T, key: T -> real, k: real): seq<T> {
    if key(x) == k then [x] else []
  }

  /** The elements with one key, in order. */
  function WithKey<T>(xs: seq<T>, key: T -> real, k: real): seq<T> {
    if xs == [] then [] else Kept(xs[0], key, k) + WithKey(xs[1..], key, k)
  }

  /** `ys` has the elements of `xs`, those with equal keys in the same order. */
  ghost predicate Stable<T>(xs: seq<T>, ys: seq<T>, key: T -> real) {
    forall k: real :: WithKey(ys, key, k) == WithKey(xs, key, k)
  }

  lemma ConsDescending<T>(x: T, ys: seq<T>, key: T -> real)
    requires Descending(ys, key)
    requires forall y | y in multiset(ys) :: key(x) >= key(y)
    ensures Descending([x] + ys, key)
  {
  }

  lemma {:induction false} InsertMembers<T>(x: T, ys: seq<T>, key: T -> real)
    ensures multiset(Insert(x, ys, key)) == multiset(ys) + multiset{x}
  {
    if ys != [] {
      assert ys == [ys[0]] + ys[1..];
      if key(x) < key(ys[0]) {
        InsertMembers(x, ys[1..], key);
      }
    }
  }

  lemma {:induction false} InsertDescending<T>(x: T, ys: seq<T>, key: T -> real)
    requires Descending(ys, key)
    ensures Descending(Insert(x, ys, key), key)
  {
    if ys == [] || key(x) >= key(ys[0]) {
      ConsDescending(x, ys, key);
    } else {
      InsertDescending(x, ys[1..], key);
      InsertMembers(x, ys[1..], key);
      ConsDescending(ys[0], Insert(x, ys[1..], key), key);
    }
  }

  lemma WithKeyCons<T>(x: T, ys: seq<T>, key: T -> real, k: real)
    ensures WithKey([x] + ys, key, k) == Kept(x, key, k) + WithKey(ys, key, k)
  {
  }

  lemma {:induction false} InsertStable<T>(x: T, ys: seq<T>, key: T -> real, k: real)
    ensures WithKey(Insert(x, ys, key), key, k) == Kept(x, key, k) + WithKey(ys, key, k)
  {
    if ys == [] || key(x) >= key(ys[0]) {
      WithKeyCons(x, ys, key, k);
    } else {
      InsertStable(x, ys[1..], key, k);
      WithKeyCons(ys[0], Insert(x, ys[1..], key), key, k);
      assert Kept(x, key, k) == [] || Kept(ys[0], key, k) == [];
    }
  }

  lemma {:induction false} SortStableAt<T>(xs: seq<T>, key: T -> real, k: real)
    ensures WithKey(Sort(xs, key), key, k) == WithKey(xs, key, k)
  {
    if xs != [] {
      SortStableAt(xs[1..], key, k);
      InsertStable(xs[0], Sort(xs[1..], key), key, k);
    }
  }

  lemma {:induction false} SortMembers<T>(xs: seq<T>, key: T -> real)
    ensures multiset(Sort(xs, key)) == multiset(xs)
  {
    if xs != [] {
      SortMembers(xs[1..], key);
      InsertMembers(xs[0], Sort(xs[1..], key), key);
      assert xs == [xs[0]] + xs[1..];
    }
  }

  lemma {:induction false} SortDescending<T>(xs: seq<T>, key: T -> real)
    ensures Descending(Sort(xs, key), key)
  {
    if xs != [] {
      SortDescending(xs[1..], key);
      InsertDescending(xs[0], Sort(xs[1..], key), key);
    }
  }

  lemma {:induction false} KeyFound<T>(ys: seq<T>, key: T -> real, k: real)
    requires WithKey(ys, key, k) != []
    ensures exists i :: 0 <= i < |ys| && key(ys[i]) == k
  {
    if key(ys[0]) != k {
      KeyFound(ys[1..], key, k);
      var i :| 0 <= i < |ys[1..]| && key(ys[1..][i]) == k;
      assert ys[i + 1] == ys[1..][i];
    }
  }

  lemma HeadBelow<T>(ys: seq<T>, zs: seq<T>, key: T -> real)
    requires Descending(zs, key) && Stable(ys, zs, key) && ys != []
    ensures zs != [] && key(ys[0]) <= key(zs[0])
  {
    assert WithKey(ys, key, key(ys[0])) != [];
    assert WithKey(zs, key, key(ys[0])) != [];
    KeyFound(zs, key, key(ys[0]));
  }

  lemma HeadKept<T>(ys: seq<T>, key: T -> real)
    requires ys != []
    ensures WithKey(ys, key, key(ys[0])) != []
  {
  }

  lemma SameLength<T>(ys: seq<T>, zs: seq<T>, key: T -> real)
    requires Stable(ys, zs, key) && (ys == [] || zs == [])
    ensures ys == zs
  {
    if ys != [] {
      HeadKept(ys, key);
    } else if zs != [] {
      HeadKept(zs, key);
    }
  }

  /** Descending order and stability leave one possible outcome. */
  lemma {:induction false} StableUnique<T>(ys: seq<T>, zs: seq<T>, key: T -> real)
    requires Descending(ys, key) && Descending(zs, key) && Stable(ys, zs, key)
    ensures ys == zs
  {
    if ys == [] || zs == [] {
      SameLength(ys, zs, key);
    } else {
      HeadBelow(ys, zs, key);
      HeadBelow(zs, ys, key);
      var k := key(ys[0]);
      assert WithKey(ys, key, k) == WithKey(zs, key, k);
      assert WithKey(ys, key, k)[0] == ys[0] && WithKey(zs, key, k)[0] == zs[0];
      forall k' ensures WithKey(zs[1..], key, k') == WithKey(ys[1..], key, k') {
        assert WithKey(zs, key, k') == WithKey(ys, key, k');
        TailWithKey(ys, key, k');
        TailWithKey(zs, key, k');
      }
      StableUnique(ys[1..], zs[1..], key);
    }
  }

  lemma TailWithKey<T>(ys: seq<T>, key: T -> real, k: real)
    requires ys != []
    ensures WithKey(ys[1..], key, k) == WithKey(ys, key, k)[if key(ys[0]) == k then 1 else 0..]
  {
  }

  /** The sort is the stable descending rearrangement of its input, and the only one. */
  lemma SortCorrect<T>(xs: seq<T>, ys: seq<T>, key: T -> real)
    ensures ys == Sort(xs, key) <==> Descending(ys, key) && Stable(xs, ys, key)
  {
    SortDescending(xs, key);
    forall k ensures WithKey(Sort(xs, key), key, k) == WithKey(xs, key, k) {
      SortStableAt(xs, key, k);
    }
    if Descending(ys, key) && Stable(xs, ys, key) {
      assert Stable(ys, Sort(xs, key), key);
      StableUnique(ys, Sort(xs, key), key);
    }
  }

  // ---------- Ranks and places ----------

  /** The element at one place comes before the one at another: its key is larger, or the keys are equal and
      its place is the earlier one. */
  predicate Outranks<T>(xs: seq<T>, key: T -> real, i: nat, j: nat)
    requires i < |xs| && j < |xs|
  {
    key(xs[i]) > key(xs[j]) || (key(xs[i]) == key(xs[j]) && i < j)
  }

  /** `ys` holds the elements of `xs` at the places `at`, each outranking the next. */
  predicate IsRanked<T(==)>(xs: seq<T>, key: T -> real, ys: seq<T>, at: seq<nat>) {
    && |at| == |ys|
    && (forall k {:trigger at[k]} {:trigger ys[k]} | 0 <= k < |at| :: at[k] < |xs| && ys[k] == xs[at[k]])
    && (forall j, k | 0 <= j < k < |at| :: Outranks(xs, key, at[j], at[k]))
  }

  lemma {:induction false} InsertPlace<T>(x: T, ys: seq<T>, key: T -> real) returns (p: nat)
    requires Descending(ys, key)
    ensures p <= |ys| && Insert(x, ys, key) == ys[..p] + [x] + ys[p..]
    ensures forall i | 0 <= i < p :: key(ys[i]) > key(x)
    ensures forall i | p <= i < |ys| :: key(ys[i]) <= key(x)
  {
    if ys == [] || key(x) >= key(ys[0]) {
      p := 0;
    } else {
      var q := InsertPlace(x, ys[1..], key);
      p := q + 1;
      assert ys[..p] == [ys[0]] + ys[1..][..q] && ys[p..] == ys[1..][q..];
    }
  }

  function Shifted(at: seq<nat>): (r: seq<nat>)
    ensures |r| == |at| && forall k | 0 <= k < |at| :: r[k] == at[k] + 1
  {
    seq(|at|, k requires 0 <= k < |at| => at[k] + 1)
  }

  lemma RankedInsert<T>(xs: seq<T>, key: T -> real, ys: seq<T>, at: seq<nat>, p: nat)
    requires xs != [] && IsRanked(xs[1..], key, ys, at) && p <= |ys|
    requires forall i | 0 <= i < p :: key(ys[i]) > key(xs[0])
    requires forall i | p <= i < |ys| :: key(ys[i]) <= key(xs[0])
    ensures IsRanked(xs, key, ys[..p] + [xs[0]] + ys[p..], Shifted(at)[..p] + [0] + Shifted(at)[p..])
  {
    var zs, to := ys[..p] + [xs[0]] + ys[p..], Shifted(at)[..p] + [0] + Shifted(at)[p..];
    forall k | 0 <= k < |to| ensures to[k] < |xs| && zs[k] == xs[to[k]] {
      if k != p {
        var m := if k < p then k else k - 1;
        assert to[k] == at[m] + 1 && zs[k] == ys[m] && xs[1..][at[m]] == xs[at[m] + 1];
      }
    }
    forall j, k | 0 <= j < k < |to| ensures Outranks(xs, key, to[j], to[k]) {
      if j != p && k != p {
        var m, n := if j < p then j else j - 1, if k < p then k else k - 1;
        assert to[j] == at[m] + 1 && to[k] == at[n] + 1;
        assert Outranks(xs[1..], key, at[m], at[n]);
        assert xs[1..][at[m]] == xs[at[m] + 1] && xs[1..][at[n]] == xs[at[n] + 1];
      }
    }
  }

  /** The sort ranks all elements. */
  lemma {:induction false} SortRanks<T>(xs: seq<T>, key: T -> real) returns (at: seq<nat>)
    ensures IsRanked(xs, key, Sort(xs, key), at)
    ensures forall i | 0 <= i < |xs| :: i in at
  {
    at := [];
    if xs != [] {
      var ys := Sort(xs[1..], key);
      var before := SortRanks(xs[1..], key);
      SortDescending(xs[1..], key);
      var p := InsertPlace(xs[0], ys, key);
      RankedInsert(xs, key, ys, before, p);
      at := Shifted(before)[..p] + [0] + Shifted(before)[p..];
      forall i | 0 <= i < |xs| ensures i in at {
        PlaceKept(before, p, i);
      }
    }
  }

  lemma PlaceKept(at: seq<nat>, p: nat, i: nat)
    requires p <= |at| && (i == 0 || i - 1 in at)
    ensures i in Shifted(at)[..p] + [0] + Shifted(at)[p..]
  {
    var to := Shifted(at)[..p] + [0] + Shifted(at)[p..];
    if i == 0 {
      assert to[p] == 0;
    } else {
      var k :| 0 <= k < |at| && at[k] == i - 1;
      assert to[if k < p then k else k + 1] == i;
    }
  }

  /** `ys` is a best-first listing of those elements of `xs` that are wanted: what it leaves out of them is
      outranked by all it holds. */
  predicate IsBest<T(==)>(xs: seq<T>, wanted: T -> bool, key: T -> real, ys: seq<T>, at: seq<nat>) {
    && IsRanked(xs, key, ys, at)
    && (forall k | 0 <= k < |ys| :: wanted(ys[k]))
    && (forall i, k | 0 <= i < |xs| && wanted(xs[i]) && i !in at && 0 <= k < |at| :: Outranks(xs, key, at[k], i))
  }

  predicate HoldsAll<T>(xs: seq<T>, wanted: T -> bool, at: seq<nat>) {
    forall i | 0 <= i < |xs| && wanted(xs[i]) :: i in at
  }

  /** Keeping the wanted elements and sorting them lists them all, best first. */
  lemma KeptAndSorted<T>(xs: seq<T>, wanted: T -> bool, key: T -> real, kept: seq<T>, from: seq<nat>) returns (at: seq<nat>)
    requires Keeps(xs, kept, from) && forall i | 0 <= i < |xs| :: i in from <==> wanted(xs[i])
    ensures IsRanked(xs, key, Sort(kept, key), at) && HoldsAll(xs, wanted, at)
    ensures forall k | 0 <= k < |at| :: wanted(xs[at[k]])
  {
    var own := SortRanks(kept, key);
    at := Elements(from, own);
    forall j, k | 0 <= j < k < |at| ensures Outranks(xs, key, at[j], at[k]) {
      assert Outranks(kept, key, own[j], own[k]);
    }
    forall i | 0 <= i < |xs| && wanted(xs[i]) ensures i in at {
      var m :| 0 <= m < |from| && from[m] == i;
      assert m in own;
      var k :| 0 <= k < |own| && own[k] == m;
      assert at[k] == i;
    }
    forall k | 0 <= k < |at| ensures wanted(xs[at[k]]) {
      assert at[k] in from;
    }
  }

  lemma SameRanking<T>(xs: seq<T>, key: T -> real, key': T -> real, ys: seq<T>, at: seq<nat>)
    requires IsRanked(xs, key, ys, at) && forall i | 0 <= i < |xs| :: key'(xs[i]) == key(xs[i])
    ensures IsRanked(xs, key', ys, at)
  {
    forall j, k | 0 <= j < k < |at| ensures Outranks(xs, key', at[j], at[k]) {
      assert Outranks(xs, key, at[j], at[k]);
    }
  }

  lemma BehindFront(at: seq<nat>, n: nat, i: nat) returns (m: nat)
    requires n <= |at| && i in at && i !in at[..n]
    ensures n <= m < |at| && at[m] == i
  {
    assert at == at[..n] + at[n..];
    var k :| 0 <= k < |at[n..]| && at[n..][k] == i;
    m := n + k;
  }

  /** So the first ones of them are the best. */
  lemma FrontIsBest<T>(xs: seq<T>, wanted: T -> bool, key: T -> real, ys: seq<T>, at: seq<nat>, n: nat)
    requires IsRanked(xs, key, ys, at) && HoldsAll(xs, wanted, at) && n <= |ys|
    requires forall k | 0 <= k < |at| :: wanted(xs[at[k]])
    ensures IsBest(xs, wanted, key, ys[..n], at[..n])
    ensures n == |ys| ==> HoldsAll(xs, wanted, at[..n])
  {
    forall i, k | 0 <= i < |xs| && wanted(xs[i]) && i !in at[..n] && 0 <= k < n ensures Outranks(xs, key, at[k], i) {
      var m := BehindFront(at, n, i);
    }
    if n == |ys| {
      assert at[..n] == at;
    }
  }
}
