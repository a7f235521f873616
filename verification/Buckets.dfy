/**
 What a bucket sort computes, for any order in which the entries are visited.
 */
module Buckets {
  import opened Collections

  /** The indices listed in `order` whose value is `b`, in that order. */
  function Pick(vals: seq<nat>, order: seq<nat>, b: nat): seq<nat>
    requires forall k :: 0 <= k < |order| ==> order[k] < |vals|
  {
    if order == [] then []
    else
      var last := order[|order| - 1];
      Pick(vals, order[..|order| - 1], b) + if vals[last] == b then [last] else []
  }

  function Iota(lo: nat, hi: nat): (r: seq<nat>)
    requires lo <= hi
    ensures |r| == hi - lo && forall k :: 0 <= k < |r| ==> r[k] == lo + k
  {
    seq(hi - lo, k requires 0 <= k => lo + k)
  }

  /** Bucket b of the stable sort: the indices with value b, ascending. */
  function Bucket(vals: seq<nat>, b: nat): seq<nat> {
    Pick(vals, Iota(0, |vals|), b)
  }

  /** Where bucket b starts in the sorted output. */
  function Start(vals: seq<nat>, b: nat): nat {
    if b == 0 then 0 else Start(vals, b - 1) + |Bucket(vals, b - 1)|
  }

  /** `lims` and `perm` describe a sort into vmax buckets that visits the entries in `order`. */
  ghost predicate Sorted(vals: seq<nat>, vmax: nat, order: seq<nat>, lims: seq<int>, perm: seq<int>) {
    && (forall k :: 0 <= k < |order| ==> order[k] < |vals|)
    && |lims| == vmax + 1 && |perm| == |vals| == Start(vals, vmax)
    && (forall b {:trigger lims[b]} :: 0 <= b <= vmax ==> lims[b] == Start(vals, b))
    && (forall b {:trigger Pick(vals, order, b)} ::
        0 <= b < vmax ==> Slice(perm, Start(vals, b), Start(vals, b + 1)) == Pick(vals, order, b))
  }

  function Slice(s: seq<int>, lo: int, hi: int): seq<int> {
    if 0 <= lo <= hi <= |s| then s[lo..hi] else []
  }

  lemma {:induction false} PickAppend(vals: seq<nat>, u: seq<nat>, w: seq<nat>, b: nat)
    requires forall k :: 0 <= k < |u| ==> u[k] < |vals|
    requires forall k :: 0 <= k < |w| ==> w[k] < |vals|
    ensures Pick(vals, u + w, b) == Pick(vals, u, b) + Pick(vals, w, b)
  {
    if w == [] {
      assert u + w == u;
    } else {
      var w' := w[..|w| - 1];
      assert (u + w)[..|u + w| - 1] == u + w';
      PickAppend(vals, u, w', b);
    }
  }

  /** Picking never depends on the order for which indices, and how often, it returns. */
  lemma {:induction false} PickCounts(vals: seq<nat>, order: seq<nat>, b: nat, i: nat)
    requires forall k :: 0 <= k < |order| ==> order[k] < |vals|
    ensures i < |vals| ==> multiset(Pick(vals, order, b))[i] == if vals[i] == b then multiset(order)[i] else 0
    ensures i >= |vals| ==> multiset(Pick(vals, order, b))[i] == 0
  {
    if order != [] {
      var n := |order| - 1;
      PickCounts(vals, order[..n], b, i);
      assert order == order[..n] + [order[n]];
    }
  }

  lemma PickPermuted(vals: seq<nat>, u: seq<nat>, w: seq<nat>, b: nat)
    requires forall k :: 0 <= k < |u| ==> u[k] < |vals|
    requires forall k :: 0 <= k < |w| ==> w[k] < |vals|
    requires multiset(u) == multiset(w)
    ensures multiset(Pick(vals, u, b)) == multiset(Pick(vals, w, b))
    ensures |Pick(vals, u, b)| == |Pick(vals, w, b)|
  {
    var p, q := multiset(Pick(vals, u, b)), multiset(Pick(vals, w, b));
    forall i: nat ensures p[i] == q[i] {
      PickCounts(vals, u, b, i);
      PickCounts(vals, w, b, i);
    }
    assert p == q;
    assert |p| == |Pick(vals, u, b)| && |q| == |Pick(vals, w, b)|;
  }

  function Total(vals: seq<nat>, order: seq<nat>, m: nat): nat
    requires forall k :: 0 <= k < |order| ==> order[k] < |vals|
  {
    if m == 0 then 0 else Total(vals, order, m - 1) + |Pick(vals, order, m - 1)|
  }

  lemma {:induction false} TotalStep(vals: seq<nat>, order: seq<nat>, m: nat)
    requires order != [] && forall k :: 0 <= k < |order| ==> order[k] < |vals|
    ensures var last := order[|order| - 1];
            Total(vals, order, m) == Total(vals, order[..|order| - 1], m) + if vals[last] < m then 1 else 0
  {
    if m > 0 { TotalStep(vals, order, m - 1); }
  }

  lemma {:induction false} TotalIsLength(vals: seq<nat>, order: seq<nat>, m: nat)
    requires forall k :: 0 <= k < |order| ==> order[k] < |vals|
    requires forall i :: 0 <= i < |vals| ==> vals[i] < m
    ensures Total(vals, order, m) == |order|
  {
    if order == [] {
      TotalOfNothing(vals, m);
    } else {
      TotalIsLength(vals, order[..|order| - 1], m);
      TotalStep(vals, order, m);
    }
  }

  lemma {:induction false} TotalOfNothing(vals: seq<nat>, m: nat)
    ensures Total(vals, [], m) == 0
  {
    if m > 0 { TotalOfNothing(vals, m - 1); }
  }

  lemma {:induction false} StartIsTotal(vals: seq<nat>, b: nat)
    ensures Start(vals, b) == Total(vals, Iota(0, |vals|), b)
  {
    if b > 0 { StartIsTotal(vals, b - 1); }
  }

  /** With every value below vmax the buckets fill the output exactly. */
  lemma StartEnd(vals: seq<nat>, vmax: nat)
    requires forall i :: 0 <= i < |vals| ==> vals[i] < vmax
    ensures Start(vals, vmax) == |vals|
  {
    StartIsTotal(vals, vmax);
    TotalIsLength(vals, Iota(0, |vals|), vmax);
  }

  lemma {:induction false} StartMonotone(vals: seq<nat>, a: nat, b: nat)
    requires a <= b
    ensures Start(vals, a) <= Start(vals, b)
    decreases b - a
  {
    if a < b { StartMonotone(vals, a, b - 1); }
  }

  lemma BucketOrdered(vals: seq<nat>, a: nat, b: nat)
    requires a < b
    ensures Start(vals, a) + |Bucket(vals, a)| == Start(vals, a + 1) <= Start(vals, b)
  {
    StartMonotone(vals, a + 1, b);
  }

  // -------------------------------------------------------------------------
  // What Sorted means
  // -------------------------------------------------------------------------

  lemma {:induction false} PickMembers(vals: seq<nat>, order: seq<nat>, b: nat)
    requires forall k :: 0 <= k < |order| ==> order[k] < |vals|
    ensures forall i :: i in Pick(vals, order, b) <==> i in order && vals[i] == b
  {
    if order != [] {
      var n := |order| - 1;
      PickMembers(vals, order[..n], b);
      assert order == order[..n] + [order[n]];
    }
  }

  ghost predicate Increasing(s: seq<int>) {
    forall j, k :: 0 <= j < k < |s| ==> s[j] < s[k]
  }

  lemma {:induction false} PickKeepsOrder(vals: seq<nat>, order: seq<nat>, b: nat)
    requires forall k :: 0 <= k < |order| ==> order[k] < |vals|
    requires Increasing(order)
    ensures Increasing(Pick(vals, order, b))
  {
    if order != [] {
      var n := |order| - 1;
      PickKeepsOrder(vals, order[..n], b);
      PickMembers(vals, order[..n], b);
      var p, full := Pick(vals, order[..n], b), Pick(vals, order, b);
      forall j, k | 0 <= j < k < |full| ensures full[j] < full[k] {
        assert full[j] == p[j];
        if k == |p| {
          assert p[j] in p && full[k] == order[n];
          var m :| 0 <= m < n && order[m] == p[j];
        } else {
          assert full[k] == p[k];
        }
      }
    }
  }

  lemma SortedBucket(vals: seq<nat>, vmax: nat, order: seq<nat>, lims: seq<int>, perm: seq<int>, b: nat)
    requires Sorted(vals, vmax, order, lims, perm) && b < vmax
    ensures Start(vals, b) <= Start(vals, b + 1) <= |perm|
    ensures perm[Start(vals, b)..Start(vals, b + 1)] == Pick(vals, order, b)
  {
    StartMonotone(vals, b + 1, vmax);
    assert Slice(perm, Start(vals, b), Start(vals, b + 1)) == Pick(vals, order, b);
  }

  lemma AscendingSlice(s: seq<int>, lo: nat, hi: nat, p: seq<nat>)
    requires lo <= hi <= |s| && s[lo..hi] == p
    requires Increasing(p)
    ensures forall j, k :: lo <= j < k < hi ==> s[j] < s[k]
  {
    forall j, k | lo <= j < k < hi ensures s[j] < s[k] {
      assert s[j] == p[j - lo] && s[k] == p[k - lo];
    }
  }

  /** MAIN: visiting in ascending order gives a stable sort: within a bucket, original order. */
  lemma AscendingVisitIsStable(vals: seq<nat>, vmax: nat, lims: seq<int>, perm: seq<int>, b: nat)
    requires Sorted(vals, vmax, Iota(0, |vals|), lims, perm) && b < vmax
    ensures Start(vals, b) <= Start(vals, b + 1) <= |perm|
    ensures forall p, q :: Start(vals, b) <= p < q < Start(vals, b + 1) ==> perm[p] < perm[q]
  {
    SortedBucket(vals, vmax, Iota(0, |vals|), lims, perm, b);
    PickKeepsOrder(vals, Iota(0, |vals|), b);
    AscendingSlice(perm, Start(vals, b), Start(vals, b + 1), Bucket(vals, b));
  }

  /** MAIN: any two visits of the same indices put the same indices into each bucket. */
  lemma SameBuckets(vals: seq<nat>, vmax: nat, u: seq<nat>, w: seq<nat>, lims: seq<int>, perm: seq<int>,
      lims': seq<int>, perm': seq<int>, b: nat)
    requires Sorted(vals, vmax, u, lims, perm) && Sorted(vals, vmax, w, lims', perm')
    requires multiset(u) == multiset(w) && b < vmax
    ensures lims == lims'
    ensures multiset(Slice(perm, lims[b], lims[b + 1])) == multiset(Slice(perm', lims'[b], lims'[b + 1]))
  {
    PickPermuted(vals, u, w, b);
    assert forall c :: 0 <= c <= vmax ==> lims[c] == lims'[c];
  }

  lemma {:induction false} PrefixIsPicked(vals: seq<nat>, vmax: nat, order: seq<nat>, lims: seq<int>, perm: seq<int>,
      b: nat, i: nat)
    requires Sorted(vals, vmax, order, lims, perm) && b <= vmax && i < |vals|
    ensures Start(vals, b) <= |perm|
    ensures multiset(perm[..Start(vals, b)])[i] == if vals[i] < b then multiset(order)[i] else 0
  {
    if b == 0 {
      assert perm[..0] == [];
    } else {
      hide Pick, Sorted;
      PrefixIsPicked(vals, vmax, order, lims, perm, b - 1, i);
      SortedBucket(vals, vmax, order, lims, perm, b - 1);
      ExtendCount(vals, order, perm, b - 1, i);
    }
  }

  lemma ExtendCount(vals: seq<nat>, order: seq<nat>, perm: seq<int>, b: nat, i: nat)
    requires forall k :: 0 <= k < |order| ==> order[k] < |vals|
    requires Start(vals, b) <= Start(vals, b + 1) <= |perm| && i < |vals|
    requires perm[Start(vals, b)..Start(vals, b + 1)] == Pick(vals, order, b)
    ensures multiset(perm[..Start(vals, b + 1)])[i]
         == multiset(perm[..Start(vals, b)])[i] + if vals[i] == b then multiset(order)[i] else 0
  {
    PickCounts(vals, order, b, i);
    SplitCount(perm, Start(vals, b), Start(vals, b + 1), i);
  }

  lemma SplitCount(s: seq<int>, lo: nat, hi: nat, i: int)
    requires lo <= hi <= |s|
    ensures multiset(s[..hi])[i] == multiset(s[..lo])[i] + multiset(s[lo..hi])[i]
  {
    assert s[..hi] == s[..lo] + s[lo..hi];
  }

  /** MAIN: when every value is below vmax, perm lists each visited index as often as it is visited:
      a permutation of 0..n-1 when each index is visited once. */
  lemma SortedIsPermutation(vals: seq<nat>, vmax: nat, order: seq<nat>, lims: seq<int>, perm: seq<int>, i: nat)
    requires Sorted(vals, vmax, order, lims, perm) && i < |vals| && vals[i] < vmax
    ensures multiset(perm)[i] == multiset(order)[i]
  {
    PrefixIsPicked(vals, vmax, order, lims, perm, vmax, i);
    assert perm[..|perm|] == perm;
  }

  // -------------------------------------------------------------------------
  // Without picking
  // -------------------------------------------------------------------------

  /** The indices with values below b. */
  ghost function IndicesBelow(vals: seq<nat>, b: int): set<int> {
    set i | 0 <= i < |vals| && vals[i] < b
  }

  ghost function IndicesOf(vals: seq<nat>, b: int): set<int> {
    set i | 0 <= i < |vals| && vals[i] == b
  }

  /** The output lists the indices bucket by bucket; `lims` cut it where the next value begins. */
  ghost predicate Grouped(vals: seq<nat>, vmax: nat, lims: seq<int>, perm: seq<int>) {
    && |lims| == vmax + 1 && |perm| == |vals|
    && (forall b {:trigger lims[b]} :: 0 <= b <= vmax ==> lims[b] == |IndicesBelow(vals, b)|)
    && (forall p :: 0 <= p < |perm| ==> 0 <= perm[p] < |vals|)
    && (forall p, q :: 0 <= p < q < |perm| ==> perm[p] != perm[q] && vals[perm[p]] <= vals[perm[q]])
  }

  /** A stable sort: ascending values, equal values in their original order. */
  ghost predicate StablySorted(vals: seq<nat>, vmax: nat, lims: seq<int>, perm: seq<int>) {
    && Grouped(vals, vmax, lims, perm)
    && (forall p, q :: 0 <= p < q < |perm| && vals[perm[p]] == vals[perm[q]] ==> perm[p] < perm[q])
  }

  lemma {:induction false} PositionBucket(vals: seq<nat>, vmax: nat, p: nat) returns (b: nat)
    requires p < Start(vals, vmax)
    ensures b < vmax && Start(vals, b) <= p < Start(vals, b + 1)
  {
    if Start(vals, vmax - 1) <= p { b := vmax - 1; } else { b := PositionBucket(vals, vmax - 1, p); }
  }

  lemma BucketSize(vals: seq<nat>, b: nat)
    ensures |Bucket(vals, b)| == |IndicesOf(vals, b)|
  {
    hide Pick;
    var bucket: seq<int> := Bucket(vals, b);
    PickMembers(vals, Iota(0, |vals|), b);
    PickKeepsOrder(vals, Iota(0, |vals|), b);
    DistinctCount(bucket, |bucket|);
    var members := set k | 0 <= k < |bucket| :: bucket[k];
    forall i | i in IndicesOf(vals, b) ensures i in members {
      assert Iota(0, |vals|)[i] == i;
      assert i in bucket;
    }
    forall k | 0 <= k < |bucket| ensures bucket[k] in IndicesOf(vals, b) {
      assert bucket[k] in Bucket(vals, b);
    }
    assert members == IndicesOf(vals, b);
  }

  lemma {:induction false} StartCounts(vals: seq<nat>, b: nat)
    ensures Start(vals, b) == |IndicesBelow(vals, b)|
  {
    hide Pick;
    if b == 0 {
      assert IndicesBelow(vals, 0) == {};
    } else {
      StartCounts(vals, b - 1);
      BucketSize(vals, b - 1);
      assert IndicesBelow(vals, b) == IndicesBelow(vals, b - 1) + IndicesOf(vals, b - 1);
    }
  }

  /** The entry at position p belongs to the bucket whose slice contains p. */
  lemma EntryOfBucket(vals: seq<nat>, vmax: nat, order: seq<nat>, lims: seq<int>, perm: seq<int>, p: nat)
    returns (b: nat)
    requires Sorted(vals, vmax, order, lims, perm) && p < |perm|
    ensures b < vmax && Start(vals, b) <= p < Start(vals, b + 1)
    ensures perm[p] in order && 0 <= perm[p] < |vals| && vals[perm[p]] == b
  {
    b := PositionBucket(vals, vmax, p);
    SortedBucket(vals, vmax, order, lims, perm, b);
    PickMembers(vals, order, b);
    assert perm[p] == Pick(vals, order, b)[p - Start(vals, b)];
    assert perm[p] in Pick(vals, order, b);
  }

  /** MAIN: in whatever order each index is visited once, the sort groups all indices by value, and the
      limits count the smaller values. */
  lemma SortedIsGrouped(vals: seq<nat>, vmax: nat, order: seq<nat>, lims: seq<int>, perm: seq<int>)
    requires Sorted(vals, vmax, order, lims, perm) && forall i :: 0 <= i < |vals| ==> vals[i] < vmax
    requires forall i: nat :: i < |vals| ==> multiset(order)[i] == 1
    ensures Grouped(vals, vmax, lims, perm)
  {
    hide Start, Pick;
    forall b: nat | b <= vmax ensures lims[b] == |IndicesBelow(vals, b)| {
      StartCounts(vals, b);
    }
    forall p | 0 <= p < |perm| ensures 0 <= perm[p] < |vals| {
      var _ := EntryOfBucket(vals, vmax, order, lims, perm, p);
    }
    forall p, q | 0 <= p < q < |perm| ensures perm[p] != perm[q] && vals[perm[p]] <= vals[perm[q]] {
      var a := EntryOfBucket(vals, vmax, order, lims, perm, p);
      var b := EntryOfBucket(vals, vmax, order, lims, perm, q);
      if b < a { StartMonotone(vals, b + 1, a); }
      if perm[p] == perm[q] {
        SortedIsPermutation(vals, vmax, order, lims, perm, perm[p]);
        Twice(perm, p, q);
      }
    }
  }

  lemma Twice(s: seq<int>, p: nat, q: nat)
    requires p < q < |s| && s[p] == s[q]
    ensures multiset(s)[s[p]] >= 2
  {
    assert s == s[..q] + [s[q]] + s[q + 1..];
    assert s[..q][p] == s[p];
    assert s[p] in s[..q];
  }

  lemma {:induction false} IotaCount(lo: nat, hi: nat, i: nat)
    requires lo <= hi
    ensures multiset(Iota(lo, hi))[i] == if lo <= i < hi then 1 else 0
    decreases hi
  {
    if lo < hi {
      IotaCount(lo, hi - 1, i);
      assert Iota(lo, hi) == Iota(lo, hi - 1) + [hi - 1];
    }
  }

  /** MAIN: visiting in ascending order sorts stably. */
  lemma SortedIsStable(vals: seq<nat>, vmax: nat, lims: seq<int>, perm: seq<int>)
    requires Sorted(vals, vmax, Iota(0, |vals|), lims, perm) && forall i :: 0 <= i < |vals| ==> vals[i] < vmax
    ensures StablySorted(vals, vmax, lims, perm)
  {
    hide Start, Pick;
    forall i: nat | i < |vals| ensures multiset(Iota(0, |vals|))[i] == 1 { IotaCount(0, |vals|, i); }
    SortedIsGrouped(vals, vmax, Iota(0, |vals|), lims, perm);
    forall p, q | 0 <= p < q < |perm| && vals[perm[p]] == vals[perm[q]] ensures perm[p] < perm[q] {
      var a := EntryOfBucket(vals, vmax, Iota(0, |vals|), lims, perm, p);
      var b := EntryOfBucket(vals, vmax, Iota(0, |vals|), lims, perm, q);
      AscendingVisitIsStable(vals, vmax, lims, perm, a);
    }
  }
}
