/**
 The out-of-place bucket sorts: the sequential reference and the multi-threaded version, the latter
 for every number of threads, every order of entering its critical sections and every interleaving
 of the threads' writes.
 */
module BucketSort {
  import opened Buckets
  import opened Collections
  import opened Bits

  // -------------------------------------------------------------------------
  // Shared phases
  // -------------------------------------------------------------------------

  lemma PickUpTo(vals: seq<nat>, i: nat, b: nat)
    requires i < |vals|
    ensures Pick(vals, Iota(0, i + 1), b) == Pick(vals, Iota(0, i), b) + (if vals[i] == b then [i] else [])
  {
    assert Iota(0, i + 1)[..i] == Iota(0, i);
  }

  lemma PickWithin(vals: seq<nat>, i: nat, b: nat)
    requires i <= |vals|
    ensures |Pick(vals, Iota(0, i), b)| <= |Bucket(vals, b)|
  {
    PickAppend(vals, Iota(0, i), Iota(i, |vals|), b);
    assert Iota(0, i) + Iota(i, |vals|) == Iota(0, |vals|);
  }

  /** Bucket sizes become bucket ends. */
  method CumulativeSum(ghost vals: seq<nat>, vmax: nat, lims: array<int>)
    requires lims.Length == vmax + 1 && lims[0] == 0
    requires forall b :: 0 <= b < vmax ==> lims[b + 1] == |Bucket(vals, b)|
    modifies lims
    ensures forall b :: 0 <= b <= vmax ==> lims[b] == Start(vals, b)
  {
    for i := 0 to vmax
      invariant forall b :: 0 <= b <= i ==> lims[b] == Start(vals, b)
      invariant forall b :: i <= b < vmax ==> lims[b + 1] == |Bucket(vals, b)|
    {
      lims[i + 1] := lims[i + 1] + lims[i];
    }
  }

  /** Each cursor has reached the start of the next bucket; move them back. */
  method ShiftBack(ghost vals: seq<nat>, vmax: nat, lims: array<int>)
    requires lims.Length == vmax + 1
    requires forall b :: 0 <= b < vmax ==> lims[b] == Start(vals, b + 1)
    modifies lims
    ensures forall b :: 0 <= b <= vmax ==> lims[b] == Start(vals, b)
  {
    var i := vmax;
    while i > 0
      invariant 0 <= i <= vmax
      invariant forall b :: 0 <= b < i ==> lims[b] == Start(vals, b + 1)
      invariant forall b :: i < b <= vmax ==> lims[b] == Start(vals, b)
    {
      lims[i] := lims[i - 1];
      i := i - 1;
    }
    lims[0] := 0;
  }

  // -------------------------------------------------------------------------
  // Sequential reference
  // -------------------------------------------------------------------------

  /** lims[b + 1] counts the first i entries that belong to bucket b. */
  ghost predicate Counted(vals: seq<nat>, i: nat, b: nat, lims: seq<int>)
    requires i <= |vals|
  {
    b + 1 < |lims| && lims[b + 1] == |Pick(vals, Iota(0, i), b)|
  }

  method BucketSortRef(vals: seq<nat>, vmax: nat, lims: array<int>, perm: array<int>) returns (ok: bool)
    requires lims.Length == vmax + 1 && perm.Length == |vals| && lims != perm
    modifies lims, perm
    ensures ok <==> forall i :: 0 <= i < |vals| ==> vals[i] < vmax
    ensures ok ==> Sorted(vals, vmax, Iota(0, |vals|), lims[..], perm[..])
    ensures ok ==> StablySorted(vals, vmax, lims[..], perm[..])
  {
    hide Pick, Start, StablySorted;
    ok := CountRef(vals, vmax, lims);
    if !ok { return; }
    CumulativeSum(vals, vmax, lims);
    StartEnd(vals, vmax);
    Populate(vals, vmax, lims, perm);
    ShiftBack(vals, vmax, lims);
    assert forall b {:trigger lims[..][b]} :: 0 <= b <= vmax ==> lims[..][b] == lims[b];
    SortedIsStable(vals, vmax, lims[..], perm[..]);
  }

  /** One pass over the values: lims[b + 1] counts bucket b; stops at a value that is no bucket number. */
  method CountRef(vals: seq<nat>, vmax: nat, lims: array<int>) returns (ok: bool)
    requires lims.Length == vmax + 1
    modifies lims
    ensures ok <==> forall i :: 0 <= i < |vals| ==> vals[i] < vmax
    ensures ok ==> lims[0] == 0 && forall b :: 0 <= b < vmax ==> lims[b + 1] == |Bucket(vals, b)|
  {
    hide Pick;
    for b := 0 to vmax + 1
      invariant forall c :: 0 <= c < b ==> lims[c] == 0
    {
      lims[b] := 0;
    }
    NothingCounted(vals, vmax, lims[..]);
    for i := 0 to |vals|
      invariant lims[0] == 0
      invariant forall k :: 0 <= k < i ==> vals[k] < vmax
      invariant forall b :: 0 <= b < vmax ==> Counted(vals, i, b, lims[..])
    {
      if vals[i] >= vmax { return false; }
      ghost var before := lims[..];
      lims[vals[i] + 1] := lims[vals[i] + 1] + 1;
      ghost var next := i + 1;
      forall b | 0 <= b < vmax ensures Counted(vals, next, b, lims[..]) {
        PickUpTo(vals, i, b);
        assert Counted(vals, i, b, before);
      }
    }
    forall b | 0 <= b < vmax ensures lims[b + 1] == |Bucket(vals, b)| {
      assert Counted(vals, |vals|, b, lims[..]);
    }
    ok := true;
  }

  lemma NothingCounted(vals: seq<nat>, vmax: nat, lims: seq<int>)
    requires |lims| == vmax + 1 && forall c :: 0 <= c <= vmax ==> lims[c] == 0
    ensures forall b :: 0 <= b < vmax ==> Counted(vals, 0, b, lims)
  {
  }

  /** Bucket b of the output, filled by the first i entries. */
  ghost predicate Filled(vals: seq<nat>, i: nat, b: nat, perm: seq<int>, cursor: int)
    requires i <= |vals|
  {
    var p := Pick(vals, Iota(0, i), b);
    cursor == Start(vals, b) + |p| && cursor <= |perm| && perm[Start(vals, b)..cursor] == p
  }

  lemma FillOne(vals: seq<nat>, vmax: nat, i: nat, b: nat, perm: seq<int>, cursor: int, at: int, perm': seq<int>)
    requires i < |vals| && vals[i] < vmax && b < vmax && |perm| == Start(vals, vmax)
    requires Filled(vals, i, b, perm, cursor)
    requires at == Start(vals, vals[i]) + |Pick(vals, Iota(0, i), vals[i])| && at < |perm|
    requires perm' == perm[at := i]
    ensures Filled(vals, i + 1, b, perm', if b == vals[i] then cursor + 1 else cursor)
  {
    var v := vals[i];
    PickUpTo(vals, i, b);
    PickWithin(vals, i, b);
    PickWithin(vals, i + 1, v);
    PickUpTo(vals, i, v);
    if b < v { BucketOrdered(vals, b, v); }
    if v < b { BucketOrdered(vals, v, b); }
    var lo := Start(vals, b);
    if b == v {
      assert perm'[lo..cursor + 1] == perm[lo..cursor] + [i];
    } else {
      assert perm'[lo..cursor] == perm[lo..cursor];
    }
  }

  method Populate(vals: seq<nat>, vmax: nat, lims: array<int>, perm: array<int>)
    requires lims.Length == vmax + 1 && perm.Length == |vals| == Start(vals, vmax) && lims != perm
    requires forall i :: 0 <= i < |vals| ==> vals[i] < vmax
    requires forall b :: 0 <= b <= vmax ==> lims[b] == Start(vals, b)
    modifies lims, perm
    ensures forall b :: 0 <= b < vmax ==> lims[b] == Start(vals, b + 1)
    ensures forall b {:trigger Pick(vals, Iota(0, |vals|), b)} :: 0 <= b < vmax ==>
              Slice(perm[..], Start(vals, b), Start(vals, b + 1)) == Pick(vals, Iota(0, |vals|), b)
  {
    forall b | 0 <= b < vmax ensures Filled(vals, 0, b, perm[..], lims[b]) {
      StartMonotone(vals, b, vmax);
    }
    for i := 0 to |vals|
      invariant forall b :: 0 <= b < vmax ==> Filled(vals, i, b, perm[..], lims[b])
    {
      PlaceEntry(vals, vmax, i, lims, perm);
    }
    ghost var out := perm[..];
    forall b | 0 <= b < vmax
      ensures lims[b] == Start(vals, b + 1) && Slice(out, Start(vals, b), Start(vals, b + 1)) == Bucket(vals, b)
    {
      FilledWhole(vals, b, out, lims[b]);
    }
  }

  lemma FilledWhole(vals: seq<nat>, b: nat, perm: seq<int>, cursor: int)
    requires Filled(vals, |vals|, b, perm, cursor)
    ensures cursor == Start(vals, b + 1) && Slice(perm, Start(vals, b), Start(vals, b + 1)) == Bucket(vals, b)
  {
  }

  /** perm[lims[vals[i]]++] = i */
  method PlaceEntry(vals: seq<nat>, vmax: nat, i: nat, lims: array<int>, perm: array<int>)
    requires lims.Length == vmax + 1 && perm.Length == |vals| == Start(vals, vmax) && lims != perm
    requires i < |vals| && vals[i] < vmax
    requires forall b :: 0 <= b < vmax ==> Filled(vals, i, b, perm[..], lims[b])
    modifies lims, perm
    ensures forall b :: 0 <= b < vmax ==> Filled(vals, i + 1, b, perm[..], lims[b])
  {
    var v := vals[i];
    ghost var before, cursors := perm[..], lims[..];
    assert Filled(vals, i, v, before, lims[v]);
    PickWithin(vals, i + 1, v);
    PickUpTo(vals, i, v);
    StartMonotone(vals, v + 1, vmax);
    perm[lims[v]] := i;
    lims[v] := lims[v] + 1;
    ghost var after := perm[..];
    assert after == before[cursors[v] := i];
    forall b | 0 <= b < vmax ensures Filled(vals, i + 1, b, after, lims[b]) {
      assert Filled(vals, i, b, before, cursors[b]);
      FillOne(vals, vmax, i, b, before, cursors[b], cursors[v], after);
    }
  }

  // -------------------------------------------------------------------------
  // Threads
  // -------------------------------------------------------------------------

  /** Range boundaries: thread `rank` of nt handles [cuts[rank], cuts[rank + 1]). */
  function Cuts(n: nat, nt: nat): seq<nat>
    requires nt > 0
  {
    seq(nt + 1, rank requires 0 <= rank => Div(n * rank, nt))
  }

  ghost predicate Partition(n: nat, cuts: seq<nat>) {
    && |cuts| > 1 && cuts[0] == 0 && cuts[|cuts| - 1] == n
    && forall a, b :: 0 <= a <= b < |cuts| ==> cuts[a] <= cuts[b]
  }

  lemma CutsPartition(n: nat, nt: nat)
    requires nt > 0
    ensures Partition(n, Cuts(n, nt))
  {
    forall a, b | 0 <= a <= b <= nt ensures n * a / nt <= n * b / nt {
      MulMonotone(n, a, b);
      DivMonotone(n * a, n * b, nt);
    }
    DivExact(n, nt);
  }

  lemma DivMonotone(x: nat, y: nat, d: nat)
    requires d > 0 && x <= y
    ensures x / d <= y / d
  {
    if x / d > y / d {
      MulMonotone(d, y / d + 1, x / d);
    }
  }

  lemma MulMonotone(n: nat, a: nat, b: nat)
    requires a <= b
    ensures n * a <= n * b
  {
    assert n * b == n * a + n * (b - a);
  }

  lemma DivExact(n: nat, d: nat)
    requires d > 0
    ensures n * d / d == n
  {
    var q := n * d / d;
    if q < n { MulMonotone(d, q + 1, n); }
    if q > n { MulMonotone(d, n + 1, q); }
  }

  /** The indices thread `rank` handles. */
  function Share(n: nat, cuts: seq<nat>, rank: nat): (r: seq<nat>)
    requires Partition(n, cuts) && rank + 1 < |cuts|
    ensures forall k :: 0 <= k < |r| ==> r[k] < n
  {
    Iota(cuts[rank], cuts[rank + 1])
  }

  /** Threads that entered a critical section so far, each at most once. */
  ghost predicate Entered(order: seq<nat>, nt: nat) {
    && (forall j :: 0 <= j < |order| ==> order[j] < nt)
    && (forall j, k :: 0 <= j < k < |order| ==> order[j] != order[k])
  }

  /** The threads' shares, one after the other in the order the threads entered. */
  function Visit(n: nat, cuts: seq<nat>, order: seq<nat>): (v: seq<nat>)
    requires Partition(n, cuts) && forall j :: 0 <= j < |order| ==> order[j] + 1 < |cuts|
    ensures forall k :: 0 <= k < |v| ==> v[k] < n
  {
    if order == [] then []
    else Visit(n, cuts, order[..|order| - 1]) + Share(n, cuts, order[|order| - 1])
  }

  lemma VisitStep(n: nat, cuts: seq<nat>, order: seq<nat>, j: nat)
    requires Partition(n, cuts) && forall k :: 0 <= k < |order| ==> order[k] + 1 < |cuts|
    requires j < |order|
    ensures Visit(n, cuts, order[..j + 1]) == Visit(n, cuts, order[..j]) + Share(n, cuts, order[j])
  {
    assert order[..j + 1][..j] == order[..j];
  }

  lemma {:induction false} Owner(n: nat, cuts: seq<nat>, i: nat, upto: nat) returns (rank: nat)
    requires Partition(n, cuts) && 0 < upto < |cuts| && i < cuts[upto]
    ensures rank < upto && cuts[rank] <= i < cuts[rank + 1]
    decreases upto
  {
    if cuts[upto - 1] <= i {
      rank := upto - 1;
    } else {
      rank := Owner(n, cuts, i, upto - 1);
    }
  }

  lemma ShareCount(n: nat, cuts: seq<nat>, i: nat, owner: nat, rank: nat)
    requires Partition(n, cuts) && owner + 1 < |cuts| && rank + 1 < |cuts|
    requires cuts[owner] <= i < cuts[owner + 1]
    ensures multiset(Share(n, cuts, rank))[i] == if rank == owner then 1 else 0
  {
    IotaCount(cuts[rank], cuts[rank + 1], i);
    if rank < owner { assert cuts[rank + 1] <= cuts[owner]; }
    if owner < rank { assert cuts[owner + 1] <= cuts[rank]; }
  }

  lemma {:induction false} VisitCount(n: nat, cuts: seq<nat>, order: seq<nat>, i: nat, owner: nat)
    requires Partition(n, cuts) && Entered(order, |cuts| - 1) && owner + 1 < |cuts|
    requires cuts[owner] <= i < cuts[owner + 1]
    ensures multiset(Visit(n, cuts, order))[i] == if owner in order then 1 else 0
  {
    if order != [] {
      var last := order[|order| - 1];
      VisitCount(n, cuts, order[..|order| - 1], i, owner);
      ShareCount(n, cuts, i, owner, last);
      assert order == order[..|order| - 1] + [last];
    }
  }

  /** However the threads enter, together they visit every index exactly once. */
  lemma VisitIsPermutation(n: nat, cuts: seq<nat>, order: seq<nat>)
    requires Partition(n, cuts) && Entered(order, |cuts| - 1) && |order| == |cuts| - 1
    ensures multiset(Visit(n, cuts, order)) == multiset(Iota(0, n))
  {
    var v := Visit(n, cuts, order);
    var a: multiset<nat>, b: multiset<nat> := multiset(v), multiset(Iota(0, n));
    forall i: nat ensures a[i] == b[i] {
      IotaCount(0, n, i);
      if i < n {
        var owner := Owner(n, cuts, i, |cuts| - 1);
        AllEntered(order, |cuts| - 1, owner);
        VisitCount(n, cuts, order, i, owner);
      } else {
        assert i !in v;
      }
    }
  }

  lemma AllEntered(order: seq<nat>, nt: nat, rank: nat)
    requires Entered(order, nt) && |order| == nt && rank < nt
    ensures rank in order
  {
    var ranks := set j | 0 <= j < |order| :: order[j];
    RankCount(order, nt, |order|);
    if rank !in order {
      assert ranks <= Upto(nt) - {rank};
      Smaller(ranks, Upto(nt) - {rank});
    }
  }

  lemma {:induction false} RankCount(order: seq<nat>, nt: nat, k: nat)
    requires Entered(order, nt) && k <= |order|
    ensures |set j | 0 <= j < k :: order[j]| == k
  {
    if k > 0 {
      RankCount(order, nt, k - 1);
      assert (set j | 0 <= j < k :: order[j]) == (set j | 0 <= j < k - 1 :: order[j]) + {order[k - 1]};
    }
  }
}
