/**
 bucket_sort_parallel. Thread-private work is written once per thread; where threads meet, the next
 thread to move is chosen arbitrarily: on entering either critical section, and for every single
 write to the shared output.
 */
module BucketSortParallel {
  import opened Buckets
  import opened BucketSort
  import opened Collections

  /** First output slot of the j-th thread to grab slots, in bucket b. */
  function Base(vals: seq<nat>, cuts: seq<nat>, order: seq<nat>, j: nat, b: nat): nat
    requires Partition(|vals|, cuts) && Entered(order, |cuts| - 1) && j <= |order|
  {
    Start(vals, b) + |Pick(vals, Visit(|vals|, cuts, order[..j]), b)|
  }

  lemma BaseStep(vals: seq<nat>, cuts: seq<nat>, order: seq<nat>, j: nat, b: nat)
    requires Partition(|vals|, cuts) && Entered(order, |cuts| - 1) && j < |order|
    ensures Base(vals, cuts, order, j + 1, b)
        == Base(vals, cuts, order, j, b) + |Pick(vals, Share(|vals|, cuts, order[j]), b)|
  {
    VisitStep(|vals|, cuts, order, j);
    PickAppend(vals, Visit(|vals|, cuts, order[..j]), Share(|vals|, cuts, order[j]), b);
  }

  lemma {:induction false} BaseMonotone(vals: seq<nat>, cuts: seq<nat>, order: seq<nat>, j: nat, k: nat, b: nat)
    requires Partition(|vals|, cuts) && Entered(order, |cuts| - 1) && j <= k <= |order|
    ensures Base(vals, cuts, order, j, b) <= Base(vals, cuts, order, k, b)
    decreases k - j
  {
    if j < k {
      BaseMonotone(vals, cuts, order, j, k - 1, b);
      BaseStep(vals, cuts, order, k - 1, b);
    }
  }

  lemma AllPicked(vals: seq<nat>, cuts: seq<nat>, order: seq<nat>, b: nat)
    requires Partition(|vals|, cuts) && Entered(order, |cuts| - 1) && |order| == |cuts| - 1
    ensures |Pick(vals, Visit(|vals|, cuts, order), b)| == |Bucket(vals, b)|
    ensures Base(vals, cuts, order, |order|, b) == Start(vals, b + 1)
    ensures Base(vals, cuts, order, 0, b) == Start(vals, b)
  {
    VisitIsPermutation(|vals|, cuts, order);
    PickPermuted(vals, Visit(|vals|, cuts, order), Iota(0, |vals|), b);
    assert order[..|order|] == order && order[..0] == [];
  }

  // -------------------------------------------------------------------------
  // Histograms
  // -------------------------------------------------------------------------

  ghost predicate Histogram(vals: seq<nat>, cuts: seq<nat>, t: nat, b: nat, count: int)
    requires Partition(|vals|, cuts) && t + 1 < |cuts|
  {
    count == |Pick(vals, Share(|vals|, cuts, t), b)|
  }

  lemma PickNext(vals: seq<nat>, lo: nat, i: nat, b: nat)
    requires lo <= i < |vals|
    ensures Pick(vals, Iota(lo, i + 1), b) == Pick(vals, Iota(lo, i), b) + (if vals[i] == b then [i] else [])
  {
    assert Iota(lo, i + 1)[..i - lo] == Iota(lo, i);
  }

  /** Every thread owns one vector of vmax cells. */
  ghost predicate Locals(local: seq<array<int>>, nt: nat, vmax: nat) {
    && |local| == nt
    && (forall t :: 0 <= t < nt ==> local[t].Length == vmax)
    && (forall t, u :: 0 <= t < u < nt ==> local[t] != local[u])
  }

  method CountShare(vals: seq<nat>, vmax: nat, cuts: seq<nat>, t: nat, mine: array<int>)
    requires Partition(|vals|, cuts) && t + 1 < |cuts| && mine.Length == vmax
    requires forall i :: 0 <= i < |vals| ==> vals[i] < vmax
    modifies mine
    ensures forall b :: 0 <= b < vmax ==> Histogram(vals, cuts, t, b, mine[b])
  {
    for b := 0 to vmax
      invariant forall c :: 0 <= c < b ==> mine[c] == 0
    {
      mine[b] := 0;
    }
    for i := cuts[t] to cuts[t + 1]
      invariant forall b :: 0 <= b < vmax ==> mine[b] == |Pick(vals, Iota(cuts[t], i), b)|
    {
      forall b | 0 <= b < vmax { PickNext(vals, cuts[t], i, b); }
      mine[vals[i]] := mine[vals[i]] + 1;
    }
  }

  method LocalHistograms(vals: seq<nat>, vmax: nat, cuts: seq<nat>, local: seq<array<int>>)
    requires Partition(|vals|, cuts)
    requires Locals(local, |cuts| - 1, vmax)
    requires forall i :: 0 <= i < |vals| ==> vals[i] < vmax
    modifies local
    ensures forall t, b :: 0 <= t < |cuts| - 1 && 0 <= b < vmax ==> Histogram(vals, cuts, t, b, local[t][b])
  {
    for t := 0 to |cuts| - 1
      invariant forall u, b :: 0 <= u < t && 0 <= b < vmax ==> Histogram(vals, cuts, u, b, local[u][b])
    {
      CountShare(vals, vmax, cuts, t, local[t]);
    }
  }

  /** First critical section: histograms are added up in any order. */
  method Accumulate(vals: seq<nat>, vmax: nat, cuts: seq<nat>, local: seq<array<int>>, lims: array<int>)
    requires Partition(|vals|, cuts)
    requires Locals(local, |cuts| - 1, vmax) && lims.Length == vmax + 1 && lims !in local
    requires forall t, b :: 0 <= t < |cuts| - 1 && 0 <= b < vmax ==> Histogram(vals, cuts, t, b, local[t][b])
    requires forall b :: 0 <= b <= vmax ==> lims[b] == 0
    modifies lims
    ensures lims[0] == 0 && forall b :: 0 <= b < vmax ==> lims[b + 1] == |Bucket(vals, b)|
  {
    var order: seq<nat> := [];
    while exists t :: 0 <= t < |cuts| - 1 && t !in order
      invariant Entered(order, |cuts| - 1)
      invariant lims[0] == 0
      invariant forall b :: 0 <= b < vmax ==> lims[b + 1] == |Pick(vals, Visit(|vals|, cuts, order), b)|
      decreases |cuts| - 1 - |order|
    {
      EnteredBound(order, |cuts| - 1);
      var t: nat :| t < |cuts| - 1 && t !in order;
      ghost var u, share := Visit(|vals|, cuts, order), Share(|vals|, cuts, t);
      forall b | 0 <= b < vmax ensures lims[b + 1] + local[t][b] == |Pick(vals, u + share, b)| {
        assert Histogram(vals, cuts, t, b, local[t][b]);
        PickAppend(vals, u, share, b);
      }
      AddHistogram(vmax, local[t], lims);
      assert (order + [t])[..|order|] == order;
      order := order + [t];
      EnteredBound(order, |cuts| - 1);
    }
    EveryoneEntered(order, |cuts| - 1);
    forall b | 0 <= b < vmax { AllPicked(vals, cuts, order, b); }
  }

  lemma EnteredBound(order: seq<nat>, nt: nat)
    requires Entered(order, nt)
    ensures |order| <= nt
  {
    RankCount(order, nt, |order|);
    Smaller(set j | 0 <= j < |order| :: order[j], Upto(nt));
  }

  lemma EveryoneEntered(order: seq<nat>, nt: nat)
    requires Entered(order, nt) && forall t :: 0 <= t < nt ==> t in order
    ensures |order| == nt
  {
    EnteredBound(order, nt);
    RankCount(order, nt, |order|);
    var ranks := set j | 0 <= j < |order| :: order[j];
    assert Upto(nt) <= ranks by {
      forall t | t in Upto(nt) ensures t in ranks {
        assert t in order;
      }
    }
    Smaller(Upto(nt), ranks);
  }

  /** The body of the first critical section. */
  method AddHistogram(vmax: nat, mine: array<int>, lims: array<int>)
    requires mine.Length == vmax && lims.Length == vmax + 1 && mine != lims
    modifies lims
    ensures lims[0] == old(lims[0])
    ensures forall b :: 0 <= b < vmax ==> lims[b + 1] == old(lims[b + 1]) + mine[b]
  {
    for i := 0 to vmax
      invariant lims[0] == old(lims[0])
      invariant forall b :: 0 <= b < i ==> lims[b + 1] == old(lims[b + 1]) + mine[b]
      invariant forall c :: i < c <= vmax ==> lims[c] == old(lims[c])
    {
      lims[i + 1] := lims[i + 1] + mine[i];
    }
  }

  // -------------------------------------------------------------------------
  // Slots
  // -------------------------------------------------------------------------

  /** What local_lims[t] holds: a histogram before thread t grabs its slots, write cursors after. */
  ghost predicate Grabbed(vals: seq<nat>, cuts: seq<nat>, order: seq<nat>, j: nat, b: nat, cursor: int)
    requires Partition(|vals|, cuts) && Entered(order, |cuts| - 1) && j < |order|
  {
    cursor == Base(vals, cuts, order, j, b)
  }

  /** Where the next thread to enter would start writing in bucket b. */
  ghost predicate Cursor(vals: seq<nat>, cuts: seq<nat>, order: seq<nat>, b: nat, at: int)
    requires Partition(|vals|, cuts) && Entered(order, |cuts| - 1)
  {
    at == Start(vals, b) + |Pick(vals, Visit(|vals|, cuts, order), b)|
  }

  lemma CursorAdvances(vals: seq<nat>, cuts: seq<nat>, order: seq<nat>, t: nat, b: nat, at: int, count: int)
    requires Partition(|vals|, cuts) && Entered(order, |cuts| - 1) && t + 1 < |cuts| && t !in order
    requires Cursor(vals, cuts, order, b, at) && Histogram(vals, cuts, t, b, count)
    ensures Entered(order + [t], |cuts| - 1) && Cursor(vals, cuts, order + [t], b, at + count)
  {
    assert (order + [t])[..|order|] == order;
    PickAppend(vals, Visit(|vals|, cuts, order), Share(|vals|, cuts, t), b);
  }

  /** Second critical section, in any order: `order` is the order in which the threads entered. */
  method GrabSlots(vals: seq<nat>, vmax: nat, cuts: seq<nat>, local: seq<array<int>>, lims: array<int>)
    returns (order: seq<nat>)
    requires Partition(|vals|, cuts)
    requires Locals(local, |cuts| - 1, vmax) && lims.Length == vmax + 1 && lims !in local
    requires forall t, b :: 0 <= t < |cuts| - 1 && 0 <= b < vmax ==> Histogram(vals, cuts, t, b, local[t][b])
    requires forall b :: 0 <= b <= vmax ==> lims[b] == Start(vals, b)
    modifies local, lims
    ensures Entered(order, |cuts| - 1) && |order| == |cuts| - 1
    ensures forall j, b :: 0 <= j < |order| && 0 <= b < vmax ==> Grabbed(vals, cuts, order, j, b, local[order[j]][b])
    ensures forall b :: 0 <= b < vmax ==> lims[b] == Start(vals, b + 1)
  {
    order := [];
    while exists t :: 0 <= t < |cuts| - 1 && t !in order
      invariant Entered(order, |cuts| - 1)
      invariant forall t, b ::
          0 <= t < |cuts| - 1 && t !in order && 0 <= b < vmax ==> Histogram(vals, cuts, t, b, local[t][b])
      invariant forall j, b ::
          0 <= j < |order| && 0 <= b < vmax ==> Grabbed(vals, cuts, order, j, b, local[order[j]][b])
      invariant forall b :: 0 <= b < vmax ==> Cursor(vals, cuts, order, b, lims[b])
      decreases |cuts| - 1 - |order|
    {
      EnteredBound(order, |cuts| - 1);
      var t: nat :| t < |cuts| - 1 && t !in order;
      GrabNext(vals, vmax, cuts, order, t, local, lims);
      order := order + [t];
      EnteredBound(order, |cuts| - 1);
    }
    EveryoneEntered(order, |cuts| - 1);
    forall b | 0 <= b < vmax ensures lims[b] == Start(vals, b + 1) {
      assert Cursor(vals, cuts, order, b, lims[b]);
      AllPicked(vals, cuts, order, b);
    }
  }

  method GrabNext(vals: seq<nat>, vmax: nat, cuts: seq<nat>, ghost order: seq<nat>, t: nat, local: seq<array<int>>,
      lims: array<int>)
    requires Partition(|vals|, cuts) && Entered(order, |cuts| - 1) && t + 1 < |cuts| && t !in order
    requires Locals(local, |cuts| - 1, vmax) && lims.Length == vmax + 1 && lims !in local
    requires forall b :: 0 <= b < vmax ==> Histogram(vals, cuts, t, b, local[t][b])
    requires forall j, b :: 0 <= j < |order| && 0 <= b < vmax ==> Grabbed(vals, cuts, order, j, b, local[order[j]][b])
    requires forall b :: 0 <= b < vmax ==> Cursor(vals, cuts, order, b, lims[b])
    modifies local[t], lims
    ensures Entered(order + [t], |cuts| - 1)
    ensures var next := order + [t];
            && (forall j, b :: 0 <= j < |next| && 0 <= b < vmax ==> Grabbed(vals, cuts, next, j, b, local[next[j]][b]))
            && (forall b :: 0 <= b < vmax ==> Cursor(vals, cuts, next, b, lims[b]))
  {
    GrabOne(vmax, local[t], lims);
    ghost var next := order + [t];
    forall b | 0 <= b < vmax ensures Cursor(vals, cuts, next, b, lims[b]) && local[t][b] == old(lims[b]) {
      assert Histogram(vals, cuts, t, b, old(local[t][b])) && Cursor(vals, cuts, order, b, old(lims[b]));
      CursorAdvances(vals, cuts, order, t, b, old(lims[b]), old(local[t][b]));
    }
    forall b | 0 <= b < vmax ensures Cursor(vals, cuts, order, b, local[t][b]) {
      assert Cursor(vals, cuts, order, b, old(lims[b]));
    }
    GrabbedGrows(vals, vmax, cuts, order, t, local);
  }

  lemma GrabbedGrows(vals: seq<nat>, vmax: nat, cuts: seq<nat>, order: seq<nat>, t: nat, local: seq<array<int>>)
    requires Partition(|vals|, cuts) && Entered(order, |cuts| - 1) && t + 1 < |cuts| && t !in order
    requires Locals(local, |cuts| - 1, vmax)
    requires forall j, b :: 0 <= j < |order| && 0 <= b < vmax ==> Grabbed(vals, cuts, order, j, b, local[order[j]][b])
    requires forall b :: 0 <= b < vmax ==> Cursor(vals, cuts, order, b, local[t][b])
    ensures Entered(order + [t], |cuts| - 1)
    ensures var next := order + [t];
            forall j, b :: 0 <= j < |next| && 0 <= b < vmax ==> Grabbed(vals, cuts, next, j, b, local[next[j]][b])
  {
    var next := order + [t];
    assert next[..|order|] == order;
    forall j, b | 0 <= j < |next| && 0 <= b < vmax ensures Grabbed(vals, cuts, next, j, b, local[next[j]][b]) {
      assert next[..j] == order[..j];
      if j < |order| {
        assert Grabbed(vals, cuts, order, j, b, local[order[j]][b]);
      } else {
        assert order[..j] == order && Cursor(vals, cuts, order, b, local[t][b]);
      }
    }
  }

  /** The body of the second critical section. */
  method GrabOne(vmax: nat, mine: array<int>, lims: array<int>)
    requires mine.Length == vmax && lims.Length == vmax + 1 && mine != lims
    modifies mine, lims
    ensures forall b :: 0 <= b < vmax ==> mine[b] == old(lims[b]) && lims[b] == old(lims[b]) + old(mine[b])
  {
    for i := 0 to vmax
      invariant forall b :: 0 <= b < i ==> mine[b] == old(lims[b]) && lims[b] == old(lims[b]) + old(mine[b])
      invariant forall b :: i <= b < vmax ==> mine[b] == old(mine[b]) && lims[b] == old(lims[b])
    {
      var nv := mine[i];
      mine[i] := lims[i];
      lims[i] := lims[i] + nv;
    }
  }

  // -------------------------------------------------------------------------
  // Interleaved writes
  // -------------------------------------------------------------------------

  /** The j-th thread's region of bucket b after it has handled the entries below `pos`. */
  ghost predicate Region(vals: seq<nat>, cuts: seq<nat>, order: seq<nat>, j: nat, b: nat, pos: nat, perm: seq<int>,
      cursor: int)
    requires Partition(|vals|, cuts) && Entered(order, |cuts| - 1) && j < |order|
  {
    var lo := cuts[order[j]];
    && lo <= pos <= cuts[order[j] + 1]
    && var p := Pick(vals, Iota(lo, pos), b);
       var base := Base(vals, cuts, order, j, b);
       cursor == base + |p| && cursor <= |perm| && perm[base..cursor] == p
  }

  lemma RegionBound(vals: seq<nat>, cuts: seq<nat>, order: seq<nat>, j: nat, b: nat, pos: nat)
    requires Partition(|vals|, cuts) && Entered(order, |cuts| - 1) && j < |order|
    requires cuts[order[j]] <= pos <= cuts[order[j] + 1]
    ensures Base(vals, cuts, order, j, b) + |Pick(vals, Iota(cuts[order[j]], pos), b)|
        <= Base(vals, cuts, order, j + 1, b)
  {
    var lo, hi := cuts[order[j]], cuts[order[j] + 1];
    PickAppend(vals, Iota(lo, pos), Iota(pos, hi), b);
    assert Iota(lo, pos) + Iota(pos, hi) == Iota(lo, hi);
    BaseStep(vals, cuts, order, j, b);
  }

  lemma RegionInBucket(vals: seq<nat>, cuts: seq<nat>, order: seq<nat>, j: nat, b: nat)
    requires Partition(|vals|, cuts) && Entered(order, |cuts| - 1) && |order| == |cuts| - 1 && j < |order|
    ensures Start(vals, b) <= Base(vals, cuts, order, j, b) <= Base(vals, cuts, order, j + 1, b) <= Start(vals, b + 1)
  {
    AllPicked(vals, cuts, order, b);
    BaseMonotone(vals, cuts, order, 0, j, b);
    BaseMonotone(vals, cuts, order, j, j + 1, b);
    BaseMonotone(vals, cuts, order, j + 1, |order|, b);
  }

  /** Regions of different threads or different buckets do not overlap. */
  lemma RegionsApart(vals: seq<nat>, cuts: seq<nat>, order: seq<nat>, j: nat, b: nat, k: nat, c: nat)
    requires Partition(|vals|, cuts) && Entered(order, |cuts| - 1) && |order| == |cuts| - 1
    requires j < |order| && k < |order| && (j != k || b != c)
    ensures || Base(vals, cuts, order, j + 1, b) <= Base(vals, cuts, order, k, c)
            || Base(vals, cuts, order, k + 1, c) <= Base(vals, cuts, order, j, b)
  {
    if b != c {
      RegionInBucket(vals, cuts, order, j, b);
      RegionInBucket(vals, cuts, order, k, c);
      if b < c { StartMonotone(vals, b + 1, c); } else { StartMonotone(vals, c + 1, b); }
    } else if j < k {
      BaseMonotone(vals, cuts, order, j + 1, k, b);
    } else {
      BaseMonotone(vals, cuts, order, k + 1, j, b);
    }
  }

  lemma RegionWritten(vals: seq<nat>, vmax: nat, cuts: seq<nat>, order: seq<nat>, j: nat, i: nat, k: nat, b: nat,
      pos: nat, perm: seq<int>, cursor: int, at: int, perm': seq<int>)
    requires Partition(|vals|, cuts) && Entered(order, |cuts| - 1) && |order| == |cuts| - 1
    requires j < |order| && k < |order| && b < vmax && |perm| == Start(vals, vmax)
    requires cuts[order[j]] <= i < cuts[order[j] + 1] && vals[i] < vmax
    requires at == Base(vals, cuts, order, j, vals[i]) + |Pick(vals, Iota(cuts[order[j]], i), vals[i])|
    requires at < |perm| && perm' == perm[at := i]
    requires Region(vals, cuts, order, k, b, pos, perm, cursor) && (j == k ==> pos == i)
    ensures Region(vals, cuts, order, k, b, if j == k then i + 1 else pos, perm', if j == k && b == vals[i] then cursor + 1 else cursor)
  {
    var v := vals[i];
    PickNext(vals, cuts[order[j]], i, b);
    var base := Base(vals, cuts, order, k, b);
    if j == k && b == v {
      assert perm'[base..cursor + 1] == perm[base..cursor] + [i];
    } else {
      RegionsApart(vals, cuts, order, j, v, k, b);
      RegionBound(vals, cuts, order, k, b, pos);
      WriteInRegion(vals, cuts, order, j, i);
      assert perm'[base..cursor] == perm[base..cursor];
    }
  }

  /** The next write of thread order[j] falls into its own region. */
  lemma WriteInRegion(vals: seq<nat>, cuts: seq<nat>, order: seq<nat>, j: nat, i: nat)
    requires Partition(|vals|, cuts) && Entered(order, |cuts| - 1) && j < |order|
    requires cuts[order[j]] <= i < cuts[order[j] + 1] && i < |vals|
    ensures var v := vals[i];
            Base(vals, cuts, order, j, v) + |Pick(vals, Iota(cuts[order[j]], i), v)| < Base(vals, cuts, order, j + 1, v)
  {
    PickNext(vals, cuts[order[j]], i, vals[i]);
    RegionBound(vals, cuts, order, j, vals[i], i + 1);
  }

  function Remaining(cuts: seq<nat>, pos: seq<nat>, upto: nat): int
    requires upto <= |pos| < |cuts|
  {
    if upto == 0 then 0 else Remaining(cuts, pos, upto - 1) + cuts[upto] - pos[upto - 1]
  }

  lemma {:induction false} RemainingStep(cuts: seq<nat>, pos: seq<nat>, upto: nat, t: nat)
    requires upto <= |pos| < |cuts| && t < |pos|
    requires forall u :: 0 <= u < |pos| ==> pos[u] <= cuts[u + 1]
    ensures Remaining(cuts, pos, upto) >= 0
    ensures Remaining(cuts, pos[t := pos[t] + 1], upto) == Remaining(cuts, pos, upto) - if t < upto then 1 else 0
  {
    if upto > 0 { RemainingStep(cuts, pos, upto - 1, t); }
  }

  ghost predicate Progress(cuts: seq<nat>, pos: seq<nat>) {
    |pos| + 1 == |cuts| && forall u :: 0 <= u < |pos| ==> cuts[u] <= pos[u] <= cuts[u + 1]
  }

  lemma Advance(cuts: seq<nat>, pos: seq<nat>, t: nat)
    requires Progress(cuts, pos) && t < |pos| && pos[t] < cuts[t + 1]
    ensures var pos' := pos[t := pos[t] + 1];
            Progress(cuts, pos') && 0 <= Remaining(cuts, pos', |pos'|) < Remaining(cuts, pos, |pos|)
  {
    RemainingStep(cuts, pos, |pos|, t);
    RemainingStep(cuts, pos[t := pos[t] + 1], |pos|, t);
  }

  /** One write of one thread: perm[local_lims[vals[i]]++] = i for its next entry i. */
  method WriteOne(vals: seq<nat>, vmax: nat, cuts: seq<nat>, order: seq<nat>, j: nat, i: nat, ghost pos: seq<nat>,
      local: seq<array<int>>, perm: array<int>)
    requires Partition(|vals|, cuts) && Entered(order, |cuts| - 1) && |order| == |cuts| - 1 == |pos|
    requires Locals(local, |cuts| - 1, vmax) && perm.Length == |vals| == Start(vals, vmax) && perm !in local
    requires forall i :: 0 <= i < |vals| ==> vals[i] < vmax
    requires j < |order| && i == pos[order[j]] < cuts[order[j] + 1]
    requires forall k, b :: 0 <= k < |order| && 0 <= b < vmax ==>
               Region(vals, cuts, order, k, b, pos[order[k]], perm[..], local[order[k]][b])
    modifies local[order[j]], perm
    ensures forall k, b :: 0 <= k < |order| && 0 <= b < vmax ==>
              Region(vals, cuts, order, k, b, if j == k then i + 1 else pos[order[k]], perm[..], local[order[k]][b])
  {
    var t := order[j];
    assert cuts[t + 1] <= cuts[|cuts| - 1];
    var v := vals[i];
    ghost var before := perm[..];
    assert Region(vals, cuts, order, j, v, i, before, local[t][v]);
    WriteInRegion(vals, cuts, order, j, i);
    RegionInBucket(vals, cuts, order, j, v);
    StartMonotone(vals, v + 1, vmax);
    var at := local[t][v];
    perm[at] := i;
    local[t][v] := at + 1;
    ghost var after := perm[..];
    forall k, b | 0 <= k < |order| && 0 <= b < vmax
      ensures Region(vals, cuts, order, k, b, if j == k then i + 1 else pos[order[k]], after, local[order[k]][b])
    {
      assert Region(vals, cuts, order, k, b, pos[order[k]], before, old(local[order[k]][b]));
      RegionWritten(vals, vmax, cuts, order, j, i, k, b, pos[order[k]], before, old(local[order[k]][b]), at, after);
    }
  }

  /** Populate buckets: any thread with entries left may write next. */
  method Scatter(vals: seq<nat>, vmax: nat, cuts: seq<nat>, order: seq<nat>, local: seq<array<int>>, perm: array<int>)
    requires Partition(|vals|, cuts) && Entered(order, |cuts| - 1) && |order| == |cuts| - 1
    requires Locals(local, |cuts| - 1, vmax) && perm.Length == |vals| == Start(vals, vmax) && perm !in local
    requires forall i :: 0 <= i < |vals| ==> vals[i] < vmax
    requires forall j, b :: 0 <= j < |order| && 0 <= b < vmax ==> Grabbed(vals, cuts, order, j, b, local[order[j]][b])
    modifies local, perm
    ensures forall b {:trigger Pick(vals, Visit(|vals|, cuts, order), b)} :: 0 <= b < vmax ==>
              Slice(perm[..], Start(vals, b), Start(vals, b + 1)) == Pick(vals, Visit(|vals|, cuts, order), b)
  {
    var pos := cuts[..|cuts| - 1];
    forall k, b | 0 <= k < |order| && 0 <= b < vmax
      ensures Region(vals, cuts, order, k, b, pos[order[k]], perm[..], local[order[k]][b])
    {
      assert Grabbed(vals, cuts, order, k, b, local[order[k]][b]);
      RegionInBucket(vals, cuts, order, k, b);
      StartMonotone(vals, b + 1, vmax);
    }
    WriteAll(vals, vmax, cuts, order, pos, local, perm);
    ghost var out := perm[..];
    forall b | 0 <= b < vmax
      ensures Slice(out, Start(vals, b), Start(vals, b + 1)) == Pick(vals, Visit(|vals|, cuts, order), b)
    {
      BucketComplete(vals, cuts, order, b, out);
    }
  }

  method WriteAll(vals: seq<nat>, vmax: nat, cuts: seq<nat>, order: seq<nat>, start: seq<nat>, local: seq<array<int>>,
      perm: array<int>)
    requires Partition(|vals|, cuts) && Entered(order, |cuts| - 1) && |order| == |cuts| - 1
    requires Locals(local, |cuts| - 1, vmax) && perm.Length == |vals| == Start(vals, vmax) && perm !in local
    requires forall i :: 0 <= i < |vals| ==> vals[i] < vmax
    requires Progress(cuts, start)
    requires forall k, b :: 0 <= k < |order| && 0 <= b < vmax ==>
               Region(vals, cuts, order, k, b, start[order[k]], perm[..], local[order[k]][b])
    modifies local, perm
    ensures forall k, b :: 0 <= k < |order| && 0 <= b < vmax ==> Whole(vals, cuts, order, k, b, perm[..])
  {
    hide Region, Remaining;
    var pos := start;
    while exists j :: 0 <= j < |order| && pos[order[j]] < cuts[order[j] + 1]
      invariant Progress(cuts, pos)
      invariant forall k, b :: 0 <= k < |order| && 0 <= b < vmax ==>
                  Region(vals, cuts, order, k, b, pos[order[k]], perm[..], local[order[k]][b])
      decreases Remaining(cuts, pos, |pos|)
    {
      var j: nat :| j < |order| && pos[order[j]] < cuts[order[j] + 1];
      ghost var before := pos;
      WriteOne(vals, vmax, cuts, order, j, pos[order[j]], pos, local, perm);
      Advance(cuts, pos, order[j]);
      pos := pos[order[j] := pos[order[j]] + 1];
      assert forall k :: 0 <= k < |order| ==> pos[order[k]] == if k == j then before[order[j]] + 1 else before[order[k]];
    }
    ghost var out := perm[..];
    forall k, b | 0 <= k < |order| && 0 <= b < vmax ensures Whole(vals, cuts, order, k, b, out) {
      assert pos[order[k]] == cuts[order[k] + 1];
      RegionEnds(vals, cuts, order, k, b, out, local[order[k]][b]);
    }
  }

  lemma RegionEnds(vals: seq<nat>, cuts: seq<nat>, order: seq<nat>, k: nat, b: nat, perm: seq<int>, cursor: int)
    requires Partition(|vals|, cuts) && Entered(order, |cuts| - 1) && k < |order|
    requires Region(vals, cuts, order, k, b, cuts[order[k] + 1], perm, cursor)
    ensures Whole(vals, cuts, order, k, b, perm)
  {
    BaseStep(vals, cuts, order, k, b);
  }

  ghost predicate Whole(vals: seq<nat>, cuts: seq<nat>, order: seq<nat>, k: nat, b: nat, perm: seq<int>)
    requires Partition(|vals|, cuts) && Entered(order, |cuts| - 1) && k < |order|
  {
    var lo, hi := Base(vals, cuts, order, k, b), Base(vals, cuts, order, k + 1, b);
    lo <= hi <= |perm| && perm[lo..hi] == Pick(vals, Share(|vals|, cuts, order[k]), b)
  }

  lemma {:induction false} BucketWhole(vals: seq<nat>, cuts: seq<nat>, order: seq<nat>, k: nat, b: nat, perm: seq<int>)
    requires Partition(|vals|, cuts) && Entered(order, |cuts| - 1) && |order| == |cuts| - 1 && k <= |order|
    requires forall j :: 0 <= j < |order| ==> Whole(vals, cuts, order, j, b, perm)
    ensures Start(vals, b) <= Base(vals, cuts, order, k, b) <= |perm|
    ensures perm[Start(vals, b)..Base(vals, cuts, order, k, b)] == Pick(vals, Visit(|vals|, cuts, order[..k]), b)
  {
    hide Pick, Start, Visit, Base;
    if k == 0 {
      BucketBegins(vals, cuts, order, b, perm);
    } else {
      BucketWhole(vals, cuts, order, k - 1, b, perm);
      assert Whole(vals, cuts, order, k - 1, b, perm);
      VisitStep(|vals|, cuts, order, k - 1);
      PickAppend(vals, Visit(|vals|, cuts, order[..k - 1]), Share(|vals|, cuts, order[k - 1]), b);
      Join(perm, Start(vals, b), Base(vals, cuts, order, k - 1, b), Base(vals, cuts, order, k, b));
    }
  }

  lemma BucketBegins(vals: seq<nat>, cuts: seq<nat>, order: seq<nat>, b: nat, perm: seq<int>)
    requires Partition(|vals|, cuts) && Entered(order, |cuts| - 1) && |order| == |cuts| - 1
    requires forall j :: 0 <= j < |order| ==> Whole(vals, cuts, order, j, b, perm)
    ensures Start(vals, b) <= Base(vals, cuts, order, 0, b) <= |perm|
    ensures perm[Start(vals, b)..Base(vals, cuts, order, 0, b)] == Pick(vals, Visit(|vals|, cuts, order[..0]), b)
  {
    AllPicked(vals, cuts, order, b);
    assert Whole(vals, cuts, order, 0, b, perm);
  }

  lemma Join(s: seq<int>, lo: nat, mid: nat, hi: nat)
    requires lo <= mid <= hi <= |s|
    ensures s[lo..hi] == s[lo..mid] + s[mid..hi]
  {
  }

  lemma BucketComplete(vals: seq<nat>, cuts: seq<nat>, order: seq<nat>, b: nat, perm: seq<int>)
    requires Partition(|vals|, cuts) && Entered(order, |cuts| - 1) && |order| == |cuts| - 1
    requires forall j :: 0 <= j < |order| ==> Whole(vals, cuts, order, j, b, perm)
    ensures Slice(perm, Start(vals, b), Start(vals, b + 1)) == Pick(vals, Visit(|vals|, cuts, order), b)
  {
    BucketWhole(vals, cuts, order, |order|, b, perm);
    AllPicked(vals, cuts, order, b);
    assert order[..|order|] == order;
  }

  // -------------------------------------------------------------------------
  // The whole sort
  // -------------------------------------------------------------------------

  method ZeroLims(vmax: nat, lims: array<int>)
    requires lims.Length == vmax + 1
    modifies lims
    ensures forall b :: 0 <= b <= vmax ==> lims[b] == 0
  {
    for b := 0 to vmax + 1
      invariant forall c :: 0 <= c < b ==> lims[c] == 0
    {
      lims[b] := 0;
    }
  }

  /** Every run is a bucket sort that visits the threads' shares in the order `order`. */
  method BucketSortParallel(vals: seq<nat>, vmax: nat, lims: array<int>, perm: array<int>, nt: nat)
    returns (order: seq<nat>)
    requires nt > 0 && lims.Length == vmax + 1 && perm.Length == |vals| && lims != perm
    requires forall i :: 0 <= i < |vals| ==> vals[i] < vmax
    modifies lims, perm
    ensures Partition(|vals|, Cuts(|vals|, nt)) && Entered(order, nt) && |order| == nt
    ensures Sorted(vals, vmax, Visit(|vals|, Cuts(|vals|, nt), order), lims[..], perm[..])
    ensures Grouped(vals, vmax, lims[..], perm[..])
  {
    hide Grouped, Sorted, Visit, Start, Pick, Cuts, Partition, Entered;
    var cuts := Cuts(|vals|, nt);
    CutsPartition(|vals|, nt);
    CutsLength(|vals|, nt);
    order := RunThreads(vals, vmax, cuts, lims, perm, nt);
    ParallelIsGrouped(vals, vmax, nt, order, lims[..], perm[..]);
  }

  lemma CutsLength(n: nat, nt: nat)
    requires nt > 0
    ensures |Cuts(n, nt)| == nt + 1
  {
  }

  method RunThreads(vals: seq<nat>, vmax: nat, cuts: seq<nat>, lims: array<int>, perm: array<int>, nt: nat)
    returns (order: seq<nat>)
    requires nt > 0 && lims.Length == vmax + 1 && perm.Length == |vals| && lims != perm
    requires Partition(|vals|, cuts) && |cuts| == nt + 1 && forall i :: 0 <= i < |vals| ==> vals[i] < vmax
    modifies lims, perm
    ensures Entered(order, nt) && |order| == nt
    ensures Sorted(vals, vmax, Visit(|vals|, cuts, order), lims[..], perm[..])
  {
    var local: seq<array<int>> := [];
    for t := 0 to nt
      invariant Locals(local, t, vmax)
      invariant lims !in local && perm !in local && fresh(local)
    {
      var mine := new int[vmax];
      local := local + [mine];
    }
    LocalHistograms(vals, vmax, cuts, local);
    ZeroLims(vmax, lims);
    Accumulate(vals, vmax, cuts, local, lims);
    CumulativeSum(vals, vmax, lims);
    StartEnd(vals, vmax);
    order := GrabSlots(vals, vmax, cuts, local, lims);
    Scatter(vals, vmax, cuts, order, local, perm);
    ShiftBack(vals, vmax, lims);
    assert forall b {:trigger lims[..][b]} :: 0 <= b <= vmax ==> lims[..][b] == lims[b];
  }

  lemma ParallelIsGrouped(vals: seq<nat>, vmax: nat, nt: nat, order: seq<nat>, lims: seq<int>, perm: seq<int>)
    requires nt > 0 && Partition(|vals|, Cuts(|vals|, nt)) && Entered(order, nt) && |order| == nt
    requires forall i :: 0 <= i < |vals| ==> vals[i] < vmax
    requires Sorted(vals, vmax, Visit(|vals|, Cuts(|vals|, nt), order), lims, perm)
    ensures Grouped(vals, vmax, lims, perm)
  {
    hide Slice, Start, Pick, Sorted, Visit, Grouped;
    VisitIsPermutation(|vals|, Cuts(|vals|, nt), order);
    forall i: nat | i < |vals| ensures multiset(Visit(|vals|, Cuts(|vals|, nt), order))[i] == 1 {
      IotaCount(0, |vals|, i);
    }
    SortedIsGrouped(vals, vmax, Visit(|vals|, Cuts(|vals|, nt), order), lims, perm);
  }

  /** MAIN: for every thread count, entering order and interleaving, lims are those of the sequential
      sort, perm is a permutation, and each bucket holds the same indices as the stable sort's. */
  lemma ParallelMatchesReference(vals: seq<nat>, vmax: nat, nt: nat, order: seq<nat>, lims: seq<int>, perm: seq<int>,
      refLims: seq<int>, refPerm: seq<int>)
    requires nt > 0 && Partition(|vals|, Cuts(|vals|, nt)) && Entered(order, nt) && |order| == nt
    requires forall i :: 0 <= i < |vals| ==> vals[i] < vmax
    requires Sorted(vals, vmax, Visit(|vals|, Cuts(|vals|, nt), order), lims, perm)
    requires Sorted(vals, vmax, Iota(0, |vals|), refLims, refPerm)
    ensures lims == refLims && |lims| == vmax + 1
    ensures forall b {:trigger lims[b]} :: 0 <= b < vmax ==>
              multiset(Slice(perm, lims[b], lims[b + 1])) == multiset(Slice(refPerm, refLims[b], refLims[b + 1]))
    ensures forall i :: 0 <= i < |vals| ==> multiset(perm)[i] == 1
  {
    hide Slice, Visit, Start, Pick, Cuts, Sorted;
    ParallelLims(vals, vmax, nt, order, lims, perm, refLims, refPerm);
    forall b {:trigger lims[b]} | 0 <= b < vmax
      ensures multiset(Slice(perm, lims[b], lims[b + 1])) == multiset(Slice(refPerm, refLims[b], refLims[b + 1]))
    {
      ParallelBucket(vals, vmax, nt, order, lims, perm, refLims, refPerm, b);
    }
    forall i | 0 <= i < |vals| ensures multiset(perm)[i] == 1 {
      ParallelIndex(vals, vmax, nt, order, lims, perm, i);
    }
  }

  lemma ParallelLims(vals: seq<nat>, vmax: nat, nt: nat, order: seq<nat>, lims: seq<int>, perm: seq<int>,
      refLims: seq<int>, refPerm: seq<int>)
    requires nt > 0 && Partition(|vals|, Cuts(|vals|, nt)) && Entered(order, nt) && |order| == nt
    requires Sorted(vals, vmax, Visit(|vals|, Cuts(|vals|, nt), order), lims, perm)
    requires Sorted(vals, vmax, Iota(0, |vals|), refLims, refPerm)
    ensures lims == refLims && |lims| == vmax + 1
  {
    hide Slice, Pick, Visit, Start, Sorted;
    VisitIsPermutation(|vals|, Cuts(|vals|, nt), order);
    SameLims(vals, vmax, Visit(|vals|, Cuts(|vals|, nt), order), Iota(0, |vals|), lims, perm, refLims, refPerm);
  }

  lemma ParallelBucket(vals: seq<nat>, vmax: nat, nt: nat, order: seq<nat>, lims: seq<int>, perm: seq<int>,
      refLims: seq<int>, refPerm: seq<int>, b: nat)
    requires nt > 0 && Partition(|vals|, Cuts(|vals|, nt)) && Entered(order, nt) && |order| == nt && b < vmax
    requires Sorted(vals, vmax, Visit(|vals|, Cuts(|vals|, nt), order), lims, perm)
    requires Sorted(vals, vmax, Iota(0, |vals|), refLims, refPerm)
    ensures |lims| == |refLims| == vmax + 1
    ensures multiset(Slice(perm, lims[b], lims[b + 1])) == multiset(Slice(refPerm, refLims[b], refLims[b + 1]))
  {
    hide Slice, Start, Pick, Visit;
    VisitIsPermutation(|vals|, Cuts(|vals|, nt), order);
    SameBuckets(vals, vmax, Visit(|vals|, Cuts(|vals|, nt), order), Iota(0, |vals|), lims, perm, refLims, refPerm, b);
  }

  lemma ParallelIndex(vals: seq<nat>, vmax: nat, nt: nat, order: seq<nat>, lims: seq<int>, perm: seq<int>, i: nat)
    requires nt > 0 && Partition(|vals|, Cuts(|vals|, nt)) && Entered(order, nt) && |order| == nt && i < |vals|
    requires forall i :: 0 <= i < |vals| ==> vals[i] < vmax
    requires Sorted(vals, vmax, Visit(|vals|, Cuts(|vals|, nt), order), lims, perm)
    ensures multiset(perm)[i] == 1
  {
    hide Slice, Start, Pick, Sorted, Visit;
    VisitIsPermutation(|vals|, Cuts(|vals|, nt), order);
    SortedIsPermutation(vals, vmax, Visit(|vals|, Cuts(|vals|, nt), order), lims, perm, i);
    IotaCount(0, |vals|, i);
  }

  lemma SameLims(vals: seq<nat>, vmax: nat, u: seq<nat>, w: seq<nat>, lims: seq<int>, perm: seq<int>, lims': seq<int>,
      perm': seq<int>)
    requires Sorted(vals, vmax, u, lims, perm) && Sorted(vals, vmax, w, lims', perm')
    ensures lims == lims' && |lims| == vmax + 1
  {
    assert forall c :: 0 <= c <= vmax ==> lims[c] == lims'[c];
  }
}
