/**
 The bounded candidate heap: a max-heap on distance holding the n nearest candidates, popped from the
 near end by leaving tombstones (id -1). A float stands for its rank among the floats; Infinity is
 the largest rank. There is no NaN.
 */
module MinimaxHeaps {

  const Infinity: int := 0x7f80_0000

  // -------------------------------------------------------------------------
  // Binary heap on two parallel arrays
  // -------------------------------------------------------------------------

  function Father(j: nat): (f: nat)
    requires j > 0
    ensures f < j
  {
    (j - 1) / 2
  }

  /** No distance exceeds its father's; ids play no part. */
  ghost predicate Heap(d: seq<int>, k: nat) {
    k <= |d| && forall j {:trigger Father(j)} :: 0 < j < k ==> d[Father(j)] >= d[j]
  }

  /** All of the heap but the link from position i to its father, which covers i's sons. */
  ghost predicate HeapAbove(d: seq<int>, k: nat, i: nat) {
    && k <= |d|
    && (forall j {:trigger Father(j)} :: 0 < j < k && j != i ==> d[Father(j)] >= d[j])
    && (forall j {:trigger Father(j)} :: 0 < j < k && i > 0 && Father(j) == i ==> d[Father(i)] >= d[j])
  }

  /** All of the heap but the links from position i to its sons, which i's father covers. */
  ghost predicate HeapBelow(d: seq<int>, k: nat, i: nat) {
    && k <= |d|
    && (forall j {:trigger Father(j)} :: 0 < j < k && Father(j) != i ==> d[Father(j)] >= d[j])
    && (forall j {:trigger Father(j)} :: 0 < j < k && i > 0 && Father(j) == i ==> d[Father(i)] >= d[j])
  }

  datatype Entry = Entry(d: int, id: int)

  function Entries(d: seq<int>, ids: seq<int>, k: nat): (e: seq<Entry>)
    requires k <= |d| == |ids|
    ensures |e| == k && forall j :: 0 <= j < k ==> e[j] == Entry(d[j], ids[j])
  {
    seq(k, j requires 0 <= j < k => Entry(d[j], ids[j]))
  }

  /** CMax: greater distance first, then greater id. */
  predicate Cmp2(d1: int, d2: int, id1: int, id2: int) {
    d1 > d2 || (d1 == d2 && id1 > id2)
  }

  lemma {:induction false} TopIsMax(d: seq<int>, k: nat, j: nat)
    requires Heap(d, k) && j < k
    ensures d[0] >= d[j]
    decreases j
  {
    if j > 0 { TopIsMax(d, k, Father(j)); }
  }

  lemma SwapMultiset<T>(s: seq<T>, i: nat, j: nat)
    requires i < |s| && j < |s|
    ensures multiset(s[i := s[j]][j := s[i]]) == multiset(s)
  {
  }

  /** Moving the new element up over a father that is not greater. */
  lemma MoveUp(d: seq<int>, k: nat, i: nat)
    requires HeapAbove(d, k, i) && 0 < i < k && d[i] >= d[Father(i)]
    ensures HeapAbove(d[i := d[Father(i)]][Father(i) := d[i]], k, Father(i))
  {
    var f := Father(i);
    var d' := d[i := d[f]][f := d[i]];
    if f > 0 { assert d[Father(f)] >= d[f]; }
    forall j | 0 < j < k && j != f ensures d'[Father(j)] >= d'[j] {
      if j != i {
        assert d[Father(j)] >= d[j];
        if Father(j) == i { assert d[Father(i)] >= d[j]; }
      }
    }
    forall j | 0 < j < k && f > 0 && Father(j) == f ensures d'[Father(f)] >= d'[j] {
      if j != i { assert d[Father(j)] >= d[j]; }
    }
  }

  /** Moving the sifted element down to its greatest son. */
  lemma MoveDown(d: seq<int>, k: nat, i: nat, c: nat)
    requires HeapBelow(d, k, i) && i < k && 0 < c < k && Father(c) == i && d[c] >= d[i]
    requires forall j {:trigger Father(j)} :: 0 < j < k && Father(j) == i ==> d[c] >= d[j]
    ensures HeapBelow(d[i := d[c]][c := d[i]], k, c)
  {
    var d' := d[i := d[c]][c := d[i]];
    forall j | 0 < j < k && Father(j) != c ensures d'[Father(j)] >= d'[j] {
      if Father(j) != i { assert d[Father(j)] >= d[j]; }
    }
    forall j | 0 < j < k && Father(j) == c ensures d'[Father(c)] >= d'[j] {
      assert d[Father(j)] >= d[j];
    }
  }

  /** The sons of i are 2 * i + 1 and 2 * i + 2. */
  lemma Sons(i: nat, j: nat)
    requires j > 0
    ensures Father(j) == i <==> j == 2 * i + 1 || j == 2 * i + 2
  {
  }

  // -------------------------------------------------------------------------
  // The n smallest
  // -------------------------------------------------------------------------

  /** `stored` are the n smallest of `pushed`. */
  ghost predicate NSmallest(stored: multiset<int>, pushed: multiset<int>, n: nat) {
    && stored <= pushed
    && |stored| == (if |pushed| < n then |pushed| else n)
    && forall x, y {:trigger (pushed - stored)[x], stored[y]} :: x in pushed - stored && y in stored ==> y <= x
  }

  ghost predicate Keeps(d: seq<int>, k: nat, pushed: seq<int>, n: nat) {
    k <= |d| && NSmallest(multiset(d[..k]), multiset(pushed), n)
  }

  lemma KeepsMore(d: seq<int>, k: nat, d': seq<int>, pushed: seq<int>, n: nat, v: int)
    requires Keeps(d, k, pushed, n) && k < n && k + 1 <= |d'| && multiset(d'[..k + 1]) == multiset(d[..k]) + multiset{v}
    ensures Keeps(d', k + 1, pushed + [v], n)
  {
    StoreMore(multiset(d[..k]), multiset(pushed), n, v);
  }

  lemma KeepsRefused(d: seq<int>, n: nat, pushed: seq<int>, v: int)
    requires Keeps(d, n, pushed, n) && 0 < n && Heap(d, n) && v >= d[0]
    ensures Keeps(d, n, pushed + [v], n)
  {
    TopOfStored(d, n);
    RefuseLarge(multiset(d[..n]), multiset(pushed), n, v);
  }

  lemma KeepsReplaced(d: seq<int>, n: nat, d1: seq<int>, d': seq<int>, pushed: seq<int>, v: int)
    requires Keeps(d, n, pushed, n) && 0 < n && Heap(d, n) && v < d[0] && n <= |d1| && n <= |d'|
    requires multiset(d[..n]) == multiset(d1[..n - 1]) + multiset{d[0]}
    requires multiset(d'[..n]) == multiset(d1[..n - 1]) + multiset{v}
    ensures Keeps(d', n, pushed + [v], n)
  {
    TopOfStored(d, n);
    ReplaceTop(multiset(d[..n]), multiset(pushed), n, d[0], v);
    assert multiset(d1[..n - 1]) == multiset(d[..n]) - multiset{d[0]};
  }

  lemma StoreMore(stored: multiset<int>, pushed: multiset<int>, n: nat, v: int)
    requires NSmallest(stored, pushed, n) && |stored| < n
    ensures NSmallest(stored + multiset{v}, pushed + multiset{v}, n)
  {
    assert pushed == stored + (pushed - stored);
    assert |pushed| == |stored| + |pushed - stored|;
    assert pushed - stored == multiset{};
    assert pushed + multiset{v} - (stored + multiset{v}) == pushed - stored;
  }

  lemma RefuseLarge(stored: multiset<int>, pushed: multiset<int>, n: nat, v: int)
    requires NSmallest(stored, pushed, n) && |stored| == n && forall y :: y in stored ==> y <= v
    ensures NSmallest(stored, pushed + multiset{v}, n)
  {
    assert pushed + multiset{v} - stored == pushed - stored + multiset{v};
    assert |pushed| >= n by { assert pushed == stored + (pushed - stored); }
  }

  lemma ReplaceTop(stored: multiset<int>, pushed: multiset<int>, n: nat, top: int, v: int)
    requires NSmallest(stored, pushed, n) && |stored| == n && top in stored && v < top
    requires forall y :: y in stored ==> y <= top
    ensures NSmallest(stored - multiset{top} + multiset{v}, pushed + multiset{v}, n)
  {
    var stored' := stored - multiset{top} + multiset{v};
    assert pushed + multiset{v} - stored' == pushed - stored + multiset{top};
    assert |pushed| >= n by { assert pushed == stored + (pushed - stored); }
  }

  /** How many entries of s are below t. */
  function Below(s: seq<int>, t: int): nat {
    if s == [] then 0 else Below(s[..|s| - 1], t) + if s[|s| - 1] < t then 1 else 0
  }

  ghost function PositionsBelow(s: seq<int>, t: int): set<int> {
    set j | 0 <= j < |s| && s[j] < t
  }

  lemma {:induction false} BelowCounts(s: seq<int>, t: int)
    ensures Below(s, t) == |PositionsBelow(s, t)|
  {
    if s != [] {
      var n := |s| - 1;
      BelowCounts(s[..n], t);
      var more := if s[n] < t then {n} else {};
      assert PositionsBelow(s, t) == PositionsBelow(s[..n], t) + more;
    } else {
      assert PositionsBelow(s, t) == {};
    }
  }

  lemma {:induction false} BelowAppend(s: seq<int>, r: seq<int>, t: int)
    ensures Below(s + r, t) == Below(s, t) + Below(r, t)
  {
    if r == [] {
      assert s + r == s;
    } else {
      BelowAppend(s, r[..|r| - 1], t);
      assert (s + r)[..|s + r| - 1] == s + r[..|r| - 1];
    }
  }

  lemma BelowWithout(s: seq<int>, p: nat, t: int)
    requires p < |s|
    ensures multiset(s) == multiset(s[..p] + s[p + 1..]) + multiset{s[p]}
    ensures Below(s, t) == Below(s[..p] + s[p + 1..], t) + if s[p] < t then 1 else 0
  {
    assert s == s[..p] + ([s[p]] + s[p + 1..]);
    BelowAppend(s[..p], [s[p]] + s[p + 1..], t);
    BelowAppend([s[p]], s[p + 1..], t);
    BelowAppend(s[..p], s[p + 1..], t);
    assert [s[p]][..0] == [];
  }

  /** What is left of p when the elements of s are taken out, one by one. */
  lemma {:induction false} TakenOut(s: seq<int>, p: seq<int>, t: int) returns (r: seq<int>)
    requires multiset(s) <= multiset(p)
    ensures multiset(r) == multiset(p) - multiset(s) && Below(p, t) == Below(s, t) + Below(r, t)
    decreases |s|
  {
    if s == [] {
      r := p;
    } else {
      var n := |s| - 1;
      assert s == s[..n] + [s[n]];
      assert multiset(s) == multiset(s[..n]) + multiset{s[n]};
      assert s[n] in multiset(s);
      var i :| 0 <= i < |p| && p[i] == s[n];
      BelowWithout(p, i, t);
      var p' := p[..i] + p[i + 1..];
      LessOne(multiset(s), multiset(p), s[n], multiset(s[..n]), multiset(p'));
      r := TakenOut(s[..n], p', t);
    }
  }

  lemma LessOne(a: multiset<int>, b: multiset<int>, x: int, a': multiset<int>, b': multiset<int>)
    requires a <= b && a == a' + multiset{x} && b == b' + multiset{x}
    ensures a' <= b' && b' - a' == b - a
  {
    assert a' == a - multiset{x} && b' == b - multiset{x};
  }

  lemma {:induction false} NoneBelow(s: seq<int>, t: int)
    requires forall j :: 0 <= j < |s| ==> s[j] >= t
    ensures Below(s, t) == 0
  {
    if s != [] { NoneBelow(s[..|s| - 1], t); }
  }

  lemma {:induction false} AllBelow(s: seq<int>, t: int)
    ensures Below(s, t) <= |s|
    ensures Below(s, t) < |s| ==> exists j :: 0 <= j < |s| && s[j] >= t
  {
    if s != [] { AllBelow(s[..|s| - 1], t); }
  }

  lemma BelowOfSmallest(s: seq<int>, pushed: seq<int>, n: nat, t: int)
    requires NSmallest(multiset(s), multiset(pushed), n)
    ensures Below(s, t) == if Below(pushed, t) < n then Below(pushed, t) else n
  {
    var r := TakenOut(s, pushed, t);
    assert multiset(pushed) == multiset(s) + multiset(r);
    assert |pushed| == |multiset(pushed)| == |s| + |r|;
    AllBelow(s, t);
    if Below(s, t) < |s| {
      var y :| 0 <= y < |s| && s[y] >= t;
      forall x | 0 <= x < |r| ensures r[x] >= t {
        assert r[x] in multiset(pushed) - multiset(s) && s[y] in multiset(s);
      }
      NoneBelow(r, t);
    }
  }

  /** Entries that are no tombstones. */
  function Live(ids: seq<int>, k: nat): int
    requires k <= |ids|
  {
    k - multiset(ids[..k])[-1]
  }

  /** Entry idx is live, and any live entry is farther, or as far and not to the right. */
  ghost predicate RightmostMin(d: seq<int>, ids: seq<int>, k: nat, idx: int) {
    && k <= |d| == |ids| && 0 <= idx < k && ids[idx] != -1
    && forall j {:trigger ids[j]} :: 0 <= j < k && ids[j] != -1 ==> d[idx] < d[j] || (d[idx] == d[j] && j <= idx)
  }

  ghost predicate NoneLive(ids: seq<int>, k: nat) {
    k <= |ids| && forall j {:trigger ids[j]} :: 0 <= j < k ==> ids[j] == -1
  }

  lemma RightmostMinIsUnique(d: seq<int>, ids: seq<int>, k: nat, a: int, b: int)
    requires RightmostMin(d, ids, k, a) && RightmostMin(d, ids, k, b)
    ensures a == b
  {
  }

  // -------------------------------------------------------------------------
  // The heap object
  // -------------------------------------------------------------------------

  class MinimaxHeap {
    const n: nat
    var k: nat
    var nvalid: int
    var ids: seq<int>
    var dis: seq<int>
    ghost var pushed: seq<int>

    ghost predicate Valid()
      reads this
    {
      && 0 < n && k <= n == |ids| == |dis|
      && Heap(dis, k) && nvalid == Live(ids, k)
      && Keeps(dis, k, pushed, n)
      && Bounded(Entries(dis, ids, k))
    }

    /** Distance and id of every entry, tombstones included. */
    ghost function Contents(): multiset<Entry>
      reads this
      requires k <= |dis| == |ids|
    {
      multiset(Entries(dis, ids, k))
    }

    constructor (n: nat)
      requires n > 0
      ensures Valid() && this.n == n && k == 0 && pushed == []
    {
      this.n := n;
      k, nvalid := 0, 0;
      ids, dis := seq(n, _ => 0), seq(n, _ => 0);
      pushed := [];
    }

    method Push(i: int, v: int)
      requires Valid() && i >= 0 && v <= Infinity
      modifies this
      ensures Valid() && pushed == old(pushed) + [v]
      ensures k == if old(k) < n then old(k) + 1 else n
      ensures if old(k) < n then Contents() == old(Contents()) + multiset{Entry(v, i)}
              else if v >= old(dis)[0] then Contents() == old(Contents())
              else Contents() + multiset{Entry(old(dis)[0], old(ids)[0])} == old(Contents()) + multiset{Entry(v, i)}
    {
      hide Heap, Entries, Keeps, Live, Bounded;
      ghost var d := dis;
      if k == n {
        if v >= dis[0] {
          KeepsRefused(dis, n, pushed, v);
        } else {
          ReplaceEntry(i, v);
        }
      } else {
        PushEntry(i, v);
        KeepsMore(d, k - 1, dis, pushed, n, v);
      }
      pushed := pushed + [v];
    }

    method Max() returns (d: int)
      requires Valid() && k > 0
      ensures d in multiset(dis[..k]) && forall y :: y in multiset(dis[..k]) ==> y <= d
    {
      TopOfStored(dis, k);
      d := dis[0];
    }

    method Size() returns (s: int)
      requires Valid()
      ensures s == Live(ids, k)
    {
      s := nvalid;
    }

    method Clear()
      requires Valid()
      modifies this
      ensures Valid() && k == 0 && pushed == []
    {
      nvalid, k := 0, 0;
      pushed := [];
    }

    /** What every version of PopMin does: the rightmost of the nearest live entries becomes a
        tombstone, its id and distance are returned; -1 when there is no live entry. */
    twostate predicate Popped(ret: int, vmin: int, idx: int)
      reads this
    {
      && Valid() && dis == old(dis) && k == old(k) && pushed == old(pushed)
      && if idx == -1 then NoneLive(old(ids), k) && ret == -1 && ids == old(ids) && nvalid == old(nvalid)
         else RightmostMin(old(dis), old(ids), k, idx) && ret == old(ids)[idx] && vmin == dis[idx]
              && ids == old(ids)[idx := -1] && nvalid == old(nvalid) - 1
    }

    /** The common end of all versions. */
    method Take(idx: int) returns (ret: int, vmin: int)
      requires Valid() && (if idx == -1 then NoneLive(ids, k) else RightmostMin(dis, ids, k, idx))
      modifies this`ids, this`nvalid
      ensures Popped(ret, vmin, idx)
    {
      if idx == -1 { return -1, Infinity; }
      vmin := dis[idx];
      ret := ids[idx];
      ghost var e := ids;
      ids := ids[idx := -1];
      nvalid := nvalid - 1;
      Tombstone(dis, e, k, idx);
    }

    /** Without vector instructions: from the right end to the left. */
    method PopMin() returns (ret: int, vmin: int, ghost idx: int)
      requires Valid() && k > 0
      modifies this`ids, this`nvalid
      ensures Popped(ret, vmin, idx)
    {
      var i := k - 1;
      while i >= 0
        invariant -1 <= i < k && forall j {:trigger ids[j]} :: i < j < k ==> ids[j] == -1
      {
        if ids[i] != -1 { break; }
        i := i - 1;
      }
      if i == -1 {
        ret, vmin := Take(-1);
        return ret, vmin, -1;
      }
      var imin := i;
      var v := dis[i];
      i := i - 1;
      while i >= 0
        invariant -1 <= i < imin < k && ids[imin] != -1 && v == dis[imin]
        invariant forall j {:trigger ids[j]} :: i < j < k && ids[j] != -1 ==> v < dis[j] || (v == dis[j] && j <= imin)
      {
        if ids[i] != -1 && dis[i] < v {
          v := dis[i];
          imin := i;
        }
        i := i - 1;
      }
      idx := imin;
      ret, vmin := Take(imin);
    }

    /** Eight lanes, then the lanes from left to right, then the entries left over. */
    method PopMinAvx2() returns (ret: int, vmin: int, ghost idx: int)
      requires Valid() && k > 0
      modifies this`ids, this`nvalid
      ensures Popped(ret, vmin, idx)
    {
      hide Heap, Keeps, Live, Entries, Bounded, Split;
      BoundedAll(dis, ids, k);
      var iii, minIdx, minDis;
      ghost var lane;
      var lanes := StartLanes(8);
      iii, lanes, lane := FullBlocks(8, lanes);
      minIdx, minDis := LeftToRight(8, lanes, iii, lane);
      while iii < k
        invariant iii <= k && Best(dis, ids, iii, minIdx, minDis)
      {
        if ids[iii] != -1 && dis[iii] <= minDis {
          minDis := dis[iii];
          minIdx := iii;
        }
        iii := iii + 1;
      }
      idx := minIdx;
      ret, vmin := Take(minIdx);
    }

    /** Sixteen lanes, a masked block for the entries left over, then the least lane and in it the
        greatest index. */
    method PopMinAvx512() returns (ret: int, vmin: int, ghost idx: int)
      requires Valid() && k > 0
      modifies this`ids, this`nvalid
      ensures Popped(ret, vmin, idx)
    {
      hide Heap, Keeps, Live, Entries, Bounded, Split, RightmostMin;
      BoundedAll(dis, ids, k);
      var iii;
      ghost var lane;
      var lanes := StartLanes(16);
      iii, lanes, lane := FullBlocks(16, lanes);
      if iii != k {
        lanes, lane := MaskedBlock(16, iii, lanes, lane);
      }
      var minIdx := Reduce(16, lanes, lane);
      idx := minIdx;
      ret, vmin := Take(minIdx);
    }

    /** Blocks of w entries: lane l keeps its rightmost nearest live entry. */
    method FullBlocks(w: nat, lanes0: seq<Entry>) returns (iii: nat, lanes: seq<Entry>, ghost lane: seq<nat>)
      requires Valid() && w > 0 && (forall j :: 0 <= j < k ==> dis[j] <= Infinity && ids[j] >= -1)
      requires lanes0 == StartLanes(w)
      ensures iii <= k < iii + w && Split(dis, ids, w, iii, lanes, lane)
    {
      iii, lanes, lane := 0, lanes0, [];
      while iii + w <= k
        invariant iii <= k && Split(dis, ids, w, iii, lanes, lane)
      {
        lanes, lane := MaskedBlock(w, iii, lanes, lane);
        iii := iii + w;
      }
    }

    /** One block; entries past k are masked out. */
    method MaskedBlock(w: nat, iii: nat, lanes: seq<Entry>, ghost lane: seq<nat>)
      returns (lanes': seq<Entry>, ghost lane': seq<nat>)
      requires Valid() && w > 0 && (forall j :: 0 <= j < k ==> dis[j] <= Infinity && ids[j] >= -1)
      requires iii <= k && Split(dis, ids, w, iii, lanes, lane)
      ensures Split(dis, ids, w, if iii + w <= k then iii + w else k, lanes', lane')
    {
      var m: nat := if iii + w <= k then w else k - iii;
      lanes' := Compared(dis, ids, iii, m, lanes);
      lane' := lane + Numbers(m);
      BlockDone(dis, ids, w, iii, m, lanes, lane);
    }

    method LeftToRight(w: nat, lanes: seq<Entry>, iii: nat, ghost lane: seq<nat>) returns (minIdx: int, minDis: int)
      requires w > 0 && iii <= k <= |dis| == |ids| && Split(dis, ids, w, iii, lanes, lane)
      ensures Best(dis, ids, iii, minIdx, minDis)
    {
      minIdx, minDis := -1, Infinity;
      for j := 0 to w
        invariant LanesBest(dis, ids, iii, lanes, lane, j, minIdx, minDis)
      {
        LaneJoins(dis, ids, w, iii, lanes, lane, j, minIdx, minDis);
        if minDis > lanes[j].d || (minDis == lanes[j].d && minIdx < lanes[j].id) {
          minIdx := lanes[j].id;
          minDis := lanes[j].d;
        }
      }
    }

    /** The least distance over all lanes, then the greatest index among the lanes that have it. */
    method Reduce(w: nat, lanes: seq<Entry>, ghost lane: seq<nat>) returns (minIdx: int)
      requires w > 0 && k <= |dis| == |ids| && Split(dis, ids, w, k, lanes, lane)
      ensures if minIdx == -1 then NoneLive(ids, k) else RightmostMin(dis, ids, k, minIdx)
    {
      var minDis := lanes[0].d;
      for l := 1 to w
        invariant forall j :: 0 <= j < l ==> minDis <= lanes[j].d
        invariant exists j :: 0 <= j < l && lanes[j].d == minDis
      {
        if lanes[l].d < minDis { minDis := lanes[l].d; }
      }
      ghost var best: nat :| best < w && lanes[best].d == minDis;
      minIdx := -1;
      ghost var from := best;
      for l := 0 to w
        invariant minIdx >= -1 && forall j :: 0 <= j < l && lanes[j].d == minDis ==> lanes[j].id <= minIdx
        invariant minIdx == -1 || exists j :: 0 <= j < l && lanes[j] == Entry(minDis, minIdx)
      {
        if lanes[l].d == minDis && lanes[l].id > minIdx { minIdx := lanes[l].id; }
      }
      ReducedIsBest(dis, ids, w, k, lanes, lane, minIdx, minDis);
    }

    /** Counts all distances ever pushed below the threshold, up to n of them: neither pops nor
        evictions are noticed. */
    method CountBelow(thresh: int) returns (nBelow: nat)
      requires Valid()
      ensures var all := |PositionsBelow(pushed, thresh)|; nBelow == if all < n then all else n
    {
      BelowCounts(pushed, thresh);
      BelowOfSmallest(dis[..k], pushed, n, thresh);
      nBelow := 0;
      for i := 0 to k
        invariant nBelow == Below(dis[..i], thresh)
      {
        assert dis[..i + 1][..i] == dis[..i];
        if dis[i] < thresh { nBelow := nBelow + 1; }
      }
    }

    /** Out goes the top entry, in comes the new one. */
    method ReplaceEntry(i: int, v: int)
      requires k == n == |ids| == |dis| && 0 < n && Heap(dis, k) && nvalid == Live(ids, k)
      requires Bounded(Entries(dis, ids, k)) && Keeps(dis, k, pushed, n) && i >= 0 && v < dis[0] && v <= Infinity
      modifies this`k, this`nvalid, this`ids, this`dis
      ensures k == n == |ids| == |dis| && Heap(dis, k) && nvalid == Live(ids, k) && Bounded(Entries(dis, ids, k))
      ensures Keeps(dis, k, pushed + [v], n)
      ensures Contents() + multiset{Entry(old(dis)[0], old(ids)[0])} == old(Contents()) + multiset{Entry(v, i)}
    {
      hide Heap, Entries, Keeps, Live, Bounded;
      ghost var d := dis;
      DropTop();
      ghost var d1 := dis;
      PushEntry(i, v);
      KeepsReplaced(d, n, d1, dis, pushed, v);
    }

    method DropTop()
      requires 0 < k <= n == |ids| == |dis| && Heap(dis, k) && nvalid == Live(ids, k) && Bounded(Entries(dis, ids, k))
      modifies this`k, this`nvalid, this`ids, this`dis
      ensures k + 1 == old(k) <= n == |ids| == |dis| && Heap(dis, k) && nvalid == Live(ids, k)
      ensures Bounded(Entries(dis, ids, k))
      ensures multiset(old(dis)[..old(k)]) == multiset(dis[..k]) + multiset{old(dis)[0]}
      ensures old(Contents()) == Contents() + multiset{Entry(old(dis)[0], old(ids)[0])}
    {
      hide Heap, Entries, Live, Bounded;
      ghost var d, e := dis, ids;
      if ids[0] != -1 { nvalid := nvalid - 1; }
      HeapPop();
      k := k - 1;
      Project(d, e, k + 1, dis, ids, k, Entry(d[0], e[0]));
    }

    method PushEntry(i: int, v: int)
      requires k < n == |ids| == |dis| && Heap(dis, k) && nvalid == Live(ids, k) && Bounded(Entries(dis, ids, k))
      requires i >= 0 && v <= Infinity
      modifies this`k, this`nvalid, this`ids, this`dis
      ensures k == old(k) + 1 <= n == |ids| == |dis| && Heap(dis, k) && nvalid == Live(ids, k)
      ensures Bounded(Entries(dis, ids, k))
      ensures multiset(dis[..k]) == multiset(old(dis)[..old(k)]) + multiset{v}
      ensures Contents() == old(Contents()) + multiset{Entry(v, i)}
    {
      hide Heap, Entries, Live, Bounded;
      ghost var d, e := dis, ids;
      k := k + 1;
      HeapPush(v, i);
      Project(dis, ids, k, d, e, k - 1, Entry(v, i));
      nvalid := nvalid + 1;
    }

    /** heap_push: position k - 1 is filled, the new entry moves up to its place. */
    method HeapPush(v: int, id: int)
      requires 0 < k <= |dis| == |ids| && Heap(dis, k - 1)
      modifies this`ids, this`dis
      ensures Heap(dis, k) && |dis| == |old(dis)| == |ids|
      ensures multiset(Entries(dis, ids, k)) == multiset(Entries(old(dis), old(ids), k - 1)) + multiset{Entry(v, id)}
    {
      hide SiftUp, Entries, Heap;
      ghost var all := multiset(Entries(dis, ids, k - 1)) + multiset{Entry(v, id)};
      UpStart(dis, ids, k, v, id);
      var i := SiftNew(v, id, all);
      dis := dis[i := v];
      ids := ids[i := id];
    }

    /** Moves smaller fathers down until the new entry (v, id) fits into the hole. */
    method SiftNew(v: int, id: int, ghost all: multiset<Entry>) returns (i: nat)
      requires 0 < k <= |dis| == |ids| && SiftUp(dis, ids, k, k - 1, v, id, all)
      modifies this`ids, this`dis
      ensures i < k <= |dis| == |ids| == |old(dis)|
      ensures Heap(dis[i := v], k) && multiset(Entries(dis[i := v], ids[i := id], k)) == all
    {
      hide SiftUp, Entries, Heap;
      i := k - 1;
      while i > 0
        invariant i < k <= |dis| == |ids| == |old(dis)|
        invariant SiftUp(dis, ids, k, i, v, id, all)
      {
        var f := Father(i);
        if !Cmp2(v, dis[f], id, ids[f]) { break; }
        UpMove(dis, ids, k, i, v, id, all);
        dis := dis[i := dis[f]];
        ids := ids[i := ids[f]];
        i := f;
      }
      UpEnd(dis, ids, k, i, v, id, all);
    }

    /** heap_pop: the last entry takes the place of the top one and moves down. */
    method HeapPop()
      requires 0 < k <= |dis| == |ids| && Heap(dis, k)
      modifies this`ids, this`dis
      ensures Heap(dis, k - 1) && |dis| == |old(dis)| == |ids|
      ensures multiset(Entries(old(dis), old(ids), k))
          == multiset(Entries(dis, ids, k - 1)) + multiset{Entry(old(dis)[0], old(ids)[0])}
    {
      hide SiftDown, Entries, Heap;
      ghost var rest := multiset(Entries(dis, ids, k)) - multiset{Entry(dis[0], ids[0])};
      DownStart(dis, ids, k);
      var i := SiftLast(dis[k - 1], ids[k - 1], rest);
      dis := dis[i := dis[k - 1]];
      ids := ids[i := ids[k - 1]];
    }

    /** Moves greater sons up until the last entry (val, id) fits into the hole. */
    method SiftLast(val: int, id: int, ghost rest: multiset<Entry>) returns (i: nat)
      requires 0 < k <= |dis| == |ids| && SiftDown(dis, ids, k, 0, val, id, rest)
      modifies this`ids, this`dis
      ensures i < k <= |dis| == |ids| == |old(dis)| && dis[k - 1] == val && ids[k - 1] == id
      ensures Heap(dis[i := val], k - 1) && multiset(Entries(dis[i := val], ids[i := id], k - 1)) == rest
    {
      hide SiftDown, Entries, Heap;
      i := 0;
      while true
        invariant i < k <= |dis| == |ids| == |old(dis)|
        invariant SiftDown(dis, ids, k, i, val, id, rest)
        decreases k - i
      {
        var i1 := 2 * i + 1;
        var i2 := i1 + 1;
        if i1 >= k {
          DownEnd(dis, ids, k, i, val, id, rest);
          return;
        }
        var c := if i2 == k || Cmp2(dis[i1], dis[i2], ids[i1], ids[i2]) then i1 else i2;
        if Cmp2(val, dis[c], id, ids[c]) {
          DownEnd(dis, ids, k, i, val, id, rest);
          return;
        }
        DownMove(dis, ids, k, i, c, val, id, rest);
        dis := dis[i := dis[c]];
        ids := ids[i := ids[c]];
        i := c;
      }
    }
  }

  // -------------------------------------------------------------------------
  // Lanes
  // -------------------------------------------------------------------------

  function StartLanes(w: nat): seq<Entry> {
    seq(w, _ => Entry(Infinity, -1))
  }

  /** (idx, v) is the rightmost nearest live entry among the first n, or (-1, Infinity). */
  ghost predicate Best(d: seq<int>, ids: seq<int>, n: nat, idx: int, v: int) {
    if idx == -1 then v == Infinity && NoneLive(ids, n) else RightmostMin(d, ids, n, idx) && v == d[idx]
  }

  /** Entry x is what lane l keeps of the first n entries; lane[j] is the lane of entry j. */
  ghost predicate LaneOk(d: seq<int>, ids: seq<int>, n: nat, lane: seq<nat>, l: nat, x: Entry) {
    && n <= |lane| && n <= |d| == |ids| && x.id >= -1
    && (x.id == -1 ==> x.d == Infinity && forall j {:trigger ids[j]} :: 0 <= j < n && lane[j] == l ==> ids[j] == -1)
    && (x.id >= 0 ==>
          && x.id < n && lane[x.id] == l && ids[x.id] != -1 && x.d == d[x.id]
          && forall j {:trigger ids[j]} :: 0 <= j < n && lane[j] == l && ids[j] != -1 ==> x.d < d[j] || (x.d == d[j] && j <= x.id))
  }

  ghost predicate Split(d: seq<int>, ids: seq<int>, w: nat, n: nat, lanes: seq<Entry>, lane: seq<nat>) {
    && |lanes| == w && |lane| == n <= |d| == |ids|
    && (forall j {:trigger ids[j]} {:trigger lane[j]} :: 0 <= j < n ==> lane[j] < w && ids[j] >= -1 && d[j] <= Infinity)
    && (forall l {:trigger lanes[l]} :: 0 <= l < w ==> LaneOk(d, ids, n, lane, l, lanes[l]))
  }

  /** The block at iii against the lanes, all lanes at once; entries from m on are masked. */
  function Compared(d: seq<int>, ids: seq<int>, iii: nat, m: nat, lanes: seq<Entry>): (r: seq<Entry>)
    requires m <= |lanes| && iii + m <= |d| == |ids|
    ensures |r| == |lanes|
  {
    seq(|lanes|, l requires 0 <= l < |lanes| =>
      if l >= m || ids[iii + l] < 0 || lanes[l].d < d[iii + l] then lanes[l] else Entry(d[iii + l], iii + l))
  }

  ghost function Numbers(m: nat): (r: seq<nat>)
    ensures |r| == m && forall l :: 0 <= l < m ==> r[l] == l
  {
    seq(m, l requires 0 <= l => l)
  }

  lemma BlockDone(d: seq<int>, ids: seq<int>, w: nat, iii: nat, m: nat, lanes: seq<Entry>, lane: seq<nat>)
    requires Split(d, ids, w, iii, lanes, lane) && m <= w && iii + m <= |d| == |ids|
    requires forall j :: 0 <= j < iii + m ==> d[j] <= Infinity && ids[j] >= -1
    ensures Split(d, ids, w, iii + m, Compared(d, ids, iii, m, lanes), lane + Numbers(m))
  {
    var lanes', lane' := Compared(d, ids, iii, m, lanes), lane + Numbers(m);
    assert forall j :: 0 <= j < iii + m ==> lane'[j] == if j < iii then lane[j] else j - iii;
    forall l | 0 <= l < w ensures LaneOk(d, ids, iii + m, lane', l, lanes'[l]) {
      assert LaneOk(d, ids, iii, lane, l, lanes[l]);
    }
  }

  /** Best entry over the first l lanes. */
  ghost predicate LanesBest(d: seq<int>, ids: seq<int>, n: nat, lanes: seq<Entry>, lane: seq<nat>, l: int, idx: int,
      v: int) {
    && n <= |lane| && n <= |d| == |ids| && idx >= -1
    && (idx == -1 ==> v == Infinity && forall j {:trigger ids[j]} :: 0 <= j < n && lane[j] < l ==> ids[j] == -1)
    && (idx >= 0 ==>
          && idx < n && lane[idx] < l && ids[idx] != -1 && v == d[idx]
          && forall j {:trigger ids[j]} :: 0 <= j < n && lane[j] < l && ids[j] != -1 ==> v < d[j] || (v == d[j] && j <= idx))
  }

  lemma LaneJoins(d: seq<int>, ids: seq<int>, w: nat, n: nat, lanes: seq<Entry>, lane: seq<nat>, l: nat, idx: int,
      v: int)
    requires Split(d, ids, w, n, lanes, lane) && l < w && LanesBest(d, ids, n, lanes, lane, l, idx, v)
    ensures var x := lanes[l];
            if v > x.d || (v == x.d && idx < x.id) then LanesBest(d, ids, n, lanes, lane, l + 1, x.id, x.d)
            else LanesBest(d, ids, n, lanes, lane, l + 1, idx, v)
  {
    assert LaneOk(d, ids, n, lane, l, lanes[l]);
    assert lanes[l].id >= 0 ==> lanes[l].d <= Infinity;
    assert idx >= 0 ==> v <= Infinity;
  }

  lemma ReducedIsBest(d: seq<int>, ids: seq<int>, w: nat, n: nat, lanes: seq<Entry>, lane: seq<nat>, idx: int, v: int)
    requires Split(d, ids, w, n, lanes, lane) && w > 0 && idx >= -1
    requires forall l :: 0 <= l < w ==> v <= lanes[l].d
    requires exists l :: 0 <= l < w && lanes[l].d == v
    requires forall l :: 0 <= l < w && lanes[l].d == v ==> lanes[l].id <= idx
    requires idx == -1 || exists l :: 0 <= l < w && lanes[l] == Entry(v, idx)
    ensures if idx == -1 then NoneLive(ids, n) else RightmostMin(d, ids, n, idx)
  {
    if idx == -1 {
      var l :| 0 <= l < w && lanes[l].d == v;
      assert LaneOk(d, ids, n, lane, l, lanes[l]);
      forall j | 0 <= j < n ensures ids[j] == -1 {
        assert ids[j] == ids[j];
        assert LaneOk(d, ids, n, lane, lane[j], lanes[lane[j]]);
      }
    } else {
      var l :| 0 <= l < w && lanes[l] == Entry(v, idx);
      assert LaneOk(d, ids, n, lane, l, lanes[l]);
      forall j | 0 <= j < n && ids[j] != -1 ensures v < d[j] || (v == d[j] && j <= idx) {
        assert LaneOk(d, ids, n, lane, lane[j], lanes[lane[j]]);
      }
    }
  }

  lemma BoundedAll(d: seq<int>, ids: seq<int>, k: nat)
    requires k <= |d| == |ids| && Bounded(Entries(d, ids, k))
    ensures forall j :: 0 <= j < k ==> d[j] <= Infinity && ids[j] >= -1
  {
    forall j | 0 <= j < k ensures d[j] <= Infinity && ids[j] >= -1 {
      assert Entries(d, ids, k)[j] in Entries(d, ids, k);
    }
  }

  /** One more tombstone. */
  lemma Tombstone(d: seq<int>, ids: seq<int>, k: nat, idx: nat)
    requires idx < k <= |d| == |ids| && Bounded(Entries(d, ids, k)) && ids[idx] != -1
    ensures Live(ids[idx := -1], k) == Live(ids, k) - 1 && Bounded(Entries(d, ids[idx := -1], k))
  {
    BoundedAll(d, ids, k);
    var ids' := ids[idx := -1];
    assert ids'[..k] == ids[..k][idx := -1];
    assert multiset(ids'[..k]) == multiset(ids[..k]) - multiset{ids[idx]} + multiset{-1};
    forall x | x in Entries(d, ids', k) ensures x.d <= Infinity && x.id >= -1 {
      var j :| 0 <= j < k && Entries(d, ids', k)[j] == x;
    }
  }

  lemma TopOfStored(d: seq<int>, k: nat)
    requires 0 < k && Heap(d, k)
    ensures d[0] in multiset(d[..k]) && forall y :: y in multiset(d[..k]) ==> y <= d[0]
  {
    assert d[..k][0] == d[0];
    forall y | y in multiset(d[..k]) ensures y <= d[0] {
      var j :| 0 <= j < k && d[..k][j] == y;
      TopIsMax(d, k, j);
    }
  }

  function Part(s: seq<Entry>, f: Entry -> int): (r: seq<int>)
    ensures |r| == |s|
  {
    seq(|s|, j requires 0 <= j < |s| => f(s[j]))
  }

  lemma PartWithout(t: seq<Entry>, p: nat, f: Entry -> int)
    requires p < |t|
    ensures multiset(t) == multiset(t[..p] + t[p + 1..]) + multiset{t[p]}
    ensures multiset(Part(t, f)) == multiset(Part(t[..p] + t[p + 1..], f)) + multiset{f(t[p])}
  {
    var u, q := t[..p] + t[p + 1..], Part(t[..p] + t[p + 1..], f);
    assert t == t[..p] + [t[p]] + t[p + 1..];
    assert Part(t, f) == q[..p] + [f(t[p])] + q[p..];
    assert q == q[..p] + q[p..];
  }

  lemma {:induction false} PartOfPermuted(s: seq<Entry>, t: seq<Entry>, f: Entry -> int)
    requires multiset(s) == multiset(t)
    ensures multiset(Part(s, f)) == multiset(Part(t, f))
  {
    if s == [] {
      assert |multiset(t)| == 0;
      assert t == [];
    } else {
      hide Part;
      var n := |s| - 1;
      assert s[n] in multiset(s);
      var p :| 0 <= p < |t| && t[p] == s[n];
      PartWithout(s, n, f);
      PartWithout(t, p, f);
      var s', t' := s[..n] + s[n + 1..], t[..p] + t[p + 1..];
      assert multiset(s') + multiset{s[n]} == multiset(t') + multiset{s[n]};
      assert multiset(s') == multiset(s') + multiset{s[n]} - multiset{s[n]} == multiset(t');
      PartOfPermuted(s', t', f);
    }
  }

  ghost predicate Bounded(s: seq<Entry>) {
    forall x {:trigger x in s} :: x in s ==> x.d <= Infinity && x.id >= -1
  }

  lemma BoundedPermuted(s: seq<Entry>, t: seq<Entry>, x: Entry)
    requires multiset(s) == multiset(t) + multiset{x}
    ensures Bounded(s) <==> Bounded(t) && x.d <= Infinity && x.id >= -1
  {
    forall y ensures y in s <==> y in t || y == x {
      assert (y in s) == (y in multiset(s)) && (y in t) == (y in multiset(t));
      assert multiset(s)[y] == multiset(t)[y] + multiset{x}[y];
    }
    if Bounded(s) { assert x in s; }
  }

  /** Entries that agree but for x: so do distances and ids. */
  lemma Project(d: seq<int>, e: seq<int>, k: nat, d': seq<int>, e': seq<int>, k': nat, x: Entry)
    requires k <= |d| == |e| && k' <= |d'| == |e'|
    requires multiset(Entries(d, e, k)) == multiset(Entries(d', e', k')) + multiset{x}
    ensures k == k' + 1
    ensures multiset(d[..k]) == multiset(d'[..k']) + multiset{x.d}
    ensures Live(e, k) == Live(e', k') + if x.id != -1 then 1 else 0
    ensures Bounded(Entries(d, e, k)) <==> Bounded(Entries(d', e', k')) && x.d <= Infinity && x.id >= -1
  {
    var s, t := Entries(d, e, k), Entries(d', e', k') + [x];
    BoundedPermuted(s, Entries(d', e', k'), x);
    assert |multiset(s)| == k && |multiset(t)| == k' + 1;
    ProjectPart(s, Entries(d', e', k'), x, (y: Entry) => y.d, d[..k], d'[..k']);
    ProjectPart(s, Entries(d', e', k'), x, (y: Entry) => y.id, e[..k], e'[..k']);
  }

  lemma ProjectPart(s: seq<Entry>, t: seq<Entry>, x: Entry, f: Entry -> int, u: seq<int>, w: seq<int>)
    requires multiset(s) == multiset(t) + multiset{x} && u == Part(s, f) && w == Part(t, f)
    ensures multiset(u) == multiset(w) + multiset{f(x)}
  {
    PartOfPermuted(s, t + [x], f);
    assert Part(t + [x], f) == Part(t, f) + [f(x)];
  }

  // -------------------------------------------------------------------------
  // Sifting: the array with the moving entry put into the hole at i
  // -------------------------------------------------------------------------

  ghost predicate SiftUp(d: seq<int>, e: seq<int>, k: nat, i: nat, v: int, id: int, all: multiset<Entry>) {
    && i < k <= |d| == |e|
    && HeapAbove(d[i := v], k, i) && multiset(Entries(d[i := v], e[i := id], k)) == all
  }

  lemma UpStart(d: seq<int>, e: seq<int>, k: nat, v: int, id: int)
    requires 0 < k <= |d| == |e| && Heap(d, k - 1)
    ensures SiftUp(d, e, k, k - 1, v, id, multiset(Entries(d, e, k - 1)) + multiset{Entry(v, id)})
  {
    assert Entries(d[k - 1 := v], e[k - 1 := id], k) == Entries(d, e, k - 1) + [Entry(v, id)];
  }

  lemma UpMove(d: seq<int>, e: seq<int>, k: nat, i: nat, v: int, id: int, all: multiset<Entry>)
    requires SiftUp(d, e, k, i, v, id, all) && i > 0 && v >= d[Father(i)]
    ensures SiftUp(d[i := d[Father(i)]], e[i := e[Father(i)]], k, Father(i), v, id, all)
  {
    var f, d1, e1 := Father(i), d[i := v], e[i := id];
    MoveUp(d1, k, i);
    SwapEntries(d1, e1, k, i, f);
    assert d[i := d[f]][f := v] == d1[i := d1[f]][f := d1[i]];
    assert e[i := e[f]][f := id] == e1[i := e1[f]][f := e1[i]];
  }

  lemma UpEnd(d: seq<int>, e: seq<int>, k: nat, i: nat, v: int, id: int, all: multiset<Entry>)
    requires SiftUp(d, e, k, i, v, id, all) && (i > 0 ==> v <= d[Father(i)])
    ensures Heap(d[i := v], k) && multiset(Entries(d[i := v], e[i := id], k)) == all
  {
  }

  ghost predicate SiftDown(d: seq<int>, e: seq<int>, k: nat, i: nat, v: int, id: int, rest: multiset<Entry>) {
    && i < k <= |d| == |e| && d[k - 1] == v && e[k - 1] == id
    && HeapBelow(d[i := v], k, i) && multiset(Entries(d[i := v], e[i := id], k)) == rest + multiset{Entry(v, id)}
  }

  lemma DownStart(d: seq<int>, e: seq<int>, k: nat)
    requires 0 < k <= |d| == |e| && Heap(d, k)
    ensures SiftDown(d, e, k, 0, d[k - 1], e[k - 1], multiset(Entries(d, e, k)) - multiset{Entry(d[0], e[0])})
    ensures multiset(Entries(d, e, k))
        == multiset(Entries(d, e, k)) - multiset{Entry(d[0], e[0])} + multiset{Entry(d[0], e[0])}
  {
    assert Entries(d, e, k)[0] == Entry(d[0], e[0]);
    TopReplaced(d, e, k);
  }

  lemma DownMove(d: seq<int>, e: seq<int>, k: nat, i: nat, c: nat, v: int, id: int, rest: multiset<Entry>)
    requires SiftDown(d, e, k, i, v, id, rest) && (c == 2 * i + 1 || c == 2 * i + 2) && c < k && d[c] >= v
    requires d[c] >= d[2 * i + 1] && (2 * i + 2 < k ==> d[c] >= d[2 * i + 2])
    ensures SiftDown(d[i := d[c]], e[i := e[c]], k, c, v, id, rest)
  {
    var d1, e1 := d[i := v], e[i := id];
    forall j {:trigger Father(j)} | 0 < j < k && Father(j) == i ensures d1[c] >= d1[j] { Sons(i, j); }
    Sons(i, c);
    MoveDown(d1, k, i, c);
    SwapEntries(d1, e1, k, i, c);
    assert d[i := d[c]][c := v] == d1[i := d1[c]][c := d1[i]];
    assert e[i := e[c]][c := id] == e1[i := e1[c]][c := e1[i]];
  }

  lemma DownEnd(d: seq<int>, e: seq<int>, k: nat, i: nat, v: int, id: int, rest: multiset<Entry>)
    requires SiftDown(d, e, k, i, v, id, rest)
    requires 2 * i + 1 < k ==> d[2 * i + 1] <= v && (2 * i + 2 < k ==> d[2 * i + 2] <= v)
    ensures Heap(d[i := v], k - 1) && multiset(Entries(d[i := v], e[i := id], k - 1)) == rest
    ensures d[k - 1] == v && e[k - 1] == id
  {
    var d1, e1 := d[i := v], e[i := id];
    forall j {:trigger Father(j)} | 0 < j < k - 1 ensures d1[Father(j)] >= d1[j] { Sons(i, j); }
    LastEntry(d1, e1, k);
    assert d1[k - 1] == v && e1[k - 1] == id;
    assert multiset(Entries(d1, e1, k - 1)) == rest + multiset{Entry(v, id)} - multiset{Entry(v, id)};
  }

  lemma LastEntry(d: seq<int>, e: seq<int>, k: nat)
    requires 0 < k <= |d| == |e|
    ensures multiset(Entries(d, e, k)) == multiset(Entries(d, e, k - 1)) + multiset{Entry(d[k - 1], e[k - 1])}
  {
    assert Entries(d, e, k) == Entries(d, e, k - 1) + [Entry(d[k - 1], e[k - 1])];
  }

  lemma SwapEntries(d: seq<int>, e: seq<int>, k: nat, i: nat, j: nat)
    requires k <= |d| == |e| && i < k && j < k
    ensures multiset(Entries(d[i := d[j]][j := d[i]], e[i := e[j]][j := e[i]], k)) == multiset(Entries(d, e, k))
  {
    var s := Entries(d, e, k);
    SwapMultiset(s, i, j);
    assert Entries(d[i := d[j]][j := d[i]], e[i := e[j]][j := e[i]], k) == s[i := s[j]][j := s[i]];
  }

  lemma TopReplaced(d: seq<int>, e: seq<int>, k: nat)
    requires 0 < k <= |d| == |e|
    ensures multiset(Entries(d[0 := d[k - 1]], e[0 := e[k - 1]], k))
        == multiset(Entries(d, e, k)) - multiset{Entry(d[0], e[0])} + multiset{Entry(d[k - 1], e[k - 1])}
  {
    var s := Entries(d, e, k);
    assert Entries(d[0 := d[k - 1]], e[0 := e[k - 1]], k) == s[0 := s[k - 1]];
  }
}
