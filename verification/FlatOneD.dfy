/**
 Exact nearest neighbours in one dimension: bisection in a sorted permutation, then expansion to both
 sides. Coordinates and distances are exact reals; infinity pads missing results.
 */
module FlatOneD {
  import opened Rows
  import opened Collections

  datatype Distance = Finite(d: real) | Infinite

  function Dist(xb: seq<real>, q: real, id: int): real
    requires 0 <= id < |xb|
  {
    if xb[id] <= q then q - xb[id] else xb[id] - q
  }

  /** Each index once, coordinates ascending. */
  ghost predicate SortedPermutation(xb: seq<real>, perm: seq<int>) {
    && |perm| == |xb|
    && (forall a :: 0 <= a < |perm| ==> 0 <= perm[a] < |xb|)
    && (forall a, b :: 0 <= a < b < |perm| ==> perm[a] != perm[b] && xb[perm[a]] <= xb[perm[b]])
  }

  /** `ids` are nearest neighbours of q, nearest first: nobody outside the list is nearer than anybody in it. */
  ghost predicate Nearest(xb: seq<real>, q: real, ids: seq<int>) {
    && (forall j :: 0 <= j < |ids| ==> 0 <= ids[j] < |xb|)
    && (forall i, j :: 0 <= i < j < |ids| ==> ids[i] != ids[j] && Dist(xb, q, ids[i]) <= Dist(xb, q, ids[j]))
    && (forall id, j {:trigger Dist(xb, q, id), ids[j]} ::
        0 <= id < |xb| && id !in ids && 0 <= j < |ids| ==> Dist(xb, q, ids[j]) <= Dist(xb, q, id))
  }

  /** What a query of k results promises: m = min(k, n) nearest neighbours with their distances, then padding. */
  ghost predicate Answer(xb: seq<real>, q: real, D: seq<Distance>, I: seq<int>) {
    && |D| == |I|
    && var m := if |I| < |xb| then |I| else |xb|;
       && Nearest(xb, q, I[..m])
       && (forall j :: 0 <= j < m ==> D[j] == Finite(Dist(xb, q, I[j])))
       && (forall j :: m <= j < |I| ==> I[j] == -1 && D[j] == Infinite)
  }

  // -------------------------------------------------------------------------
  // The window of positions taken so far
  // -------------------------------------------------------------------------

  /** The positions strictly between lo and hi were taken, nearest first; lo is the next to the left,
      hi the next to the right, neither nearer than anything taken. */
  ghost predicate Window(xb: seq<real>, perm: seq<int>, q: real, ids: seq<int>, lo: int, hi: int) {
    && SortedPermutation(xb, perm) && -1 <= lo < hi <= |perm| && |ids| == hi - lo - 1
    && (lo >= 0 ==> xb[perm[lo]] <= q) && (hi < |perm| ==> q <= xb[perm[hi]])
    && (forall j :: 0 <= j < |ids| ==> 0 <= ids[j] < |xb|)
    && (forall i, j :: 0 <= i < j < |ids| ==> Dist(xb, q, ids[i]) <= Dist(xb, q, ids[j]))
    && (forall i, j :: 0 <= i < j < |ids| ==> ids[i] != ids[j])
    && (forall a :: 0 <= a < |perm| ==> (perm[a] in ids <==> lo < a < hi))
    && (lo >= 0 ==> forall j :: 0 <= j < |ids| ==> Dist(xb, q, ids[j]) <= Dist(xb, q, perm[lo]))
    && (hi < |perm| ==> forall j :: 0 <= j < |ids| ==> Dist(xb, q, ids[j]) <= Dist(xb, q, perm[hi]))
  }

  lemma TakeLeft(xb: seq<real>, perm: seq<int>, q: real, ids: seq<int>, lo: int, hi: int)
    requires Window(xb, perm, q, ids, lo, hi) && lo >= 0
    requires hi < |perm| ==> Dist(xb, q, perm[lo]) <= Dist(xb, q, perm[hi])
    ensures Window(xb, perm, q, ids + [perm[lo]], lo - 1, hi)
    ensures q - xb[perm[lo]] == Dist(xb, q, perm[lo])
  {
    assert perm[lo] !in ids;
  }

  lemma TakeRight(xb: seq<real>, perm: seq<int>, q: real, ids: seq<int>, lo: int, hi: int)
    requires Window(xb, perm, q, ids, lo, hi) && hi < |perm|
    requires lo >= 0 ==> Dist(xb, q, perm[hi]) <= Dist(xb, q, perm[lo])
    ensures Window(xb, perm, q, ids + [perm[hi]], lo, hi + 1)
    ensures xb[perm[hi]] - q == Dist(xb, q, perm[hi])
  {
    assert perm[hi] !in ids;
  }

  /** A position outside the window is no nearer than the window's end on that side. */
  lemma WindowIsNearest(xb: seq<real>, perm: seq<int>, q: real, ids: seq<int>, lo: int, hi: int)
    requires Window(xb, perm, q, ids, lo, hi)
    ensures Nearest(xb, q, ids)
  {
    forall id, j | 0 <= id < |xb| && id !in ids && 0 <= j < |ids|
      ensures Dist(xb, q, ids[j]) <= Dist(xb, q, id)
    {
      var a := PositionOf(xb, perm, id);
      if a <= lo {
        assert xb[perm[a]] <= xb[perm[lo]];
      } else {
        assert xb[perm[hi]] <= xb[perm[a]];
      }
    }
  }

  /** Every index has a position. */
  lemma PositionOf(xb: seq<real>, perm: seq<int>, id: int) returns (a: int)
    requires SortedPermutation(xb, perm) && 0 <= id < |xb|
    ensures 0 <= a < |perm| && perm[a] == id
  {
    if forall b :: 0 <= b < |perm| ==> perm[b] != id {
      var used := set b | 0 <= b < |perm| :: perm[b];
      DistinctCount(perm, |perm|);
      Smaller(used, Upto(|xb|) - {id});
    }
    a :| 0 <= a < |perm| && perm[a] == id;
  }

  // -------------------------------------------------------------------------
  // The output block of one query
  // -------------------------------------------------------------------------

  /** The first |ids| results are written, nothing outside the block changed. */
  ghost predicate Written(xb: seq<real>, q: real, D0: seq<Distance>, I0: seq<int>, D: seq<Distance>, I: seq<int>,
      at: nat, k: nat, ids: seq<int>) {
    && |D| == |I| == |D0| == |I0| && at + k <= |I| && |ids| <= k
    && I[at..at + |ids|] == ids
    && (forall j :: 0 <= j < |ids| ==> 0 <= ids[j] < |xb|)
    && (forall j :: 0 <= j < |ids| ==> D[at + j] == Finite(Dist(xb, q, ids[j])))
    && (forall p :: 0 <= p < |I| && !(at <= p < at + k) ==> I[p] == I0[p] && D[p] == D0[p])
  }

  lemma WriteOne(xb: seq<real>, q: real, D0: seq<Distance>, I0: seq<int>, D: seq<Distance>, I: seq<int>, at: nat,
      k: nat, ids: seq<int>, id: int)
    requires Written(xb, q, D0, I0, D, I, at, k, ids) && |ids| < k && 0 <= id < |xb|
    ensures at + |ids| < |I|
    ensures Written(xb, q, D0, I0, D[at + |ids| := Finite(Dist(xb, q, id))], I[at + |ids| := id], at, k, ids + [id])
  {
    var I' := I[at + |ids| := id];
    assert I'[at..at + |ids| + 1] == I[at..at + |ids|] + [id];
    var D' := D[at + |ids| := Finite(Dist(xb, q, id))];
    forall j | 0 <= j < |ids| + 1 ensures D'[at + j] == Finite(Dist(xb, q, (ids + [id])[j])) {
      if j < |ids| { assert D[at + j] == Finite(Dist(xb, q, ids[j])); }
    }
  }

  /** A query's state after w results: |ids| found, the rest padding once both sides are used up. */
  ghost predicate Taking(xb: seq<real>, perm: seq<int>, q: real, D0: seq<Distance>, I0: seq<int>, D: seq<Distance>,
      I: seq<int>, at: nat, k: nat, ids: seq<int>, lo: int, hi: int, w: int) {
    && Window(xb, perm, q, ids, lo, hi) && Written(xb, q, D0, I0, D, I, at, k, ids)
    && |ids| <= w <= k && (w > |ids| ==> lo == -1 && hi == |perm|)
    && forall p {:trigger I[p]} :: at + |ids| <= p < at + w ==> I[p] == -1 && D[p] == Infinite
  }

  lemma TakingFacts(xb: seq<real>, perm: seq<int>, q: real, D0: seq<Distance>, I0: seq<int>, D: seq<Distance>,
      I: seq<int>, at: nat, k: nat, ids: seq<int>, lo: int, hi: int, w: int)
    requires Taking(xb, perm, q, D0, I0, D, I, at, k, ids, lo, hi, w)
    ensures |D| == |I| && at + k <= |I| && 0 <= w <= k && -1 <= lo < hi <= |perm| == |xb|
    ensures forall a :: 0 <= a < |perm| ==> 0 <= perm[a] < |xb|
  {
  }

  lemma StepLeft(xb: seq<real>, perm: seq<int>, q: real, D0: seq<Distance>, I0: seq<int>, D: seq<Distance>,
      I: seq<int>, at: nat, k: nat, ids: seq<int>, lo: int, hi: int, w: int)
    requires Taking(xb, perm, q, D0, I0, D, I, at, k, ids, lo, hi, w) && 0 <= lo < |perm| && w < k
    requires at + w < |D| == |I|
    requires 0 <= perm[lo] < |xb| && (0 <= hi < |perm| ==> 0 <= perm[hi] < |xb| && q - xb[perm[lo]] < xb[perm[hi]] - q)
    ensures Taking(xb, perm, q, D0, I0, D[at + w := Finite(q - xb[perm[lo]])], I[at + w := perm[lo]], at, k,
        ids + [perm[lo]], lo - 1, hi, w + 1)
  {
    TakeLeft(xb, perm, q, ids, lo, hi);
    WriteOne(xb, q, D0, I0, D, I, at, k, ids, perm[lo]);
  }

  lemma StepRight(xb: seq<real>, perm: seq<int>, q: real, D0: seq<Distance>, I0: seq<int>, D: seq<Distance>,
      I: seq<int>, at: nat, k: nat, ids: seq<int>, lo: int, hi: int, w: int)
    requires Taking(xb, perm, q, D0, I0, D, I, at, k, ids, lo, hi, w) && 0 <= hi < |perm| && w < k
    requires at + w < |D| == |I|
    requires 0 <= perm[hi] < |xb| && (0 <= lo < |perm| ==> 0 <= perm[lo] < |xb| && xb[perm[hi]] - q <= q - xb[perm[lo]])
    ensures Taking(xb, perm, q, D0, I0, D[at + w := Finite(xb[perm[hi]] - q)], I[at + w := perm[hi]], at, k,
        ids + [perm[hi]], lo, hi + 1, w + 1)
  {
    TakeRight(xb, perm, q, ids, lo, hi);
    WriteOne(xb, q, D0, I0, D, I, at, k, ids, perm[hi]);
  }

  lemma StepPad(xb: seq<real>, perm: seq<int>, q: real, D0: seq<Distance>, I0: seq<int>, D: seq<Distance>,
      I: seq<int>, at: nat, k: nat, ids: seq<int>, w: int)
    requires Taking(xb, perm, q, D0, I0, D, I, at, k, ids, -1, |perm|, w) && w < k && at + w < |D| == |I|
    ensures Taking(xb, perm, q, D0, I0, D[at + w := Infinite], I[at + w := -1], at, k, ids, -1, |perm|, w + 1)
  {
    var I', D' := I[at + w := -1], D[at + w := Infinite];
    assert I'[at..at + |ids|] == I[at..at + |ids|];
    assert Written(xb, q, D0, I0, D', I', at, k, ids) by {
      forall j | 0 <= j < |ids| ensures D'[at + j] == Finite(Dist(xb, q, ids[j])) {
        assert D[at + j] == Finite(Dist(xb, q, ids[j]));
      }
    }
    forall p | at + |ids| <= p < at + w + 1 ensures I'[p] == -1 && D'[p] == Infinite {
      if p < at + w { assert I[p] == -1; }
    }
  }

  lemma StartTaking(xb: seq<real>, perm: seq<int>, q: real, D: seq<Distance>, I: seq<int>, at: nat, k: nat, lo: int,
      hi: int)
    requires SortedPermutation(xb, perm) && -1 <= lo && hi == lo + 1 <= |perm| && at + k <= |D| == |I|
    requires (lo >= 0 ==> 0 <= perm[lo] < |xb| && xb[perm[lo]] <= q)
    requires (hi < |perm| ==> 0 <= perm[hi] < |xb| && q <= xb[perm[hi]])
    ensures Taking(xb, perm, q, D, I, D, I, at, k, [], lo, hi, 0)
  {
  }

  /** The block at `at` answers the query; nothing else changed. */
  ghost predicate Answered(xb: seq<real>, q: real, D0: seq<Distance>, I0: seq<int>, D: seq<Distance>, I: seq<int>,
      at: nat, k: nat) {
    && |D| == |I| == |D0| == |I0| && at + k <= |I|
    && Answer(xb, q, D[at..at + k], I[at..at + k])
    && (forall p :: 0 <= p < |I| && !(at <= p < at + k) ==> I[p] == I0[p] && D[p] == D0[p])
  }

  lemma Finished(xb: seq<real>, perm: seq<int>, q: real, D0: seq<Distance>, I0: seq<int>, D: seq<Distance>,
      I: seq<int>, at: nat, k: nat, ids: seq<int>, lo: int, hi: int)
    requires Taking(xb, perm, q, D0, I0, D, I, at, k, ids, lo, hi, k)
    ensures Answered(xb, q, D0, I0, D, I, at, k)
  {
    hide Nearest, Window, Written, Answer, Taking;
    TakingParts(xb, perm, q, D0, I0, D, I, at, k, ids, lo, hi);
    WindowIsNearest(xb, perm, q, ids, lo, hi);
    BlockIs(xb, q, D0, I0, D, I, at, k, ids);
    WrittenBlock(xb, q, D0, I0, D, I, at, k, ids);
  }

  lemma TakingParts(xb: seq<real>, perm: seq<int>, q: real, D0: seq<Distance>, I0: seq<int>, D: seq<Distance>,
      I: seq<int>, at: nat, k: nat, ids: seq<int>, lo: int, hi: int)
    requires Taking(xb, perm, q, D0, I0, D, I, at, k, ids, lo, hi, k)
    ensures Window(xb, perm, q, ids, lo, hi) && Written(xb, q, D0, I0, D, I, at, k, ids)
    ensures |ids| == k <= |xb| || |ids| == |xb| <= k
    ensures forall p {:trigger I[p]} :: at + |ids| <= p < at + k ==> I[p] == -1 && D[p] == Infinite
    ensures |D| == |I| && at + k <= |I|
  {
  }

  lemma WrittenBlock(xb: seq<real>, q: real, D0: seq<Distance>, I0: seq<int>, D: seq<Distance>, I: seq<int>, at: nat,
      k: nat, ids: seq<int>)
    requires Written(xb, q, D0, I0, D, I, at, k, ids)
    ensures |D| == |I| == |D0| == |I0| && at + k <= |I|
    ensures forall p :: 0 <= p < |I| && !(at <= p < at + k) ==> I[p] == I0[p] && D[p] == D0[p]
  {
  }

  lemma BlockIs(xb: seq<real>, q: real, D0: seq<Distance>, I0: seq<int>, D: seq<Distance>, I: seq<int>, at: nat,
      k: nat, ids: seq<int>)
    requires Written(xb, q, D0, I0, D, I, at, k, ids) && Nearest(xb, q, ids) && |D| == |I|
    requires (|ids| == k <= |xb| || |ids| == |xb| <= k)
    requires forall p {:trigger I[p]} :: at + |ids| <= p < at + k ==> p < |I| == |D| && I[p] == -1 && D[p] == Infinite
    ensures |D| == |I| && at + k <= |I|
    ensures Answer(xb, q, D[at..at + k], I[at..at + k])
  {
    hide Nearest, Dist;
    var D', I' := D[at..at + k], I[at..at + k];
    assert I'[..|ids|] == ids;
    forall j | 0 <= j < |ids| ensures D'[j] == Finite(Dist(xb, q, ids[j])) {
      assert D[at + j] == Finite(Dist(xb, q, ids[j]));
    }
    forall j | |ids| <= j < k ensures I'[j] == -1 && D'[j] == Infinite {
      assert I[at + j] == -1;
    }
  }

  // -------------------------------------------------------------------------
  // One query
  // -------------------------------------------------------------------------

  /** finish_right: the left side is used up, grow to the right from i1. */
  method FinishRight(xb: seq<real>, perm: seq<int>, q: real, k: nat, D: array<Distance>, I: array<int>, at: nat,
      i1: int, wp: int, ghost D0: seq<Distance>, ghost I0: seq<int>, ghost ids: seq<int>)
    requires Taking(xb, perm, q, D0, I0, D[..], I[..], at, k, ids, -1, i1, wp)
    modifies D, I
    ensures Answered(xb, q, D0, I0, D[..], I[..], at, k)
  {
    hide Taking, Answered;
    TakingFacts(xb, perm, q, D0, I0, D[..], I[..], at, k, ids, -1, i1, wp);
    var i, w := i1, wp;
    ghost var taken := ids;
    while w < k
      invariant 0 <= w <= k && 0 <= i <= |perm| && Taking(xb, perm, q, D0, I0, D[..], I[..], at, k, taken, -1, i, w)
    {
      if i < |perm| {
        StepRight(xb, perm, q, D0, I0, D[..], I[..], at, k, taken, -1, i, w);
        taken := taken + [perm[i]];
        D[at + w] := Finite(xb[perm[i]] - q);
        I[at + w] := perm[i];
        i := i + 1;
      } else {
        StepPad(xb, perm, q, D0, I0, D[..], I[..], at, k, taken, w);
        D[at + w] := Infinite;
        I[at + w] := -1;
      }
      w := w + 1;
    }
    Finished(xb, perm, q, D0, I0, D[..], I[..], at, k, taken, -1, i);
  }

  /** finish_left: the right side is used up, grow to the left from i0. */
  method FinishLeft(xb: seq<real>, perm: seq<int>, q: real, k: nat, D: array<Distance>, I: array<int>, at: nat,
      i0: int, wp: int, ghost D0: seq<Distance>, ghost I0: seq<int>, ghost ids: seq<int>)
    requires Taking(xb, perm, q, D0, I0, D[..], I[..], at, k, ids, i0, |perm|, wp)
    modifies D, I
    ensures Answered(xb, q, D0, I0, D[..], I[..], at, k)
  {
    hide Taking, Answered;
    TakingFacts(xb, perm, q, D0, I0, D[..], I[..], at, k, ids, i0, |perm|, wp);
    var i, w := i0, wp;
    ghost var taken := ids;
    while w < k
      invariant 0 <= w <= k && -1 <= i < |perm| && Taking(xb, perm, q, D0, I0, D[..], I[..], at, k, taken, i, |perm|, w)
    {
      if i >= 0 {
        StepLeft(xb, perm, q, D0, I0, D[..], I[..], at, k, taken, i, |perm|, w);
        taken := taken + [perm[i]];
        D[at + w] := Finite(q - xb[perm[i]]);
        I[at + w] := perm[i];
        i := i - 1;
      } else {
        StepPad(xb, perm, q, D0, I0, D[..], I[..], at, k, taken, w);
        D[at + w] := Infinite;
        I[at + w] := -1;
      }
      w := w + 1;
    }
    Finished(xb, perm, q, D0, I0, D[..], I[..], at, k, taken, i, |perm|);
  }

  /** The position of the last coordinate not beyond q. */
  method Bisect(xb: seq<real>, perm: seq<int>, q: real) returns (i0: int, i1: int)
    requires SortedPermutation(xb, perm) && |perm| > 0 && xb[perm[0]] <= q < xb[perm[|perm| - 1]]
    ensures 0 <= i0 && i1 == i0 + 1 < |perm| && xb[perm[i0]] <= q < xb[perm[i1]]
  {
    i0, i1 := 0, |perm|;
    while i0 + 1 < i1
      invariant 0 <= i0 < i1 <= |perm| && xb[perm[i0]] <= q && (i1 < |perm| ==> q < xb[perm[i1]])
      decreases i1 - i0
    {
      var imed := (i0 + i1) / 2;
      if xb[perm[imed]] <= q { i0 := imed; } else { i1 := imed; }
    }
  }

  /** Expand to both sides until k results are written or a side is used up. */
  method Expand(xb: seq<real>, perm: seq<int>, q: real, k: nat, D: array<Distance>, I: array<int>, at: nat, lo: int,
      hi: int, ghost D0: seq<Distance>, ghost I0: seq<int>)
    requires Taking(xb, perm, q, D0, I0, D[..], I[..], at, k, [], lo, hi, 0) && 0 <= lo && hi < |perm|
    modifies D, I
    ensures Answered(xb, q, D0, I0, D[..], I[..], at, k)
  {
    hide Taking, Answered;
    TakingFacts(xb, perm, q, D0, I0, D[..], I[..], at, k, [], lo, hi, 0);
    var i0, i1, wp := lo, hi, 0;
    ghost var taken: seq<int> := [];
    while wp < k
      invariant 0 <= wp <= k && 0 <= i0 < i1 < |perm|
      invariant Taking(xb, perm, q, D0, I0, D[..], I[..], at, k, taken, i0, i1, wp)
    {
      var xleft, xright := xb[perm[i0]], xb[perm[i1]];
      if q - xleft < xright - q {
        StepLeft(xb, perm, q, D0, I0, D[..], I[..], at, k, taken, i0, i1, wp);
        taken := taken + [perm[i0]];
        D[at + wp] := Finite(q - xleft);
        I[at + wp] := perm[i0];
        i0 := i0 - 1;
        wp := wp + 1;
        if i0 < 0 {
          FinishRight(xb, perm, q, k, D, I, at, i1, wp, D0, I0, taken);
          return;
        }
      } else {
        StepRight(xb, perm, q, D0, I0, D[..], I[..], at, k, taken, i0, i1, wp);
        taken := taken + [perm[i1]];
        D[at + wp] := Finite(xright - q);
        I[at + wp] := perm[i1];
        i1 := i1 + 1;
        wp := wp + 1;
        if i1 >= |perm| {
          FinishLeft(xb, perm, q, k, D, I, at, i0, wp, D0, I0, taken);
          return;
        }
      }
    }
    Finished(xb, perm, q, D0, I0, D[..], I[..], at, k, taken, i0, i1);
  }

  /** No points at all. */
  method PadAll(xb: seq<real>, perm: seq<int>, q: real, k: nat, D: array<Distance>, I: array<int>, at: nat)
    requires xb == [] && SortedPermutation(xb, perm) && D.Length == I.Length && at + k <= I.Length
    modifies D, I
    ensures Answered(xb, q, old(D[..]), old(I[..]), D[..], I[..], at, k)
  {
    hide Taking, Answered, SortedPermutation;
    InRange(xb, perm);
    ghost var D0, I0 := D[..], I[..];
    StartTaking(xb, perm, q, D0, I0, at, k, -1, 0);
    for j := 0 to k
      invariant Taking(xb, perm, q, D0, I0, D[..], I[..], at, k, [], -1, 0, j)
    {
      StepPad(xb, perm, q, D0, I0, D[..], I[..], at, k, [], j);
      I[at + j] := -1;
      D[at + j] := Infinite;
    }
    Finished(xb, perm, q, D0, I0, D[..], I[..], at, k, [], -1, 0);
  }

  lemma InRange(xb: seq<real>, perm: seq<int>)
    requires SortedPermutation(xb, perm)
    ensures |perm| == |xb| && forall a :: 0 <= a < |perm| ==> 0 <= perm[a] < |xb|
  {
  }

  method SearchOne(xb: seq<real>, perm: seq<int>, q: real, k: nat, D: array<Distance>, I: array<int>, at: nat)
    requires SortedPermutation(xb, perm) && D.Length == I.Length && at + k <= I.Length
    modifies D, I
    ensures Answered(xb, q, old(D[..]), old(I[..]), D[..], I[..], at, k)
  {
    hide Taking, Answered;
    ghost var D0, I0 := D[..], I[..];
    if |xb| == 0 {
      PadAll(xb, perm, q, k, D, I, at);
    } else if xb[perm[0]] > q {
      StartTaking(xb, perm, q, D0, I0, at, k, -1, 0);
      FinishRight(xb, perm, q, k, D, I, at, 0, 0, D0, I0, []);
    } else if xb[perm[|perm| - 1]] <= q {
      StartTaking(xb, perm, q, D0, I0, at, k, |perm| - 1, |perm|);
      FinishLeft(xb, perm, q, k, D, I, at, |perm| - 1, 0, D0, I0, []);
    } else {
      var i0, i1 := Bisect(xb, perm, q);
      StartTaking(xb, perm, q, D0, I0, at, k, i0, i1);
      Expand(xb, perm, q, k, D, I, at, i0, i1, D0, I0);
    }
  }

  // -------------------------------------------------------------------------
  // All queries
  // -------------------------------------------------------------------------

  ghost predicate RowAnswered(xb: seq<real>, q: real, D: seq<Distance>, I: seq<int>, i: nat, k: nat) {
    Row(i, k) + k <= |D| == |I| && Answer(xb, q, D[Row(i, k)..Row(i, k) + k], I[Row(i, k)..Row(i, k) + k])
  }

  lemma BlockKept(D0: seq<Distance>, I0: seq<int>, D: seq<Distance>, I: seq<int>, a: nat, b: nat, k: nat)
    requires a + k <= b && a + k <= |D| == |I| == |D0| == |I0|
    requires forall p :: 0 <= p < |I| && !(b <= p < b + k) ==> I[p] == I0[p] && D[p] == D0[p]
    ensures D[a..a + k] == D0[a..a + k] && I[a..a + k] == I0[a..a + k]
  {
    forall p | a <= p < a + k ensures I[p] == I0[p] && D[p] == D0[p] {}
  }

  lemma RowKept(xb: seq<real>, q: real, D0: seq<Distance>, I0: seq<int>, D: seq<Distance>, I: seq<int>, i: nat,
      j: nat, k: nat)
    requires i < j && RowAnswered(xb, q, D0, I0, i, k)
    requires |D| == |I| == |D0| == |I0|
    requires forall p :: 0 <= p < |I| && !(Row(j, k) <= p < Row(j, k) + k) ==> I[p] == I0[p] && D[p] == D0[p]
    ensures RowAnswered(xb, q, D, I, i, k)
  {
    RowsAscend(i + 1, j, k);
    RowNext(i, j, k);
    hide Answer, Row;
    BlockKept(D0, I0, D, I, Row(i, k), Row(j, k), k);
  }

  /** MAIN: every query gets min(k, n) exact nearest neighbours, ascending, then padding. Throws unless
      k > 0 and the permutation covers all points. */
  method Search(xb: seq<real>, perm: seq<int>, x: seq<real>, k: nat, D: array<Distance>, I: array<int>)
    returns (ok: bool)
    requires |perm| == |xb| ==> SortedPermutation(xb, perm)
    requires D.Length == I.Length == Row(|x|, k)
    modifies D, I
    ensures ok <==> k > 0 && |perm| == |xb|
    ensures !ok ==> D[..] == old(D[..]) && I[..] == old(I[..])
    ensures ok ==> forall i :: 0 <= i < |x| ==> RowAnswered(xb, x[i], D[..], I[..], i, k)
  {
    if !(k > 0) { return false; }
    if !(|perm| == |xb|) { return false; }
    hide RowAnswered, Row, SortedPermutation;
    var at := 0;
    RowStart(k);
    for i := 0 to |x|
      invariant at == Row(i, k)
      invariant forall j :: 0 <= j < i ==> RowAnswered(xb, x[j], D[..], I[..], j, k)
    {
      RowNext(i, |x|, k);
      ghost var D0, I0 := D[..], I[..];
      SearchOne(xb, perm, x[i], k, D, I, at);
      RowDone(xb, x, D0, I0, D[..], I[..], i, k);
      at := at + k;
    }
    ok := true;
  }

  lemma RowAnsweredNow(xb: seq<real>, q: real, D0: seq<Distance>, I0: seq<int>, D: seq<Distance>, I: seq<int>, i: nat,
      k: nat)
    requires Answered(xb, q, D0, I0, D, I, Row(i, k), k)
    ensures RowAnswered(xb, q, D, I, i, k)
  {
  }

  lemma RowDone(xb: seq<real>, x: seq<real>, D0: seq<Distance>, I0: seq<int>, D: seq<Distance>, I: seq<int>, i: nat,
      k: nat)
    requires i < |x| && Answered(xb, x[i], D0, I0, D, I, Row(i, k), k)
    requires forall j :: 0 <= j < i ==> RowAnswered(xb, x[j], D0, I0, j, k)
    ensures forall j :: 0 <= j <= i ==> RowAnswered(xb, x[j], D, I, j, k)
  {
    hide Answer, RowAnswered;
    RowAnsweredNow(xb, x[i], D0, I0, D, I, i, k);
    forall j | 0 <= j < i ensures RowAnswered(xb, x[j], D, I, j, k) {
      RowKept(xb, x[j], D0, I0, D, I, j, i, k);
    }
  }
}
