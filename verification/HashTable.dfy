/**
 The int64 -> int64 hash table over a flat array: slot s keeps its key at 2*s and its value at
 2*s + 1, key -1 marks a free slot. The slots are cut into buckets of equal width; a key is probed
 for from its hash onwards, wrapping round inside its own bucket.
 */
module HashTables {
  import opened Buckets
  import opened BucketSort
  import opened BucketSortParallel
  import opened Bits
  import opened Collections

  /** nb buckets of `width` slots; `raw` is the hash function before masking. */
  datatype Layout = Layout(nb: nat, width: nat, raw: int -> int) {
    function Capacity(): nat { nb * width }
    predicate Ok() { nb > 0 && width > 0 && Capacity() > 0 }

    /** First slot of bucket b. */
    function First(b: nat): nat { b * width }

    /** Masking keeps the low bits, also of a negative hash. */
    function Home(k: int): nat
      requires Ok()
    {
      raw(k) % Capacity()
    }

    function BucketOf(k: int): nat
      requires Ok()
    {
      Home(k) / width
    }

    function Lo(k: int): nat
      requires Ok()
    {
      First(BucketOf(k))
    }
  }

  function Log2NBucket(logCapacity: nat): (r: nat)
    ensures r <= logCapacity
  {
    if logCapacity < 12 then 0 else if logCapacity < 20 then logCapacity - 12 else 10
  }

  function LayoutOf(logCapacity: nat, raw: int -> int): Layout {
    var b := Log2NBucket(logCapacity);
    Layout(Pow2(b), Pow2(logCapacity - b), raw)
  }

  lemma LayoutCapacity(logCapacity: nat, raw: int -> int)
    ensures LayoutOf(logCapacity, raw).Ok() && LayoutOf(logCapacity, raw).Capacity() == Pow2(logCapacity)
  {
    Pow2Sum(Log2NBucket(logCapacity), logCapacity - Log2NBucket(logCapacity));
  }

  lemma HomeInBucket(L: Layout, k: int)
    requires L.Ok()
    ensures L.BucketOf(k) < L.nb
    ensures L.Lo(k) <= L.Home(k) < L.Lo(k) + L.width <= L.Capacity()
  {
    var h, w := L.Home(k), L.width;
    var b := h / w;
    assert h == b * w + h % w;
    if b >= L.nb { Scaled(L.nb, b, w); }
    Scaled(b + 1, L.nb, w);
  }

  lemma Scaled(a: nat, b: nat, w: nat)
    requires a <= b
    ensures a * w <= b * w
  {
    assert b * w == a * w + (b - a) * w;
  }

  lemma BucketsApart(L: Layout, a: nat, b: nat)
    requires a < b
    ensures L.First(a) + L.width <= L.First(b)
  {
    Scaled(a + 1, b, L.width);
  }

  // -------------------------------------------------------------------------
  // The table as a map
  // -------------------------------------------------------------------------

  /** Steps from slot h to slot q, wrapping at lo + width. */
  function Dist(width: nat, h: nat, q: nat): int {
    if q >= h then q - h else q - h + width
  }

  ghost predicate SlotOk(L: Layout, ks: seq<int>, s: nat)
    requires L.Ok() && |ks| == L.Capacity() && s < |ks|
  {
    ks[s] != -1 ==>
      var k := ks[s];
      && L.Lo(k) <= s < L.Lo(k) + L.width
      && PathFull(ks, L.Lo(k), L.width, L.Home(k), s)
  }

  /** No free slot between h and s on the probe path. */
  ghost predicate PathFull(ks: seq<int>, lo: nat, width: nat, h: nat, s: nat) {
    forall q: nat {:trigger ks[q]} :: lo <= q < lo + width && q < |ks| && Dist(width, h, q) < Dist(width, h, s) ==> ks[q] != -1
  }

  /** ks, vs hold map m: each key once, inside its bucket, reachable by probing. */
  ghost predicate Holds(L: Layout, ks: seq<int>, vs: seq<int>, m: map<int, int>) {
    && L.Ok() && |ks| == |vs| == L.Capacity() && -1 !in m
    && (forall s: nat {:trigger ks[s]} ::
        s < |ks| ==> SlotOk(L, ks, s) && if ks[s] == -1 then vs[s] == -1 else ks[s] in m && m[ks[s]] == vs[s])
    && (forall s, u {:trigger ks[s], ks[u]} :: 0 <= s < u < |ks| && ks[s] == ks[u] ==> ks[s] == -1)
    && (forall k {:trigger k in m} :: k in m ==> k in ks)
  }

  function Keys(tab: seq<int>, n: nat): seq<int>
    requires |tab| == 2 * n
  {
    seq(n, s requires 0 <= s < n => tab[2 * s])
  }

  function Values(tab: seq<int>, n: nat): seq<int>
    requires |tab| == 2 * n
  {
    seq(n, s requires 0 <= s < n => tab[2 * s + 1])
  }

  /** The flat array holds m. */
  ghost predicate Table(L: Layout, tab: seq<int>, m: map<int, int>) {
    |tab| == 2 * L.Capacity() && Holds(L, Keys(tab, L.Capacity()), Values(tab, L.Capacity()), m)
  }

  /** The region where k would go is full, and k is not in it. */
  ghost predicate FullOfOthers(L: Layout, ks: seq<int>, k: int)
    requires L.Ok()
  {
    forall q: nat {:trigger ks[q]} :: L.Lo(k) <= q < L.Lo(k) + L.width && q < |ks| ==> ks[q] != -1 && ks[q] != k
  }

  /** Probing found a free slot: k is nowhere in the table, and storing it there keeps the invariant. */
  lemma StoreFree(L: Layout, ks: seq<int>, vs: seq<int>, m: map<int, int>, k: int, v: int, p: nat)
    requires Holds(L, ks, vs, m) && k != -1 && p < |ks| && ks[p] == -1
    requires L.Lo(k) <= p < L.Lo(k) + L.width
    requires PathFull(ks, L.Lo(k), L.width, L.Home(k), p)
    requires forall q: nat {:trigger ks[q]} ::
        L.Lo(k) <= q < L.Lo(k) + L.width && q < |ks| && Dist(L.width, L.Home(k), q) < Dist(L.width, L.Home(k), p) ==>
          ks[q] != k
    ensures Holds(L, ks[p := k], vs[p := v], m[k := v])
    ensures k !in m
  {
    HomeInBucket(L, k);
    Absent(L, ks, vs, m, k, p);
    var ks', vs', m' := ks[p := k], vs[p := v], m[k := v];
    forall s: nat | s < |ks'|
      ensures SlotOk(L, ks', s) && if ks'[s] == -1 then vs'[s] == -1 else ks'[s] in m' && m'[ks'[s]] == vs'[s]
    {
      assert SlotOk(L, ks, s);
    }
    forall x | x in m' ensures x in ks' {
      if x == k {
        assert ks'[p] == k;
      } else {
        var s :| 0 <= s < |ks| && ks[s] == x;
        assert ks'[s] == x;
      }
    }
  }

  lemma Absent(L: Layout, ks: seq<int>, vs: seq<int>, m: map<int, int>, k: int, p: nat)
    requires Holds(L, ks, vs, m) && k != -1 && p < |ks| && ks[p] == -1
    requires L.Lo(k) <= p < L.Lo(k) + L.width
    requires forall q: nat {:trigger ks[q]} ::
        L.Lo(k) <= q < L.Lo(k) + L.width && q < |ks| && Dist(L.width, L.Home(k), q) < Dist(L.width, L.Home(k), p) ==>
          ks[q] != k
    ensures k !in ks && k !in m
  {
    HomeInBucket(L, k);
    forall s: nat | s < |ks| ensures ks[s] != k {
      assert SlotOk(L, ks, s);
    }
  }

  /** Probing found k itself. */
  lemma Overwrite(L: Layout, ks: seq<int>, vs: seq<int>, m: map<int, int>, k: int, v: int, p: nat)
    requires Holds(L, ks, vs, m) && k != -1 && p < |ks| && ks[p] == k
    ensures Holds(L, ks, vs[p := v], m[k := v])
  {
    forall s: nat | s < |ks|
      ensures SlotOk(L, ks, s)
      ensures if ks[s] == -1 then vs[p := v][s] == -1 else ks[s] in m[k := v] && m[k := v][ks[s]] == vs[p := v][s]
    {
      assert SlotOk(L, ks, s);
    }
    assert k in m;
  }

  /** A lookup that starts at a free slot, or that finds nothing in the whole region, misses. */
  lemma Missing(L: Layout, ks: seq<int>, vs: seq<int>, m: map<int, int>, k: int)
    requires Holds(L, ks, vs, m) && k != -1
    requires L.Home(k) < |ks| && (ks[L.Home(k)] == -1 || forall q: nat {:trigger ks[q]} :: L.Lo(k) <= q < L.Lo(k) + L.width && q < |ks| ==> ks[q] != k)
    ensures k !in m
  {
    HomeInBucket(L, k);
    forall s: nat | s < |ks| ensures ks[s] != k {
      assert SlotOk(L, ks, s);
    }
  }

  // -------------------------------------------------------------------------
  // Init and lookup
  // -------------------------------------------------------------------------

  lemma NothingHeld(L: Layout, ks: seq<int>, vs: seq<int>)
    requires L.Ok() && |ks| == |vs| == L.Capacity()
    requires forall s: nat {:trigger ks[s]} :: s < |ks| ==> ks[s] == -1 && vs[s] == -1
    ensures Holds(L, ks, vs, map[])
  {
    var m: map<int, int> := map[];
    forall s: nat | s < |ks|
      ensures SlotOk(L, ks, s) && if ks[s] == -1 then vs[s] == -1 else ks[s] in m && m[ks[s]] == vs[s]
    {
      assert ks[s] == -1 && vs[s] == -1;
    }
    forall s, u | 0 <= s < u < |ks| && ks[s] == ks[u] ensures ks[s] == -1 {
      assert ks[s] == -1;
    }
  }

  method Init(L: Layout, tab: array<int>)
    requires L.Ok() && tab.Length == 2 * L.Capacity()
    modifies tab
    ensures Table(L, tab[..], map[])
  {
    var n := L.Capacity();
    for i := 0 to n
      invariant forall s :: 0 <= s < 2 * i ==> tab[s] == -1
    {
      tab[2 * i] := -1;
      tab[2 * i + 1] := -1;
    }
    ghost var ks, vs := Keys(tab[..], n), Values(tab[..], n);
    assert forall s: nat {:trigger ks[s]} :: s < n ==> ks[s] == -1 && vs[s] == -1;
    NothingHeld(L, ks, vs);
  }

  method LookupOne(L: Layout, tab: array<int>, k: int, ghost m: map<int, int>) returns (v: int)
    requires Table(L, tab[..], m)
    ensures v == if k in m then m[k] else -1
  {
    ghost var n := L.Capacity();
    ghost var ks, vs := Keys(tab[..], n), Values(tab[..], n);
    HomeInBucket(L, k);
    var h := L.Home(k);
    var slot := h;
    assert ks[slot] == tab[2 * slot] && vs[slot] == tab[2 * slot + 1];
    if tab[2 * slot] == -1 {
      if k != -1 { Missing(L, ks, vs, m, k); }
      return -1;
    }
    if tab[2 * slot] == k {
      return tab[2 * slot + 1];
    }
    var lo := L.Lo(k);
    while true
      invariant lo <= slot < lo + L.width
      invariant forall q: nat {:trigger ks[q]} ::
          lo <= q < lo + L.width && Dist(L.width, h, q) < Dist(L.width, h, slot) ==> ks[q] != k
      decreases L.width - Dist(L.width, h, slot)
    {
      assert ks[slot] == tab[2 * slot] && vs[slot] == tab[2 * slot + 1];
      if tab[2 * slot] == k {
        return tab[2 * slot + 1];
      }
      ghost var before := slot;
      slot := slot + 1;
      if slot == lo + L.width { slot := lo; }
      if slot == h {
        assert Dist(L.width, h, before) == L.width - 1;
        if k != -1 { Missing(L, ks, vs, m, k); }
        return -1;
      }
    }
  }

  method Lookup(L: Layout, tab: array<int>, keys: seq<int>, vals: array<int>, ghost m: map<int, int>)
    requires Table(L, tab[..], m) && vals.Length == |keys| && vals != tab
    modifies vals
    ensures forall i :: 0 <= i < |keys| ==> vals[i] == if keys[i] in m then m[keys[i]] else -1
  {
    for i := 0 to |keys|
      invariant forall j :: 0 <= j < i ==> vals[j] == if keys[j] in m then m[keys[j]] else -1
      invariant Table(L, tab[..], m)
    {
      var v := LookupOne(L, tab, keys[i], m);
      vals[i] := v;
    }
  }

  // -------------------------------------------------------------------------
  // Adding one key
  // -------------------------------------------------------------------------

  lemma WriteSlot(tab: seq<int>, n: nat, s: nat, k: int, v: int)
    requires |tab| == 2 * n && s < n
    ensures var t := tab[2 * s := k][2 * s + 1 := v];
            Keys(t, n) == Keys(tab, n)[s := k] && Values(t, n) == Values(tab, n)[s := v]
  {
  }

  /** Slots outside k's region stay as they are. */
  ghost predicate SameOutside(L: Layout, k: int, ks: seq<int>, ks': seq<int>)
    requires L.Ok()
  {
    && |ks| == |ks'|
    && forall q: nat {:trigger ks'[q]} :: q < |ks| && !(L.Lo(k) <= q < L.Lo(k) + L.width) ==> ks'[q] == ks[q]
  }

  lemma TableOk(L: Layout, tab: seq<int>, m: map<int, int>)
    requires Table(L, tab, m)
    ensures L.Ok() && |tab| == 2 * L.Capacity()
  {
  }

  lemma WentRound(L: Layout, ks: seq<int>, k: int, last: nat)
    requires L.Ok() && |ks| == L.Capacity() && L.Lo(k) <= last < L.Lo(k) + L.width
    requires Dist(L.width, L.Home(k), last) == L.width - 1
    requires last < |ks| && ks[last] != k && ks[last] != -1
    requires forall q: nat {:trigger ks[q]} ::
        L.Lo(k) <= q < L.Lo(k) + L.width && q < |ks| && Dist(L.width, L.Home(k), q) < Dist(L.width, L.Home(k), last) ==>
          ks[q] != k && ks[q] != -1
    ensures FullOfOthers(L, ks, k)
  {
    HomeInBucket(L, k);
    forall q: nat | L.Lo(k) <= q < L.Lo(k) + L.width && q < |ks| ensures ks[q] != -1 && ks[q] != k {
      assert q == last || Dist(L.width, L.Home(k), q) < Dist(L.width, L.Home(k), last);
    }
  }

  method AddOne(L: Layout, tab: array<int>, k: int, v: int, ghost m: map<int, int>) returns (full: bool)
    requires Table(L, tab[..], m) && k != -1
    modifies tab
    ensures Table(L, tab[..], if full then m else m[k := v])
    ensures full ==> tab[..] == old(tab[..]) && FullOfOthers(L, Keys(tab[..], L.Capacity()), k)
    ensures SameOutside(L, k, Keys(old(tab[..]), L.Capacity()), Keys(tab[..], L.Capacity()))
  {
    hide Holds, FullOfOthers;
    ghost var n, t := L.Capacity(), tab[..];
    TableOk(L, t, m);
    ghost var ks, vs := Keys(t, n), Values(t, n);
    HomeInBucket(L, k);
    var h, lo := L.Home(k), L.Lo(k);
    var slot := h;
    while true
      invariant lo <= slot < lo + L.width
      invariant tab[..] == t
      invariant forall q: nat {:trigger ks[q]} ::
          lo <= q < lo + L.width && Dist(L.width, h, q) < Dist(L.width, h, slot) ==> ks[q] != k && ks[q] != -1
      decreases L.width - Dist(L.width, h, slot)
    {
      assert ks[slot] == tab[2 * slot] && vs[slot] == tab[2 * slot + 1];
      if tab[2 * slot] == -1 {
        tab[2 * slot] := k;
        tab[2 * slot + 1] := v;
        WriteSlot(t, n, slot, k, v);
        assert tab[..] == t[2 * slot := k][2 * slot + 1 := v];
        StoreFree(L, ks, vs, m, k, v, slot);
        return false;
      } else if tab[2 * slot] == k {
        tab[2 * slot + 1] := v;
        WriteSlot(t, n, slot, k, v);
        assert tab[..] == t[2 * slot := k][2 * slot + 1 := v];
        assert ks[slot := k] == ks;
        Overwrite(L, ks, vs, m, k, v, slot);
        return false;
      }
      ghost var before := slot;
      slot := slot + 1;
      if slot == lo + L.width { slot := lo; }
      if slot == h {
        WentRound(L, ks, k, before);
        return true;
      }
    }
  }

  // -------------------------------------------------------------------------
  // Adding a batch
  // -------------------------------------------------------------------------

  /** The map after the first i entries in the order of perm. */
  function PutAll(m: map<int, int>, keys: seq<int>, vals: seq<int>, perm: seq<int>, i: nat): map<int, int>
    requires |keys| == |vals| && i <= |perm| && forall p :: 0 <= p < |perm| ==> 0 <= perm[p] < |keys|
  {
    if i == 0 then m else PutAll(m, keys, vals, perm, i - 1)[keys[perm[i - 1]] := vals[perm[i - 1]]]
  }

  /** Some entries of the batch were put, nothing else changed. */
  ghost predicate Partly(m: map<int, int>, m': map<int, int>, keys: seq<int>, vals: seq<int>)
    requires |keys| == |vals|
  {
    && (forall k {:trigger k in m'} :: k in m ==> k in m')
    && (forall k {:trigger m'[k]} ::
        k in m' ==> (k in m && m'[k] == m[k]) || exists j :: 0 <= j < |keys| && keys[j] == k && vals[j] == m'[k])
  }

  lemma PartlyStep(m: map<int, int>, m': map<int, int>, keys: seq<int>, vals: seq<int>, j: nat)
    requires |keys| == |vals| && Partly(m, m', keys, vals) && j < |keys|
    ensures Partly(m, m'[keys[j] := vals[j]], keys, vals)
  {
  }

  /** Where a batch stands: the entries before position i were dealt with, all of them put unless
      some bucket overflowed; `culprit` is then an entry whose region is full. */
  ghost predicate Dealt(L: Layout, tab: seq<int>, m: map<int, int>, m': map<int, int>, keys: seq<int>, vals: seq<int>,
      perm: seq<int>, i: nat, failed: bool, culprit: nat)
    requires |keys| == |vals| && forall p :: 0 <= p < |perm| ==> 0 <= perm[p] < |keys|
  {
    && Table(L, tab, m') && Partly(m, m', keys, vals) && i <= |perm|
    && (!failed ==> m' == PutAll(m, keys, vals, perm, i))
    && (failed ==> culprit < |keys| && FullOfOthers(L, Keys(tab, L.Capacity()), keys[culprit]))
  }

  /** Writing into one bucket leaves a full region in another bucket as it is. */
  lemma StaysFull(L: Layout, ks: seq<int>, ks': seq<int>, k: int, other: int)
    requires L.Ok() && |ks| == |ks'| == L.Capacity() && SameOutside(L, k, ks, ks')
    requires FullOfOthers(L, ks, other) && L.BucketOf(other) != L.BucketOf(k)
    ensures FullOfOthers(L, ks', other)
  {
    var a, b := L.BucketOf(k), L.BucketOf(other);
    if a < b { BucketsApart(L, a, b); } else { BucketsApart(L, b, a); }
    forall q: nat | L.Lo(other) <= q < L.Lo(other) + L.width && q < |ks'| ensures ks'[q] != -1 && ks'[q] != other {
      assert ks'[q] == ks[q];
    }
  }

  /** Entries lo..hi of perm are those of one bucket. An earlier overflow seen by the same thread
      stops it after one entry, an overflow here at once. */
  method AddBucket(L: Layout, tab: array<int>, bucket: nat, keys: seq<int>, vals: seq<int>, perm: seq<int>, lo: nat,
      hi: nat, errors: nat, ghost m: map<int, int>, ghost before: map<int, int>, ghost failed: bool, ghost culprit: nat)
    returns (errors': nat, ghost m': map<int, int>, ghost failed': bool, ghost culprit': nat)
    requires |keys| == |vals| && forall p :: 0 <= p < |perm| ==> 0 <= perm[p] < |keys|
    requires forall j :: 0 <= j < |keys| ==> keys[j] != -1
    requires lo <= hi <= |perm| && L.Ok() && tab.Length == 2 * L.Capacity()
    requires forall p {:trigger perm[p]} :: lo <= p < hi ==> L.BucketOf(keys[perm[p]]) == bucket
    requires Dealt(L, tab[..], m, before, keys, vals, perm, lo, failed, culprit)
    requires (errors > 0 ==> failed) && (failed ==> L.BucketOf(keys[culprit]) < bucket)
    modifies tab
    ensures Dealt(L, tab[..], m, m', keys, vals, perm, hi, failed', culprit')
    ensures (failed' <==> failed || errors' > 0) && errors' >= errors
    ensures failed' ==> L.BucketOf(keys[culprit']) <= bucket
  {
    hide Table, Partly, FullOfOthers;
    errors', m', failed', culprit' := errors, before, failed, culprit;
    var i := lo;
    while i < hi
      invariant lo <= i <= hi
      invariant Dealt(L, tab[..], m, m', keys, vals, perm, i, failed', culprit')
      invariant failed' == failed && culprit' == culprit && errors' == errors
    {
      var j := perm[i];
      ghost var t := tab[..];
      var full := AddOne(L, tab, keys[j], vals[j], m');
      if !full {
        PartlyStep(m, m', keys, vals, j);
        m' := m'[keys[j] := vals[j]];
      }
      if failed {
        StaysFull(L, Keys(t, L.Capacity()), Keys(tab[..], L.Capacity()), keys[j], keys[culprit]);
      }
      if full {
        errors' := errors' + 1;
        failed', culprit' := true, j;
      }
      i := i + 1;
      if errors' > 0 {
        return;
      }
    }
  }

  /** `num_errors == 0` after the reduction over the threads. */
  method NoErrors(errs: array<nat>) returns (ok: bool)
    ensures ok <==> !Failing(errs[..])
  {
    var total := 0;
    for t := 0 to errs.Length
      invariant total >= 0 && (total == 0 <==> forall u :: 0 <= u < t ==> errs[u] == 0)
    {
      total := total + errs[t];
    }
    ok := total == 0;
  }

  function BucketNos(L: Layout, keys: seq<int>): seq<nat>
    requires L.Ok()
  {
    seq(|keys|, j requires 0 <= j < |keys| => L.BucketOf(keys[j]))
  }

  lemma EntriesOfBucket(L: Layout, keys: seq<int>, order: seq<nat>, lims: seq<int>, perm: seq<int>, b: nat)
    requires L.Ok() && b < L.nb && Sorted(BucketNos(L, keys), L.nb, order, lims, perm)
    ensures 0 <= lims[b] <= lims[b + 1] <= |perm|
    ensures forall p {:trigger perm[p]} ::
        lims[b] <= p < lims[b + 1] ==> 0 <= perm[p] < |keys| && L.BucketOf(keys[perm[p]]) == b
  {
    var nos := BucketNos(L, keys);
    SortedBucket(nos, L.nb, order, lims, perm, b);
    PickMembers(nos, order, b);
    var pick := Pick(nos, order, b);
    assert lims[b] == Start(nos, b) && lims[b + 1] == Start(nos, b + 1);
    forall p | lims[b] <= p < lims[b + 1] ensures 0 <= perm[p] < |keys| && L.BucketOf(keys[perm[p]]) == b {
      assert perm[p] == pick[p - lims[b]];
      assert pick[p - lims[b]] in pick;
    }
  }

  // -------------------------------------------------------------------------
  // When a batch fits
  // -------------------------------------------------------------------------

  function KeySet(keys: seq<int>): set<int> {
    set j | 0 <= j < |keys| :: keys[j]
  }

  function InBucket(L: Layout, keys: set<int>, b: nat): set<int>
    requires L.Ok()
  {
    set k | k in keys && L.BucketOf(k) == b
  }

  /** No bucket is home to more keys than it has slots. */
  ghost predicate Room(L: Layout, keys: set<int>) {
    L.Ok() && forall b: nat {:trigger InBucket(L, keys, b)} :: b < L.nb ==> |InBucket(L, keys, b)| <= L.width
  }

  function Range(ks: seq<int>, lo: nat, hi: nat): set<int>
    requires lo <= hi <= |ks|
  {
    set s | lo <= s < hi :: ks[s]
  }

  lemma {:induction false} RangeSize(ks: seq<int>, lo: nat, hi: nat)
    requires lo <= hi <= |ks|
    ensures |Range(ks, lo, hi)| <= hi - lo
    ensures (forall s, u {:trigger ks[s], ks[u]} :: lo <= s < u < hi ==> ks[s] != ks[u]) ==>
        |Range(ks, lo, hi)| == hi - lo
    decreases hi
  {
    if lo < hi {
      RangeSize(ks, lo, hi - 1);
      assert Range(ks, lo, hi) == Range(ks, lo, hi - 1) + {ks[hi - 1]};
    }
  }

  lemma HeldFits(L: Layout, ks: seq<int>, vs: seq<int>, m: map<int, int>, b: nat)
    requires Holds(L, ks, vs, m) && b < L.nb
    ensures |InBucket(L, m.Keys, b)| <= L.width
  {
    Scaled(b + 1, L.nb, L.width);
    var lo, hi := L.First(b), L.First(b) + L.width;
    forall k | k in InBucket(L, m.Keys, b) ensures k in Range(ks, lo, hi) {
      assert k in m;
      var s: nat :| s < |ks| && ks[s] == k;
      assert SlotOk(L, ks, s);
    }
    RangeSize(ks, lo, hi);
    Smaller(InBucket(L, m.Keys, b), Range(ks, lo, hi));
  }

  lemma SlotBucket(L: Layout, ks: seq<int>, s: nat, b: nat)
    requires L.Ok() && |ks| == L.Capacity() && s < |ks| && SlotOk(L, ks, s) && ks[s] != -1
    requires L.First(b) <= s < L.First(b) + L.width
    ensures L.BucketOf(ks[s]) == b
  {
    var c := L.BucketOf(ks[s]);
    if c < b { BucketsApart(L, c, b); }
    if b < c { BucketsApart(L, b, c); }
  }

  lemma FullOverflows(L: Layout, ks: seq<int>, vs: seq<int>, m: map<int, int>, k: int, keys: set<int>)
    requires Holds(L, ks, vs, m) && k != -1 && FullOfOthers(L, ks, k)
    requires m.Keys <= keys && k in keys
    ensures !Room(L, keys)
  {
    HomeInBucket(L, k);
    var b := L.BucketOf(k);
    var lo, hi := L.First(b), L.First(b) + L.width;
    var region := Range(ks, lo, hi);
    forall s, u | lo <= s < u < hi ensures ks[s] != ks[u] { assert ks[s] != -1; }
    RangeSize(ks, lo, hi);
    forall x | x in region ensures x in InBucket(L, keys, b) && x != k {
      var s: nat :| lo <= s < hi && ks[s] == x;
      SlotBucket(L, ks, s, b);
      assert x in m;
    }
    assert |region + {k}| == L.width + 1;
    Smaller(region + {k}, InBucket(L, keys, b));
  }

  // -------------------------------------------------------------------------
  // The same in terms of the hashes
  // -------------------------------------------------------------------------

  /** Slots of one bucket and number of buckets: a table below 4096 slots is one bucket, larger ones are cut
      into buckets of 4096 slots, up to 1024 of them. */
  ghost predicate Cut(logCapacity: nat, nb: nat, width: nat) {
    && nb * width == Pow2(logCapacity)
    && (logCapacity < 12 ==> nb == 1)
    && (12 <= logCapacity < 20 ==> width == 4096)
    && (20 <= logCapacity ==> nb == 1024)
  }

  /** The low logCapacity bits of a key's hash. */
  function LowHash(logCapacity: nat, raw: int -> int, k: int): int {
    raw(k) % Pow2(logCapacity)
  }

  /** The keys whose hash, cut to logCapacity bits, lies in [lo, hi). */
  ghost function HashedInto(logCapacity: nat, raw: int -> int, keys: set<int>, lo: int, hi: int): set<int> {
    set k | k in keys && lo <= LowHash(logCapacity, raw, k) < hi
  }

  /** For the cut that the table uses, no bucket's range of hashes has more keys than slots. */
  ghost predicate HashesFit(logCapacity: nat, raw: int -> int, keys: set<int>) {
    exists nb: nat, width: nat {:trigger Cut(logCapacity, nb, width)} ::
      && Cut(logCapacity, nb, width)
      && forall b: nat {:trigger InRange(logCapacity, raw, keys, b, width)} ::
           b < nb ==> |InRange(logCapacity, raw, keys, b, width)| <= width
  }

  ghost function InRange(logCapacity: nat, raw: int -> int, keys: set<int>, b: nat, width: nat): set<int> {
    HashedInto(logCapacity, raw, keys, b * width, b * width + width)
  }

  lemma LayoutCut(logCapacity: nat, raw: int -> int)
    ensures var L := LayoutOf(logCapacity, raw); L.Ok() && L.raw == raw && Cut(logCapacity, L.nb, L.width)
  {
    LayoutCapacity(logCapacity, raw);
    if 12 <= logCapacity < 20 { Pow2Twelve(); }
    if 20 <= logCapacity { Pow2Twelve(); }
  }

  lemma Pow2Twelve()
    ensures Pow2(0) == 1 && Pow2(10) == 1024 && Pow2(12) == 4096
  {
    assert Pow2(5) == 32;
    assert Pow2(10) == 1024;
  }

  lemma CutIsUnique(logCapacity: nat, nb: nat, width: nat, nb': nat, width': nat)
    requires Cut(logCapacity, nb, width) && Cut(logCapacity, nb', width')
    ensures nb == nb' && width == width'
  {
    if 20 <= logCapacity { assert 1024 * width == 1024 * width'; }
    if 12 <= logCapacity < 20 { assert nb * 4096 == nb' * 4096; }
  }

  lemma BucketByHash(logCapacity: nat, raw: int -> int, keys: set<int>, b: nat)
    requires b < LayoutOf(logCapacity, raw).nb
    ensures var L := LayoutOf(logCapacity, raw);
            L.Ok() && InBucket(L, keys, b) == InRange(logCapacity, raw, keys, b, L.width)
  {
    var L := LayoutOf(logCapacity, raw);
    LayoutCapacity(logCapacity, raw);
    var lo := b * L.width;
    forall k ensures L.BucketOf(k) == b <==> lo <= LowHash(logCapacity, raw, k) < lo + L.width {
      assert L.Home(k) == LowHash(logCapacity, raw, k);
      SameQuotient(L.Home(k), b, L.width);
    }
  }

  lemma SameQuotient(h: nat, b: nat, w: nat)
    requires w > 0
    ensures h / w == b <==> b * w <= h < b * w + w
  {
    assert h == h / w * w + h % w;
    if h / w < b { Scaled(h / w + 1, b, w); }
    if h / w > b { Scaled(b + 1, h / w, w); }
  }

  /** MAIN: there is room for a set of keys exactly when their hashes fit the buckets. */
  lemma RoomByHashes(logCapacity: nat, raw: int -> int, keys: set<int>)
    ensures Room(LayoutOf(logCapacity, raw), keys) <==> HashesFit(logCapacity, raw, keys)
  {
    var L := LayoutOf(logCapacity, raw);
    LayoutCut(logCapacity, raw);
    hide LayoutOf, InBucket, InRange, Cut;
    forall b: nat | b < L.nb ensures InBucket(L, keys, b) == InRange(logCapacity, raw, keys, b, L.width) {
      BucketByHash(logCapacity, raw, keys, b);
    }
    if HashesFit(logCapacity, raw, keys) {
      var nb: nat, width: nat :| Cut(logCapacity, nb, width)
        && forall b: nat :: b < nb ==> |InRange(logCapacity, raw, keys, b, width)| <= width;
      CutIsUnique(logCapacity, nb, width, L.nb, L.width);
      assert Room(L, keys);
    }
  }

  /** Keys whose hashes differ in the low bits always fit. */
  lemma DifferentHashesFit(logCapacity: nat, raw: int -> int, keys: set<int>)
    requires forall j, k ::
      j in keys && k in keys && j != k ==> LowHash(logCapacity, raw, j) != LowHash(logCapacity, raw, k)
    ensures HashesFit(logCapacity, raw, keys)
  {
    hide LowHash, HashedInto, Cut, LayoutOf;
    var L := LayoutOf(logCapacity, raw);
    LayoutCut(logCapacity, raw);
    forall b: nat | b < L.nb ensures |InRange(logCapacity, raw, keys, b, L.width)| <= L.width {
      FewHashes(logCapacity, raw, keys, b * L.width, b * L.width + L.width);
    }
  }

  lemma {:induction false} FewHashes(logCapacity: nat, raw: int -> int, keys: set<int>, lo: nat, hi: nat)
    requires lo <= hi
    requires forall j, k ::
      j in keys && k in keys && j != k ==> LowHash(logCapacity, raw, j) != LowHash(logCapacity, raw, k)
    ensures |HashedInto(logCapacity, raw, keys, lo, hi)| <= hi - lo
    decreases hi - lo
  {
    hide LowHash;
    var all := HashedInto(logCapacity, raw, keys, lo, hi);
    if lo == hi {
      assert all == {};
    } else {
      var rest := HashedInto(logCapacity, raw, keys, lo, hi - 1);
      FewHashes(logCapacity, raw, keys, lo, hi - 1);
      if k :| k in all && LowHash(logCapacity, raw, k) == hi - 1 {
        assert all == rest + {k};
      } else {
        assert all == rest;
      }
    }
  }

  // -------------------------------------------------------------------------
  // The batch as a whole
  // -------------------------------------------------------------------------

  /** MAIN: a batch is refused exactly when some bucket is home to more keys than it has slots, then
      some key's region is full of other keys. Otherwise the table holds the old map with the
      entries put in the order of perm, a bucket sort of the batch. Either way the table stays a
      table and no key outside the batch changes. `threads` says which thread does which bucket. */
  method Add(logCapacity: nat, raw: int -> int, tab: array<int>, keys: seq<int>, vals: seq<int>, nt: nat,
      threads: seq<nat>, ghost m: map<int, int>)
    returns (ok: bool, order: seq<nat>, lims: seq<int>, perm: seq<int>, ghost m': map<int, int>)
    requires Table(LayoutOf(logCapacity, raw), tab[..], m) && |keys| == |vals| && nt > 0
    requires forall j :: 0 <= j < |keys| ==> keys[j] != -1
    requires |threads| == LayoutOf(logCapacity, raw).nb && forall b :: 0 <= b < |threads| ==> threads[b] < nt
    modifies tab
    ensures var L := LayoutOf(logCapacity, raw);
            && Table(L, tab[..], m') && Partly(m, m', keys, vals)
            && (ok <==> HashesFit(logCapacity, raw, m.Keys + KeySet(keys)))
            && (!ok ==> exists j :: 0 <= j < |keys| && FullOfOthers(L, Keys(tab[..], L.Capacity()), keys[j]))
    ensures BatchOrder(LayoutOf(logCapacity, raw), keys, nt, order, lims, perm)
    ensures ok ==> m' == PutAll(m, keys, vals, perm, |perm|)
  {
    var L := LayoutOf(logCapacity, raw);
    hide Holds, Partly, FullOfOthers, Room, HashesFit, PutAll, LayoutOf, BatchOrder;
    TableOk(L, tab[..], m);
    order, lims, perm := SortBatch(L, keys, nt);
    Limits(L, keys, nt, order, lims, perm);
    ghost var failed, culprit: nat;
    ok, m', failed, culprit := AddBuckets(L, tab, keys, vals, nt, threads, order, lims, perm, m);
    RoomByHashes(logCapacity, raw, m.Keys + KeySet(keys));
    if ok {
      AllPut(m, keys, vals, perm);
      Fits(L, tab[..], m', m.Keys + KeySet(keys));
    } else {
      assert keys[culprit] in KeySet(keys);
      PartlyKeys(m, m', keys, vals);
      FullOverflows(L, Keys(tab[..], L.Capacity()), Values(tab[..], L.Capacity()), m', keys[culprit],
          m.Keys + KeySet(keys));
    }
  }

  method SortBatch(L: Layout, keys: seq<int>, nt: nat) returns (order: seq<nat>, lims: seq<int>, perm: seq<int>)
    requires L.Ok() && nt > 0
    ensures BatchOrder(L, keys, nt, order, lims, perm)
  {
    hide BatchOrder, Sorted, Partition, Entered, Cuts, Visit, BucketNos;
    var nos := BucketNos(L, keys);
    BucketNosInRange(L, keys);
    var l, p := new int[L.nb + 1], new int[|keys|];
    order := BucketSortParallel.BucketSortParallel(nos, L.nb, l, p, nt);
    lims, perm := l[..], p[..];
    EntriesInRange(L, keys, nt, order, lims, perm);
  }

  ghost predicate BatchOrder(L: Layout, keys: seq<int>, nt: nat, order: seq<nat>, lims: seq<int>, perm: seq<int>) {
    && L.Ok() && nt > 0 && Entered(order, nt) && |order| == nt && Partition(|keys|, Cuts(|keys|, nt))
    && Sorted(BucketNos(L, keys), L.nb, Visit(|keys|, Cuts(|keys|, nt), order), lims, perm)
    && (forall j :: 0 <= j < |keys| ==> L.BucketOf(keys[j]) < L.nb)
    && (forall p :: 0 <= p < |perm| ==> 0 <= perm[p] < |keys|)
    && (forall j :: 0 <= j < |keys| ==> j in perm)
  }

  lemma BucketNosInRange(L: Layout, keys: seq<int>)
    requires L.Ok()
    ensures |BucketNos(L, keys)| == |keys|
    ensures forall j :: 0 <= j < |keys| ==> BucketNos(L, keys)[j] == L.BucketOf(keys[j]) < L.nb
  {
    forall j | 0 <= j < |keys| ensures L.BucketOf(keys[j]) < L.nb { HomeInBucket(L, keys[j]); }
  }

  lemma EntriesInRange(L: Layout, keys: seq<int>, nt: nat, order: seq<nat>, lims: seq<int>, perm: seq<int>)
    requires L.Ok() && nt > 0 && Entered(order, nt) && |order| == nt && Partition(|keys|, Cuts(|keys|, nt))
    requires Sorted(BucketNos(L, keys), L.nb, Visit(|keys|, Cuts(|keys|, nt), order), lims, perm)
    requires forall j :: 0 <= j < |keys| ==> L.BucketOf(keys[j]) < L.nb
    ensures BatchOrder(L, keys, nt, order, lims, perm)
  {
    var nos, visit := BucketNos(L, keys), Visit(|keys|, Cuts(|keys|, nt), order);
    VisitIsPermutation(|keys|, Cuts(|keys|, nt), order);
    forall j | 0 <= j < |keys| ensures j in perm {
      SortedIsPermutation(nos, L.nb, visit, lims, perm, j);
      IotaCount(0, |keys|, j);
    }
    forall p | 0 <= p < |perm| ensures 0 <= perm[p] < |keys| {
      var b := PositionBucket(nos, L.nb, p);
      EntriesOfBucket(L, keys, visit, lims, perm, b);
    }
  }

  lemma {:induction false} PutKeys(m: map<int, int>, keys: seq<int>, vals: seq<int>, perm: seq<int>, i: nat, j: nat)
    requires |keys| == |vals| && i <= |perm| && forall p :: 0 <= p < |perm| ==> 0 <= perm[p] < |keys|
    ensures m.Keys <= PutAll(m, keys, vals, perm, i).Keys
    ensures j < i ==> keys[perm[j]] in PutAll(m, keys, vals, perm, i)
  {
    if i > 0 { PutKeys(m, keys, vals, perm, i - 1, j); }
  }

  lemma AllPut(m: map<int, int>, keys: seq<int>, vals: seq<int>, perm: seq<int>)
    requires |keys| == |vals| && forall p :: 0 <= p < |perm| ==> 0 <= perm[p] < |keys|
    requires forall j :: 0 <= j < |keys| ==> j in perm
    ensures m.Keys + KeySet(keys) <= PutAll(m, keys, vals, perm, |perm|).Keys
  {
    PutKeys(m, keys, vals, perm, |perm|, 0);
    forall j | 0 <= j < |keys| ensures keys[j] in PutAll(m, keys, vals, perm, |perm|) {
      assert j in perm;
      var p :| 0 <= p < |perm| && perm[p] == j;
      PutKeys(m, keys, vals, perm, |perm|, p);
    }
  }

  lemma PartlyKeys(m: map<int, int>, m': map<int, int>, keys: seq<int>, vals: seq<int>)
    requires |keys| == |vals| && Partly(m, m', keys, vals)
    ensures m'.Keys <= m.Keys + KeySet(keys)
  {
    forall k | k in m' ensures k in m.Keys + KeySet(keys) { assert m'[k] == m'[k]; }
  }

  lemma Fits(L: Layout, tab: seq<int>, m: map<int, int>, keys: set<int>)
    requires Table(L, tab, m) && keys <= m.Keys
    ensures Room(L, keys)
  {
    forall b: nat | b < L.nb ensures |InBucket(L, keys, b)| <= L.width {
      HeldFits(L, Keys(tab, L.Capacity()), Values(tab, L.Capacity()), m, b);
      Smaller(InBucket(L, keys, b), InBucket(L, m.Keys, b));
    }
  }

  method AddBuckets(L: Layout, tab: array<int>, keys: seq<int>, vals: seq<int>, nt: nat, threads: seq<nat>,
      order: seq<nat>, lims: seq<int>, perm: seq<int>, ghost m: map<int, int>)
    returns (ok: bool, ghost m': map<int, int>, ghost failed: bool, ghost culprit: nat)
    requires Table(L, tab[..], m) && |keys| == |vals| && nt > 0
    requires forall j :: 0 <= j < |keys| ==> keys[j] != -1
    requires |threads| == L.nb && forall b :: 0 <= b < |threads| ==> threads[b] < nt
    requires BatchOrder(L, keys, nt, order, lims, perm)
    modifies tab
    ensures Dealt(L, tab[..], m, m', keys, vals, perm, |perm|, failed, culprit) && ok == !failed
  {
    hide Table, BatchOrder, Partly, FullOfOthers, PutAll;
    var errs := new nat[nt](_ => 0);
    m', failed, culprit := m, false, 0;
    TableOk(L, tab[..], m);
    Limits(L, keys, nt, order, lims, perm);
    NothingPut(m, keys, vals, perm);
    for b := 0 to L.nb
      invariant fresh(errs)
      invariant 0 <= lims[b] <= |perm| && Dealt(L, tab[..], m, m', keys, vals, perm, lims[b], failed, culprit)
      invariant failed ==> L.BucketOf(keys[culprit]) < b
      invariant failed <==> Failing(errs[..])
    {
      BucketSlice(L, keys, nt, order, lims, perm, b);
      var t := threads[b];
      var errors;
      ghost var before := errs[..];
      errors, m', failed, culprit := AddBucket(L, tab, b, keys, vals, perm, lims[b], lims[b + 1], errs[t], m, m',
          failed, culprit);
      errs[t] := errors;
      StillFailing(before, t, errors);
      assert errs[..] == before[t := errors];
    }
    ok := NoErrors(errs);
  }

  /** Some thread has seen an overflow. */
  ghost predicate Failing(errs: seq<nat>) {
    exists t :: 0 <= t < |errs| && errs[t] > 0
  }

  lemma StillFailing(errs: seq<nat>, t: nat, errors: nat)
    requires t < |errs| && errors >= errs[t]
    ensures Failing(errs[t := errors]) <==> Failing(errs) || errors > 0
  {
    var errs' := errs[t := errors];
    if Failing(errs) {
      var u :| 0 <= u < |errs| && errs[u] > 0;
      assert errs'[u] > 0;
    }
    if errors > 0 { assert errs'[t] > 0; }
  }

  lemma NothingPut(m: map<int, int>, keys: seq<int>, vals: seq<int>, perm: seq<int>)
    requires |keys| == |vals| && forall p :: 0 <= p < |perm| ==> 0 <= perm[p] < |keys|
    ensures Partly(m, m, keys, vals) && PutAll(m, keys, vals, perm, 0) == m
  {
  }

  lemma Limits(L: Layout, keys: seq<int>, nt: nat, order: seq<nat>, lims: seq<int>, perm: seq<int>)
    requires BatchOrder(L, keys, nt, order, lims, perm)
    ensures L.Ok() && |lims| == L.nb + 1 && lims[0] == 0 && lims[L.nb] == |perm|
    ensures forall p :: 0 <= p < |perm| ==> 0 <= perm[p] < |keys|
    ensures forall j :: 0 <= j < |keys| ==> j in perm
  {
  }

  lemma BucketSlice(L: Layout, keys: seq<int>, nt: nat, order: seq<nat>, lims: seq<int>, perm: seq<int>, b: nat)
    requires BatchOrder(L, keys, nt, order, lims, perm) && b < L.nb
    ensures |lims| == L.nb + 1 && 0 <= lims[b] <= lims[b + 1] <= |perm|
    ensures forall p {:trigger perm[p]} ::
        lims[b] <= p < lims[b + 1] ==> 0 <= perm[p] < |keys| && L.BucketOf(keys[perm[p]]) == b
  {
    EntriesOfBucket(L, keys, Visit(|keys|, Cuts(|keys|, nt), order), lims, perm, b);
  }

  // -------------------------------------------------------------------------
  // Any sequence of batches
  // -------------------------------------------------------------------------

  /** A batch, and the order its entries were put in. */
  datatype Batch = Batch(keys: seq<int>, vals: seq<int>, perm: seq<int>) {
    ghost predicate Ok() {
      && |keys| == |vals|
      && (forall p :: 0 <= p < |perm| ==> 0 <= perm[p] < |keys|)
      && (forall j :: 0 <= j < |keys| ==> j in perm)
    }
  }

  /** The batch gives k the value v; for a key it lists once, there is only one such v. */
  ghost predicate Gives(keys: seq<int>, vals: seq<int>, k: int, v: int) {
    exists j :: 0 <= j < |keys| && j < |vals| && keys[j] == k && vals[j] == v
  }

  lemma {:induction false} PutGives(m: map<int, int>, b: Batch, i: nat, k: int)
    requires b.Ok() && i <= |b.perm|
    ensures var m' := PutAll(m, b.keys, b.vals, b.perm, i);
            if exists p :: 0 <= p < i && b.keys[b.perm[p]] == k then k in m' && Gives(b.keys, b.vals, k, m'[k])
            else (k in m' <==> k in m) && (k in m ==> m'[k] == m[k])
  {
    if i > 0 {
      PutGives(m, b, i - 1, k);
      var j := b.perm[i - 1];
      if b.keys[j] == k { assert Gives(b.keys, b.vals, k, b.vals[j]); }
    }
  }

  lemma GivesOnce(keys: seq<int>, vals: seq<int>, j: nat, v: int)
    requires |keys| == |vals| && j < |keys| && Gives(keys, vals, keys[j], v)
    requires forall i :: 0 <= i < |keys| && i != j ==> keys[i] != keys[j]
    ensures v == vals[j]
  {
  }

  ghost predicate AllOk(batches: seq<Batch>) {
    forall b {:trigger batches[b]} :: 0 <= b < |batches| ==> batches[b].Ok()
  }

  /** The map after a run of successful batches. */
  ghost function After(batches: seq<Batch>): map<int, int>
    requires AllOk(batches)
  {
    if batches == [] then map[]
    else
      var last := batches[|batches| - 1];
      PutAll(After(batches[..|batches| - 1]), last.keys, last.vals, last.perm, |last.perm|)
  }

  /** MAIN: a key has a value the last batch with that key gives it, whatever order each batch was put
      in; it is absent exactly when no batch contains it. */
  lemma {:induction false} LastBatchWins(batches: seq<Batch>, k: int)
    requires AllOk(batches)
    ensures k in After(batches) <==> exists b :: 0 <= b < |batches| && k in batches[b].keys
    ensures forall b ::
        0 <= b < |batches| && k in batches[b].keys && (forall c :: b < c < |batches| ==> k !in batches[c].keys) ==>
          k in After(batches) && Gives(batches[b].keys, batches[b].vals, k, After(batches)[k])
  {
    if batches != [] {
      hide After, PutAll, Gives, Batch.Ok;
      var n := |batches| - 1;
      var rest, last := batches[..n], batches[n];
      LastBatchWins(rest, k);
      OneMoreBatch(batches, k);
      if k !in last.keys {
        forall b | 0 <= b < |batches| && k in batches[b].keys ensures b < n && rest[b] == batches[b] {}
      }
    }
  }

  /** The last batch decides for the keys it lists and leaves the others alone. */
  lemma OneMoreBatch(batches: seq<Batch>, k: int)
    requires batches != [] && AllOk(batches)
    ensures var before, after := After(batches[..|batches| - 1]), After(batches);
            var last := batches[|batches| - 1];
            if k in last.keys then k in after && Gives(last.keys, last.vals, k, after[k])
            else (k in after <==> k in before) && (k in before ==> after[k] == before[k])
  {
    hide PutAll, Gives;
    var last := batches[|batches| - 1];
    assert last.Ok();
    PutGives(After(batches[..|batches| - 1]), last, |last.perm|, k);
    if k in last.keys {
      var j :| 0 <= j < |last.keys| && last.keys[j] == k;
      assert j in last.perm;
      var p :| 0 <= p < |last.perm| && last.perm[p] == j;
      assert last.keys[last.perm[p]] == k;
    } else {
      forall p | 0 <= p < |last.perm| ensures last.keys[last.perm[p]] != k {
        assert last.keys[last.perm[p]] in last.keys;
      }
    }
  }

  // -------------------------------------------------------------------------
  // Batches on the array
  // -------------------------------------------------------------------------

  /** The arguments of one Add. */
  datatype Entries = Entries(keys: seq<int>, vals: seq<int>) {
    ghost predicate Ok() {
      |keys| == |vals| && forall j :: 0 <= j < |keys| ==> keys[j] != -1
    }
  }

  ghost function AllKeys(adds: seq<Entries>): set<int> {
    if adds == [] then {} else AllKeys(adds[..|adds| - 1]) + KeySet(adds[|adds| - 1].keys)
  }

  /** Batch a is the last one with key k. */
  ghost predicate LastWith(adds: seq<Entries>, k: int, a: int) {
    0 <= a < |adds| && k in adds[a].keys && forall c :: a < c < |adds| ==> k !in adds[c].keys
  }

  /** v is what a lookup of k must give: a value the last batch with that key gives it, or -1. */
  ghost predicate LastValue(adds: seq<Entries>, k: int, v: int) {
    && (forall a :: LastWith(adds, k, a) ==> Gives(adds[a].keys, adds[a].vals, k, v))
    && ((forall a :: 0 <= a < |adds| ==> k !in adds[a].keys) ==> v == -1)
  }

  /** `put` are the batches `adds`, with the orders they were put in. */
  ghost predicate PutAs(adds: seq<Entries>, put: seq<Batch>) {
    && |put| == |adds| && AllOk(put)
    && forall a {:trigger adds[a]} {:trigger put[a]} ::
         0 <= a < |adds| ==> adds[a].Ok() && put[a].keys == adds[a].keys && put[a].vals == adds[a].vals
  }

  lemma RoomForFewer(L: Layout, some: set<int>, all: set<int>)
    requires some <= all && Room(L, all)
    ensures Room(L, some)
  {
    forall b: nat | b < L.nb ensures |InBucket(L, some, b)| <= L.width {
      Smaller(InBucket(L, some, b), InBucket(L, all, b));
    }
  }

  lemma {:induction false} FewerKeys(adds: seq<Entries>, i: nat)
    requires i <= |adds|
    ensures AllKeys(adds[..i]) <= AllKeys(adds)
    decreases |adds|
  {
    if i < |adds| {
      var front := adds[..|adds| - 1];
      assert front[..i] == adds[..i];
      FewerKeys(front, i);
    } else {
      assert adds[..i] == adds;
    }
  }

  lemma AllKeysNext(adds: seq<Entries>, i: nat)
    requires i < |adds|
    ensures AllKeys(adds[..i + 1]) == AllKeys(adds[..i]) + KeySet(adds[i].keys)
  {
    assert adds[..i + 1][..i] == adds[..i];
  }

  lemma PutOne(L: Layout, m: map<int, int>, m': map<int, int>, adds: seq<Entries>, put: seq<Batch>, i: nat, nt: nat,
      order: seq<nat>, lims: seq<int>, perm: seq<int>)
    requires i < |adds| && adds[i].Ok() && PutAs(adds[..i], put) && m == After(put) && m.Keys == AllKeys(adds[..i])
    requires BatchOrder(L, adds[i].keys, nt, order, lims, perm)
    requires Partly(m, m', adds[i].keys, adds[i].vals) && m' == PutAll(m, adds[i].keys, adds[i].vals, perm, |perm|)
    ensures var put' := put + [Batch(adds[i].keys, adds[i].vals, perm)];
            PutAs(adds[..i + 1], put') && m' == After(put') && m'.Keys == AllKeys(adds[..i + 1])
  {
    hide PutAll, Partly, BatchOrder;
    Limits(L, adds[i].keys, nt, order, lims, perm);
    var last := Batch(adds[i].keys, adds[i].vals, perm);
    assert last.Ok();
    var put' := put + [last];
    assert put'[..|put'| - 1] == put;
    forall a | 0 <= a < |put'| ensures put'[a].Ok() {
      if a < i { assert put'[a] == put[a]; }
    }
    AllPut(m, adds[i].keys, adds[i].vals, perm);
    PartlyKeys(m, m', adds[i].keys, adds[i].vals);
    AllKeysNext(adds, i);
  }

  lemma AfterGivesLast(adds: seq<Entries>, put: seq<Batch>, k: int)
    requires PutAs(adds, put)
    ensures LastValue(adds, k, if k in After(put) then After(put)[k] else -1)
  {
    hide After, Gives;
    LastBatchWins(put, k);
    var v := if k in After(put) then After(put)[k] else -1;
    forall a | LastWith(adds, k, a) ensures Gives(adds[a].keys, adds[a].vals, k, v) {
      assert k in put[a].keys;
      forall c | a < c < |put| ensures k !in put[c].keys { assert put[c].keys == adds[c].keys; }
    }
    if k in After(put) {
      var b :| 0 <= b < |put| && k in put[b].keys;
      assert k in adds[b].keys;
    }
  }

  /** MAIN: a new table takes a sequence of batches exactly when no bucket is home to more of all their
      keys than it has slots; then every lookup gives a value the last batch
      with that key gives it, or -1. */
  method AddThenLookup(logCapacity: nat, raw: int -> int, tab: array<int>, adds: seq<Entries>, nt: nat,
      threads: seq<nat>, keys: seq<int>, vals: array<int>)
    returns (ok: bool)
    requires LayoutOf(logCapacity, raw).Ok() && tab.Length == 2 * LayoutOf(logCapacity, raw).Capacity() && nt > 0
    requires forall a {:trigger adds[a]} :: 0 <= a < |adds| ==> adds[a].Ok()
    requires |threads| == LayoutOf(logCapacity, raw).nb && forall b :: 0 <= b < |threads| ==> threads[b] < nt
    requires vals.Length == |keys| && vals != tab
    modifies tab, vals
    ensures ok <==> HashesFit(logCapacity, raw, AllKeys(adds))
    ensures ok ==> forall i :: 0 <= i < |keys| ==> LastValue(adds, keys[i], vals[i])
  {
    hide LayoutOf, Table, Room, HashesFit, After, LastValue, Partly, PutAll, BatchOrder, AllKeys, Entries.Ok,
        FullOfOthers;
    ghost var L := LayoutOf(logCapacity, raw);
    ghost var m: map<int, int> := map[];
    ghost var put: seq<Batch> := [];
    Init(LayoutOf(logCapacity, raw), tab);
    NoBatches(adds);
    for i := 0 to |adds|
      invariant Table(L, tab[..], m)
      invariant PutAs(adds[..i], put) && m == After(put) && m.Keys == AllKeys(adds[..i])
    {
      var order, lims, perm;
      ghost var m';
      EntriesOk(adds[i]);
      ok, order, lims, perm, m' := Add(logCapacity, raw, tab, adds[i].keys, adds[i].vals, nt, threads, m);
      if !ok {
        AllKeysNext(adds, i);
        FewerKeys(adds, i + 1);
        RoomByHashes(logCapacity, raw, AllKeys(adds));
        RoomByHashes(logCapacity, raw, AllKeys(adds[..i + 1]));
        if Room(L, AllKeys(adds)) { RoomForFewer(L, AllKeys(adds[..i + 1]), AllKeys(adds)); }
        return;
      }
      PutOne(L, m, m', adds, put, i, nt, order, lims, perm);
      put := put + [Batch(adds[i].keys, adds[i].vals, perm)];
      m := m';
    }
    assert adds[..|adds|] == adds;
    Fits(L, tab[..], m, AllKeys(adds));
    RoomByHashes(logCapacity, raw, AllKeys(adds));
    Lookup(LayoutOf(logCapacity, raw), tab, keys, vals, m);
    forall i | 0 <= i < |keys| ensures LastValue(adds, keys[i], vals[i]) {
      AfterGivesLast(adds, put, keys[i]);
    }
    ok := true;
  }

  lemma NoBatches(adds: seq<Entries>)
    ensures PutAs(adds[..0], []) && After([]) == map[] && AllKeys(adds[..0]) == {}
  {
  }

  lemma EntriesOk(e: Entries)
    requires e.Ok()
    ensures |e.keys| == |e.vals| && forall j :: 0 <= j < |e.keys| ==> e.keys[j] != -1
  {
  }
}
