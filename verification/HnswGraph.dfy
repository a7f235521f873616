/**
 The flat layout of the HNSW graph: node i owns neighbors[offsets[i]..offsets[i + 1]], cut into one
 block of slots for each of its levels by the cumulative capacities.
 */
module HnswGraph {

  /** levels[i] is one more than the top level of node i; cum[l] slots come before level l. */
  datatype Graph = Graph(cum: seq<nat>, levels: seq<nat>, offsets: seq<nat>, neighbors: seq<int>)

  /** What PrepareLevelTab sets up: every node's slots lie one after the other. */
  ghost predicate Layout(g: Graph) {
    && |g.cum| >= 2 && g.cum[0] == 0
    && (forall l, m :: 0 <= l < m < |g.cum| ==> g.cum[l] < g.cum[m])
    && |g.offsets| == |g.levels| + 1 && g.offsets[0] == 0 && g.offsets[|g.levels|] == |g.neighbors|
    && (forall i {:trigger g.levels[i]} :: 0 <= i < |g.levels| ==> 0 < g.levels[i] < |g.cum|)
    && Packed(g)
  }

  ghost predicate Packed(g: Graph)
    requires |g.offsets| == |g.levels| + 1
    requires forall i {:trigger g.levels[i]} :: 0 <= i < |g.levels| ==> 0 < g.levels[i] < |g.cum|
  {
    && (forall i {:trigger g.levels[i]} ::
        0 <= i < |g.levels| ==> g.offsets[i + 1] == g.offsets[i] + g.cum[g.levels[i]])
    && (forall i, j :: 0 <= i <= j <= |g.levels| ==> g.offsets[i] <= g.offsets[j])
  }

  /** Node i exists on level l. */
  predicate On(g: Graph, i: int, l: int) {
    0 <= i < |g.levels| && 0 <= l < g.levels[i]
  }

  function Begin(g: Graph, i: nat, l: nat): (b: nat)
    requires Layout(g) && On(g, i, l)
  {
    g.offsets[i] + g.cum[l]
  }

  function End(g: Graph, i: nat, l: nat): (e: nat)
    requires Layout(g) && On(g, i, l)
    ensures Begin(g, i, l) < e <= |g.neighbors|
  {
    assert g.cum[l] < g.cum[l + 1];
    assert l + 1 < g.levels[i] ==> g.cum[l + 1] < g.cum[g.levels[i]];
    assert g.offsets[i + 1] == g.offsets[i] + g.cum[g.levels[i]];
    g.offsets[i] + g.cum[l + 1]
  }

  function Slots(g: Graph, i: nat, l: nat): (s: seq<int>)
    requires Layout(g) && On(g, i, l)
    ensures |s| == g.cum[l + 1] - g.cum[l] > 0
  {
    g.neighbors[Begin(g, i, l)..End(g, i, l)]
  }

  function SetSlots(g: Graph, i: nat, l: nat, s: seq<int>): Graph
    requires Layout(g) && On(g, i, l) && |s| == g.cum[l + 1] - g.cum[l]
  {
    g.(neighbors := g.neighbors[..Begin(g, i, l)] + s + g.neighbors[End(g, i, l)..])
  }

  /** Blocks of different nodes or levels do not overlap. */
  lemma BlocksApart(g: Graph, i: nat, l: nat, j: nat, m: nat)
    requires Layout(g) && On(g, i, l) && On(g, j, m) && (i != j || l != m)
    ensures End(g, i, l) <= Begin(g, j, m) || End(g, j, m) <= Begin(g, i, l)
  {
    if i == j {
      BlocksOfNode(g, i, l, m);
    } else if i < j {
      BlockBefore(g, i, l, j, m);
    } else {
      BlockBefore(g, j, m, i, l);
    }
  }

  lemma BlocksOfNode(g: Graph, i: nat, l: nat, m: nat)
    requires Layout(g) && On(g, i, l) && On(g, i, m) && l != m
    ensures End(g, i, l) <= Begin(g, i, m) || End(g, i, m) <= Begin(g, i, l)
  {
    if l < m {
      assert l + 1 < m ==> g.cum[l + 1] < g.cum[m];
    } else {
      assert m + 1 < l ==> g.cum[m + 1] < g.cum[l];
    }
  }

  lemma BlockBefore(g: Graph, i: nat, l: nat, j: nat, m: nat)
    requires Layout(g) && On(g, i, l) && On(g, j, m) && i < j
    ensures End(g, i, l) <= Begin(g, j, m)
  {
    assert l + 1 < g.levels[i] ==> g.cum[l + 1] < g.cum[g.levels[i]];
    assert g.offsets[i + 1] == g.offsets[i] + g.cum[g.levels[i]];
    assert g.offsets[i + 1] <= g.offsets[j];
  }

  lemma LayoutOfSet(g: Graph, i: nat, l: nat, s: seq<int>)
    requires Layout(g) && On(g, i, l) && |s| == g.cum[l + 1] - g.cum[l]
    ensures Layout(SetSlots(g, i, l, s))
  {
    assert |SetSlots(g, i, l, s).neighbors| == |g.neighbors|;
  }

  lemma Splice(v: seq<int>, lo: nat, hi: nat, s: seq<int>, from: nat, to: nat)
    requires lo <= hi <= |v| && from <= to <= |v| && |s| == hi - lo
    ensures to <= |v[..lo] + s + v[hi..]|
    ensures from == lo && to == hi ==> (v[..lo] + s + v[hi..])[from..to] == s
    ensures to <= lo || hi <= from ==> (v[..lo] + s + v[hi..])[from..to] == v[from..to]
  {
  }

  /** Writing one block changes that block and no other. */
  lemma SlotsOfSet(g: Graph, i: nat, l: nat, s: seq<int>, j: nat, m: nat)
    requires Layout(g) && On(g, i, l) && |s| == g.cum[l + 1] - g.cum[l] && On(g, j, m)
    ensures Layout(SetSlots(g, i, l, s))
    ensures Slots(SetSlots(g, i, l, s), j, m) == if j == i && m == l then s else Slots(g, j, m)
  {
    LayoutOfSet(g, i, l, s);
    hide Layout;
    if j != i || m != l { BlocksApart(g, i, l, j, m); }
    Splice(g.neighbors, Begin(g, i, l), End(g, i, l), s, Begin(g, j, m), End(g, j, m));
  }

  // -------------------------------------------------------------------------
  // Well-formed links
  // -------------------------------------------------------------------------

  /** Distinct ids first, then only -1. */
  ghost predicate Listed(s: seq<int>) {
    && (forall a, b :: 0 <= a < b < |s| && s[a] == -1 ==> s[b] == -1)
    && (forall a, b :: 0 <= a < b < |s| && s[a] == s[b] ==> s[a] == -1)
  }

  /** Entry x may be a link of node i on level l in a graph of n nodes. */
  predicate Link(g: Graph, n: nat, i: nat, l: nat, x: int) {
    x == -1 || (0 <= x < n && x != i && On(g, x, l))
  }

  ghost predicate ListOk(g: Graph, n: nat, i: nat, l: nat)
    requires Layout(g) && On(g, i, l)
  {
    var s := Slots(g, i, l);
    && Listed(s)
    && (forall a :: 0 <= a < |s| ==> Link(g, n, i, l, s[a]))
    && (i >= n ==> forall a :: 0 <= a < |s| ==> s[a] == -1)
  }

  /** Node n is being inserted from the top level down: the levels above `top` know it already. */
  function Known(n: nat, l: int, top: int): nat {
    if l > top then n + 1 else n
  }

  ghost predicate LinksOk(g: Graph, n: nat, top: int) {
    && Layout(g)
    && (forall i, l :: On(g, i, l) ==> ListOk(g, Known(n, l, top), i, l))
  }

  /** A graph of n nodes; its tables may be longer than n. */
  ghost predicate GraphOk(g: Graph, n: nat) {
    LinksOk(g, n, |g.cum|) && n <= |g.levels|
  }

  /** The entry point is a node of the highest level; an empty graph has none. */
  ghost predicate EntryOk(g: Graph, n: nat, entry: int, maxLevel: int) {
    && n <= |g.levels|
    && (if n == 0 then entry == -1 && maxLevel == -1
        else 0 <= entry < n && maxLevel + 1 == g.levels[entry] && forall i :: 0 <= i < n ==> g.levels[i] <= maxLevel + 1)
  }

  /** The same set of links seen from level top down or from below: nothing is left to insert. */
  lemma AllLevelsDone(g: Graph, n: nat)
    requires LinksOk(g, n, -1) && n < |g.levels|
    ensures GraphOk(g, n + 1)
  {
    forall i, l | On(g, i, l) ensures ListOk(g, Known(n + 1, l, |g.cum|), i, l) {
      assert g.levels[i] < |g.cum|;
      assert ListOk(g, Known(n, l, -1), i, l);
    }
  }

  /** Writing a well-formed block keeps all links well-formed. */
  lemma SetKeepsLinks(g: Graph, n: nat, top: int, i: nat, l: nat, s: seq<int>)
    requires LinksOk(g, n, top) && On(g, i, l) && |s| == g.cum[l + 1] - g.cum[l]
    requires Listed(s) && (forall a :: 0 <= a < |s| ==> Link(g, Known(n, l, top), i, l, s[a])) && i < Known(n, l, top)
    ensures LinksOk(SetSlots(g, i, l, s), n, top)
  {
    var g' := SetSlots(g, i, l, s);
    SlotsOfSet(g, i, l, s, i, l);
    forall j, m | On(g', j, m) ensures ListOk(g', Known(n, m, top), j, m) {
      assert On(g, j, m);
      assert ListOk(g, Known(n, m, top), j, m);
      SlotsOfSet(g, i, l, s, j, m);
    }
  }
}
