/**
 What inserting one point means in terms of distances: on every level it joins, the search ends in a
 state whose nearest results it is linked to, and the links back keep the nearest of each target.
 */
module HnswInsertion {
  import opened HnswSelect
  import opened HnswGraph
  import opened HnswSearch
  import opened HnswLinks

  /** Level l of g' is that of g. */
  ghost predicate SameLevel(g: Graph, g': Graph, l: nat) {
    && SameTables(g, g') && Layout(g) && Layout(g')
    && forall i {:trigger Slots(g', i, l)} :: On(g, i, l) ==> Slots(g', i, l) == Slots(g, i, l)
  }

  /** On level l node n was linked to `targets`, each target got a link to n, nothing else changed. */
  ghost predicate LevelJoined(sym: (int, int) -> real, g: Graph, g': Graph, n: nat, l: nat, targets: seq<int>,
      keepMax: bool) {
    && SameTables(g, g') && Layout(g) && Layout(g') && On(g, n, l) && |targets| <= |Slots(g, n, l)|
    && Slots(g', n, l) == targets + Free(|Slots(g, n, l)| - |targets|)
    && (forall i {:trigger Slots(g', i, l)} :: i != n && On(g, i, l) ==>
          && (i in targets ==> Added(sym, i, n, Slots(g, i, l), Slots(g', i, l), keepMax))
          && (i !in targets ==> Slots(g', i, l) == Slots(g, i, l)))
  }

  /** t is where a search of level l from `start` may end. */
  ghost predicate Found(e: Query, g: Graph, n: nat, l: nat, start: int, t: State) {
    Good(e, g, n, l, t, -1) && Done(e, t) && start in t.visited
  }

  /** Node n was joined to level l: to the selection among what a search from `start` found there. */
  ghost predicate InsertedOn(e: Query, sym: (int, int) -> real, g: Graph, g': Graph, n: nat, l: nat, start: int,
      keepMax: bool) {
    exists t: State, d: seq<Node> {:trigger Found(e, g, n, l, start, t), Ids(d)} ::
      && Found(e, g, n, l, start, t)
      && LevelJoined(sym, g, g', n, l, Ids(d), keepMax)
      && Chosen(sym, t.results.items, d, |Slots(g, n, l)|, keepMax)
  }

  // -------------------------------------------------------------------------
  // Only level l matters
  // -------------------------------------------------------------------------

  lemma SameNeighbors(g: Graph, g': Graph, l: nat, i: int)
    requires SameLevel(g, g', l)
    ensures Neighbors(g', l, i) == Neighbors(g, l, i)
  {
    hide Layout, Links;
    if On(g, i, l) { assert Slots(g', i, l) == Slots(g, i, l); }
  }

  lemma SameLevelOk(g: Graph, g': Graph, n: nat, l: nat)
    requires SameLevel(g, g', l) && LevelOk(g', n, l)
    ensures LevelOk(g, n, l)
  {
    hide Layout, Listed;
    forall i | On(g, i, l) ensures ListOk(g, n, i, l) {
      assert On(g', i, l);
      assert Slots(g', i, l) == Slots(g, i, l);
      var s := Slots(g, i, l);
      forall a | 0 <= a < |s| ensures Link(g, n, i, l, s[a]) {
        assert Link(g', n, i, l, s[a]);
      }
    }
  }

  lemma SameFound(e: Query, g: Graph, g': Graph, n: nat, l: nat, start: int, t: State)
    requires SameLevel(g, g', l) && Found(e, g', n, l, start, t)
    ensures Found(e, g, n, l, start, t)
  {
    hide LevelOk, Best, Frontier, Neighbors, Layout;
    SameLevelOk(g, g', n, l);
    var r := t.results.items;
    forall k | 0 <= k < |r| ensures Has(t.candidates.items, r[k].id) || Expanded(g, l, t.visited, r[k].id) {
      SameNeighbors(g, g', l, r[k].id);
      assert r[k].id in t.visited by { ResultsVisited(e, t, k); }
      assert r[k].id != -1;
    }
  }

  lemma ResultsVisited(e: Query, t: State, k: nat)
    requires Best(e, t) && k < |t.results.items|
    ensures t.results.items[k].id in t.visited
  {
  }

  /** A step on level l of a graph whose level l is still that of g. */
  lemma InsertedHere(e: Query, sym: (int, int) -> real, g: Graph, g1: Graph, g2: Graph, n: nat, l: nat, start: int,
      t: State, d: seq<Node>, keepMax: bool)
    requires SameLevel(g, g1, l) && On(g, n, l) && Found(e, g1, n, l, start, t)
    requires Chosen(sym, t.results.items, d, |Slots(g1, n, l)|, keepMax)
    requires Joined(sym, g1, g2, n, l, Ids(d), |d|, keepMax)
    ensures InsertedOn(e, sym, g, g2, n, l, start, keepMax)
  {
    hide Layout, Added, Found, Chosen;
    SameFound(e, g, g1, n, l, start, t);
    assert Slots(g1, n, l) == Slots(g, n, l);
    assert Ids(d)[..|d|] == Ids(d);
    forall i | i != n && On(g, i, l)
      ensures i in Ids(d) ==> Added(sym, i, n, Slots(g, i, l), Slots(g2, i, l), keepMax)
      ensures i !in Ids(d) ==> Slots(g2, i, l) == Slots(g, i, l)
    {
      assert Slots(g1, i, l) == Slots(g, i, l);
      assert Slots(g2, i, l) == Slots(g2, i, l);
    }
    assert LevelJoined(sym, g, g2, n, l, Ids(d), keepMax);
  }

  /** Later steps on other levels do not matter. */
  lemma InsertedStays(e: Query, sym: (int, int) -> real, g: Graph, g1: Graph, g2: Graph, n: nat, l: nat, start: int,
      keepMax: bool)
    requires InsertedOn(e, sym, g, g1, n, l, start, keepMax) && SameLevel(g1, g2, l)
    ensures InsertedOn(e, sym, g, g2, n, l, start, keepMax)
  {
    hide Layout, Added, Found, Chosen;
    var t: State, d: seq<Node> :| Found(e, g, n, l, start, t) && LevelJoined(sym, g, g1, n, l, Ids(d), keepMax)
      && Chosen(sym, t.results.items, d, |Slots(g, n, l)|, keepMax);
    assert Slots(g2, n, l) == Slots(g1, n, l);
    forall i | i != n && On(g, i, l)
      ensures i in Ids(d) ==> Added(sym, i, n, Slots(g, i, l), Slots(g2, i, l), keepMax)
      ensures i !in Ids(d) ==> Slots(g2, i, l) == Slots(g, i, l)
    {
      assert Slots(g2, i, l) == Slots(g1, i, l);
    }
    assert LevelJoined(sym, g, g2, n, l, Ids(d), keepMax);
  }

  /** Joining level l leaves the other levels alone. */
  lemma OtherLevels(sym: (int, int) -> real, g: Graph, g': Graph, n: nat, l: nat, targets: seq<int>, k: nat,
      keepMax: bool, m: nat)
    requires Layout(g) && On(g, n, l) && Joined(sym, g, g', n, l, targets, k, keepMax) && m != l
    ensures SameLevel(g, g', m)
  {
    hide Layout, Added;
    forall i | On(g, i, m) ensures Slots(g', i, m) == Slots(g, i, m) {
      assert Slots(g', i, m) == Slots(g', i, m);
    }
  }

  lemma SameLevelTwice(g: Graph, g1: Graph, g2: Graph, l: nat)
    requires SameLevel(g, g1, l) && SameLevel(g1, g2, l)
    ensures SameLevel(g, g2, l)
  {
    hide Layout;
    forall i | On(g, i, l) ensures Slots(g2, i, l) == Slots(g, i, l) {
      assert Slots(g1, i, l) == Slots(g, i, l);
      assert Slots(g2, i, l) == Slots(g1, i, l);
    }
  }

  // -------------------------------------------------------------------------
  // What it means
  // -------------------------------------------------------------------------

  /** Some link x of node n is as near as any other, no farther than `start`, and no farther than any
      node x was linked to before. */
  ghost predicate LinkedNear(dis: int -> real, g: Graph, g': Graph, n: nat, l: nat, start: int) {
    exists x {:trigger x in Neighbors(g', l, n)} ::
      && x in Neighbors(g', l, n)
      && dis(x) <= dis(start)
      && (forall y :: y in Neighbors(g', l, n) ==> dis(x) <= dis(y))
      && (forall y :: y in Neighbors(g, l, x) ==> dis(x) <= dis(y))
  }

  /** The nearest of all visited nodes is among the chosen. */
  lemma NearestChosen(e: Query, sym: (int, int) -> real, g: Graph, n: nat, l: nat, t: State, d: seq<Node>, maxSize: nat,
      keepMax: bool)
    returns (a: nat)
    requires Good(e, g, n, l, t, -1) && Chosen(sym, t.results.items, d, maxSize, keepMax)
    ensures a < |d| && d[a] in t.results.items && forall v :: v in t.visited ==> d[a].d <= e.dis(v)
    ensures forall b :: 0 <= b < |d| ==> d[a].d <= d[b].d
  {
    hide LevelOk, Frontier, Reach, Pending, Selection;
    var r := t.results.items;
    ShrunkWithin(sym, multiset(r), multiset(d), maxSize, keepMax);
    a := FirstNearest(d);
    assert d[a] in multiset(d);
    forall k | 0 <= k < |r| ensures d[a].d <= r[k].d {
      NearerChosen(sym, r, d, maxSize, keepMax, k, a);
    }
    forall v | v in t.visited ensures d[a].d <= e.dis(v) {
      assert Beaten(e, r, v);
    }
  }

  lemma NearerChosen(sym: (int, int) -> real, r: seq<Node>, d: seq<Node>, maxSize: nat, keepMax: bool, k: nat, a: nat)
    requires Chosen(sym, r, d, maxSize, keepMax) && k < |r| && IsNearest(d, a)
    ensures d[a].d <= r[k].d
  {
    hide Diverse, Dominated;
    assert r[k] in multiset(r);
    if |r| < maxSize {
      assert |multiset(r)| == |r|;
      assert r[k] in multiset(d);
      var b :| 0 <= b < |d| && d[b] == r[k];
    } else {
      assert |multiset(r)| == |r|;
      var output: seq<Node> :| Selected(sym, multiset(r), output, maxSize, keepMax) && multiset(output) == multiset(d);
      assert multiset(r)[r[k]] > 0;
      assert output[0] in multiset(output);
      assert output[0] in multiset(d);
      var b :| 0 <= b < |d| && d[b] == output[0];
    }
  }

  /** The links of a block that lists them first. */
  lemma {:induction false} LinksOfList(targets: seq<int>, m: nat)
    requires forall k :: 0 <= k < |targets| ==> targets[k] >= 0
    ensures Links(targets + Free(m)) == targets
  {
    var s := targets + Free(m);
    if targets != [] {
      assert s[1..] == targets[1..] + Free(m);
      LinksOfList(targets[1..], m);
    }
  }

  /** MAIN: on each level it joins, a point is linked to a local minimum of its distance: to a node no
      farther from it than the search's start, than any of its other links, or than any link of that node. */
  lemma InsertedIsNear(e: Query, sym: (int, int) -> real, g: Graph, g': Graph, n: nat, l: nat, start: int,
      keepMax: bool)
    requires InsertedOn(e, sym, g, g', n, l, start, keepMax)
    ensures LinkedNear(e.dis, g, g', n, l, start)
  {
    hide Added, Good, Done, Links, Layout, Chosen, Shrunk;
    var t: State, d: seq<Node> :| Found(e, g, n, l, start, t) && LevelJoined(sym, g, g', n, l, Ids(d), keepMax)
      && Chosen(sym, t.results.items, d, |Slots(g, n, l)|, keepMax);
    TargetsOk(e, sym, g, n, l, t, d, |Slots(g, n, l)|, keepMax);
    LinksOfList(Ids(d), |Slots(g, n, l)| - |d|);
    assert Neighbors(g', l, n) == Ids(d);
    NearestTarget(e, sym, g, n, l, start, t, d, |Slots(g, n, l)|, keepMax);
  }

  /** The nearest target is a local minimum. */
  lemma NearestTarget(e: Query, sym: (int, int) -> real, g: Graph, n: nat, l: nat, start: int, t: State, d: seq<Node>,
      maxSize: nat, keepMax: bool)
    requires Found(e, g, n, l, start, t) && Chosen(sym, t.results.items, d, maxSize, keepMax)
    ensures exists x :: x in Ids(d) && e.dis(x) <= e.dis(start) && (forall y :: y in Ids(d) ==> e.dis(x) <= e.dis(y))
              && (forall y :: y in Neighbors(g, l, x) ==> e.dis(x) <= e.dis(y))
  {
    hide Good, Done, Chosen, Neighbors;
    var a := NearestChosen(e, sym, g, n, l, t, d, maxSize, keepMax);
    var k :| 0 <= k < |t.results.items| && t.results.items[k] == d[a];
    ResultExpanded(e, g, n, l, t, k);
    ChosenExact(e, sym, g, n, l, t, d, maxSize, keepMax);
    var x := d[a].id;
    assert x == Ids(d)[a];
    forall y | y in Neighbors(g, l, x) ensures e.dis(x) <= e.dis(y) {
      var b :| 0 <= b < |Neighbors(g, l, x)| && Neighbors(g, l, x)[b] == y;
      assert y in t.visited;
    }
    forall y | y in Ids(d) ensures e.dis(x) <= e.dis(y) {
      var b :| 0 <= b < |Ids(d)| && Ids(d)[b] == y;
      assert d[a].d <= d[b].d;
    }
  }

  /** At the end every result has been expanded. */
  lemma ResultExpanded(e: Query, g: Graph, n: nat, l: nat, t: State, k: nat)
    requires Good(e, g, n, l, t, -1) && Done(e, t) && k < |t.results.items|
    ensures Expanded(g, l, t.visited, t.results.items[k].id)
  {
    hide LevelOk, Beaten, Neighbors;
    var r, c := t.results.items, t.candidates.items;
    assert r[k].id in t.visited;
    forall m | 0 <= m < |c| ensures c[m].id != r[k].id {
      assert c[m].d > r[k].d;
    }
  }

  lemma ChosenExact(e: Query, sym: (int, int) -> real, g: Graph, n: nat, l: nat, t: State, d: seq<Node>, maxSize: nat,
      keepMax: bool)
    requires Good(e, g, n, l, t, -1) && Chosen(sym, t.results.items, d, maxSize, keepMax)
    ensures forall k :: 0 <= k < |d| ==> d[k].d == e.dis(d[k].id)
  {
    hide LevelOk, Beaten, Frontier, Reach, Pending;
    var r := t.results.items;
    ShrunkWithin(sym, multiset(r), multiset(d), maxSize, keepMax);
    forall k | 0 <= k < |d| ensures d[k].d == e.dis(d[k].id) {
      assert d[k] in multiset(d);
      assert d[k] in r;
    }
  }

  // -------------------------------------------------------------------------
  // Links back
  // -------------------------------------------------------------------------

  /** The block of src with a link to dest added keeps the one nearest to src of dest and its old links. */
  ghost predicate KeepsNearest(sym: (int, int) -> real, src: int, dest: int, s: seq<int>, s': seq<int>) {
    || (dest in s' && forall x :: x in s && x != -1 ==> x in s')
    || exists x :: x in s' && (x == dest || x in s) && sym(src, x) <= sym(src, dest)
                   && forall y :: y in s ==> sym(src, x) <= sym(src, y)
  }

  /** Adding a link to a block with room keeps all links; in a full block the nearest survives. */
  lemma AddedKeepsNearest(sym: (int, int) -> real, src: int, dest: int, s: seq<int>, s': seq<int>, keepMax: bool)
    requires Added(sym, src, dest, s, s', keepMax) && Listed(s) && forall a :: 0 <= a < |s| ==> s[a] >= -1
    ensures KeepsNearest(sym, src, dest, s, s')
  {
    if s[|s| - 1] == -1 {
      var k := |Links(s)|;
      assert s'[k] == dest;
      forall x | x in s && x != -1 ensures x in s' {
        var a :| 0 <= a < |s| && s[a] == x;
        assert s'[a] == x;
      }
    } else {
      var f := Fight(sym, src, dest, s);
      var d: seq<Node> :| Shrunk(sym, multiset(f), multiset(d), |s|, keepMax) && 0 < |d| <= |s|
        && s' == Ids(d) + Free(|s| - |d|);
      FightNearest(sym, src, dest, s, s', d, keepMax);
    }
  }

  lemma FightNearest(sym: (int, int) -> real, src: int, dest: int, s: seq<int>, s': seq<int>, d: seq<Node>,
      keepMax: bool)
    requires s != [] && 0 < |d| <= |s| && s' == Ids(d) + Free(|s| - |d|)
    requires Shrunk(sym, multiset(Fight(sym, src, dest, s)), multiset(d), |s|, keepMax)
    ensures exists x :: x in s' && (x == dest || x in s) && sym(src, x) <= sym(src, dest)
                        && forall y :: y in s ==> sym(src, x) <= sym(src, y)
  {
    hide Shrunk;
    var f := Fight(sym, src, dest, s);
    var a := FirstNearest(d);
    ShrunkWithin(sym, multiset(f), multiset(d), |s|, keepMax);
    assert d[a] in multiset(d);
    assert d[a] in f;
    var i :| 0 <= i < |f| && f[i] == d[a];
    var x := d[a].id;
    assert s'[a] == x;
    NearerChosen(sym, f, d, |s|, keepMax, 0, a);
    forall y | y in s ensures sym(src, x) <= sym(src, y) {
      var k :| 0 <= k < |s| && s[k] == y;
      assert f[k + 1] == Node(sym(src, y), y);
      NearerChosen(sym, f, d, |s|, keepMax, k + 1, a);
    }
  }

  /** Each node the point is linked to takes the link back, or keeps what is nearest to it among the
      point and its old links; all other nodes of the level keep their links. */
  lemma InsertedLinksBack(e: Query, sym: (int, int) -> real, g: Graph, g': Graph, n: nat, l: nat, start: int,
      keepMax: bool, i: nat)
    requires InsertedOn(e, sym, g, g', n, l, start, keepMax) && i != n && On(g, i, l)
    ensures Layout(g) && Layout(g') && On(g', i, l)
    ensures if i in Neighbors(g', l, n) then KeepsNearest(sym, i, n, Slots(g, i, l), Slots(g', i, l))
            else Slots(g', i, l) == Slots(g, i, l)
  {
    hide Added, Done, Links, Layout, Chosen, Listed, KeepsNearest, Best, Frontier, Reach, Pending;
    var t: State, d: seq<Node> :| Found(e, g, n, l, start, t) && LevelJoined(sym, g, g', n, l, Ids(d), keepMax)
      && Chosen(sym, t.results.items, d, |Slots(g, n, l)|, keepMax);
    TargetsOk(e, sym, g, n, l, t, d, |Slots(g, n, l)|, keepMax);
    LinksOfList(Ids(d), |Slots(g, n, l)| - |d|);
    assert Neighbors(g', l, n) == Ids(d);
    assert Slots(g', i, l) == Slots(g', i, l);
    assert ListOk(g, n, i, l);
    assert forall a :: 0 <= a < |Slots(g, i, l)| ==> Link(g, n, i, l, Slots(g, i, l)[a]);
    if i in Ids(d) { AddedKeepsNearest(sym, i, n, Slots(g, i, l), Slots(g', i, l), keepMax); }
  }

  /** Of any two nodes one came first and the other is no nearer to it than to the point. */
  ghost predicate Spread(dis: int -> real, sym: (int, int) -> real, ids: seq<int>) {
    forall x, y {:trigger x in ids, y in ids} :: x in ids && y in ids && x != y ==>
      (dis(x) <= dis(y) <= sym(x, y)) || (dis(y) <= dis(x) <= sym(y, x))
  }

  /** Without the option to fill up, a point's links keep their distance from each other, unless the
      search found fewer nodes than there are slots: then all of them are linked. */
  lemma InsertedIsSpread(e: Query, sym: (int, int) -> real, g: Graph, g': Graph, n: nat, l: nat, start: int)
    requires InsertedOn(e, sym, g, g', n, l, start, false)
    ensures Layout(g) && On(g, n, l)
    ensures Spread(e.dis, sym, Neighbors(g', l, n))
      || exists t :: Found(e, g, n, l, start, t) && |t.results.items| == |Neighbors(g', l, n)| < |Slots(g, n, l)|
  {
    hide Added, Good, Done, Links, Layout, Chosen, Spread;
    var t: State, d: seq<Node> :| Found(e, g, n, l, start, t) && LevelJoined(sym, g, g', n, l, Ids(d), false)
      && Chosen(sym, t.results.items, d, |Slots(g, n, l)|, false);
    TargetsOk(e, sym, g, n, l, t, d, |Slots(g, n, l)|, false);
    LinksOfList(Ids(d), |Slots(g, n, l)| - |d|);
    assert Neighbors(g', l, n) == Ids(d);
    ChosenExact(e, sym, g, n, l, t, d, |Slots(g, n, l)|, false);
    ChosenSpread(e.dis, sym, t.results.items, d, |Slots(g, n, l)|);
  }

  lemma ChosenSpread(dis: int -> real, sym: (int, int) -> real, r: seq<Node>, d: seq<Node>, maxSize: nat)
    requires Chosen(sym, r, d, maxSize, false) && forall k :: 0 <= k < |d| ==> d[k].d == dis(d[k].id)
    ensures Spread(dis, sym, Ids(d)) || |r| == |d| < maxSize
  {
    assert |multiset(r)| == |r| && |multiset(d)| == |d|;
    if |r| >= maxSize {
      hide Selection, Spread, Diverse;
      var output: seq<Node> :| Selected(sym, multiset(r), output, maxSize, false) && multiset(output) == multiset(d);
      SelectedIsDiverse(sym, multiset(r), output, maxSize);
      DiverseIsSpread(dis, sym, output, d);
    }
  }

  lemma DiverseIsSpread(dis: int -> real, sym: (int, int) -> real, output: seq<Node>, d: seq<Node>)
    requires Diverse(sym, output) && multiset(output) == multiset(d)
    requires forall k :: 0 <= k < |d| ==> d[k].d == dis(d[k].id)
    ensures Spread(dis, sym, Ids(d))
  {
    forall x, y | x in Ids(d) && y in Ids(d) && x != y
      ensures (dis(x) <= dis(y) <= sym(x, y)) || (dis(y) <= dis(x) <= sym(y, x))
    {
      var a :| 0 <= a < |d| && Ids(d)[a] == x;
      var b :| 0 <= b < |d| && Ids(d)[b] == y;
      assert d[a] in multiset(d) && d[b] in multiset(d);
      var i :| 0 <= i < |output| && output[i] == d[a];
      var j :| 0 <= j < |output| && output[j] == d[b];
    }
  }

  lemma SelectedIsDiverse(sym: (int, int) -> real, input: multiset<Node>, output: seq<Node>, maxSize: nat)
    requires Selected(sym, input, output, maxSize, false)
    ensures Diverse(sym, output)
  {
    var kept: nat :| Selection(sym, input, output, kept, maxSize, false);
    assert output[..kept] == output;
  }
}
