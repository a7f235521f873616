/**
 Links of one block: what adding a link does to it, and what inserting a node does to a level.
 */
module HnswLinks {
  import opened HnswSelect
  import opened HnswGraph
  import opened HnswSearch

  /** The queue's elements in the order they are popped, farthest first. */
  function Drain(tie: Ties, q: Queue): seq<Node>
    decreases |q.items|
  {
    if q.items == [] then []
    else
      var i := TopFar(tie, q);
      [q.items[i]] + Drain(tie, PopAt(q, i))
  }

  lemma {:induction false} DrainIsAll(tie: Ties, q: Queue)
    ensures multiset(Drain(tie, q)) == multiset(q.items) && |Drain(tie, q)| == |q.items|
    decreases |q.items|
  {
    if q.items != [] {
      var i := TopFar(tie, q);
      RemoveMultiset(q.items, i);
      DrainIsAll(tie, PopAt(q, i));
    }
  }

  /** What the shrinking of a result set promises; a short one stays as it is. */
  ghost predicate Shrunk(dist: (int, int) -> real, before: multiset<Node>, after: multiset<Node>, maxSize: nat,
      keepMax: bool) {
    if |before| < maxSize then after == before
    else exists output: seq<Node> :: Selected(dist, before, output, maxSize, keepMax) && multiset(output) == after
  }

  method ShrinkResultSet(dist: (int, int) -> real, near: Ties, far: Ties, resultSet: Queue, maxSize: nat, keepMax: bool)
    returns (resultSet': Queue)
    requires maxSize > 0
    ensures Shrunk(dist, multiset(resultSet.items), multiset(resultSet'.items), maxSize, keepMax)
    ensures resultSet.items != [] ==> resultSet'.items != []
    ensures |resultSet'.items| <= maxSize
  {
    hide Selected, IsFarthest, Remove;
    if |resultSet.items| < maxSize { return resultSet; }
    var farther;
    resultSet', farther := Reversed(far, resultSet);
    var output := ShrinkNeighborList(dist, near, farther, maxSize, keepMax);
    NotAllDropped(dist, multiset(resultSet.items), output, maxSize, keepMax);
    for k := 0 to |output|
      invariant resultSet'.items == output[..k]
    {
      resultSet' := Push(resultSet', output[k]);
    }
    assert output[..|output|] == output;
    assert |multiset(resultSet.items)| == |resultSet.items|;
  }

  /** The elements move to a queue ordered the other way round. */
  method Reversed(far: Ties, resultSet: Queue) returns (resultSet': Queue, farther: Queue)
    ensures resultSet'.items == [] && multiset(farther.items) == multiset(resultSet.items)
  {
    hide IsFarthest, Remove;
    resultSet' := resultSet;
    farther := Empty;
    while resultSet'.items != []
      invariant multiset(farther.items) + multiset(resultSet'.items) == multiset(resultSet.items)
      decreases |resultSet'.items|
    {
      var i := TopFar(far, resultSet');
      RemoveMultiset(resultSet'.items, i);
      farther := Push(farther, resultSet'.items[i]);
      resultSet' := PopAt(resultSet', i);
    }
  }

  lemma NotAllDropped(dist: (int, int) -> real, input: multiset<Node>, output: seq<Node>, maxSize: nat, keepMax: bool)
    requires maxSize > 0 && |input| > 0 && Selected(dist, input, output, maxSize, keepMax)
    ensures 0 < |output| <= maxSize
  {
    var v :| v in input;
    assert input[v] > 0;
  }

  // -------------------------------------------------------------------------
  // One block
  // -------------------------------------------------------------------------

  function Ids(nodes: seq<Node>): (r: seq<int>)
    ensures |r| == |nodes| && forall k :: 0 <= k < |r| ==> r[k] == nodes[k].id
  {
    seq(|nodes|, k requires 0 <= k < |nodes| => nodes[k].id)
  }

  function Free(n: nat): (r: seq<int>)
    ensures |r| == n && forall k :: 0 <= k < n ==> r[k] == -1
  {
    seq(n, _ => -1)
  }

  /** The candidates for a full block: the new node, then those linked already. */
  function Fight(sym: (int, int) -> real, src: int, dest: int, s: seq<int>): (r: seq<Node>)
    ensures |r| == |s| + 1
  {
    [Node(sym(src, dest), dest)] + seq(|s|, k requires 0 <= k < |s| => Node(sym(src, s[k]), s[k]))
  }

  /** Block s of node src becomes s' when a link to dest is added. */
  ghost predicate Added(sym: (int, int) -> real, src: int, dest: int, s: seq<int>, s': seq<int>, keepMax: bool) {
    && s != [] && |s'| == |s|
    && if s[|s| - 1] == -1 then |Links(s)| < |s| && s' == s[|Links(s)| := dest]
       else exists d: seq<Node> ::
         && Shrunk(sym, multiset(Fight(sym, src, dest, s)), multiset(d), |s|, keepMax)
         && 0 < |d| <= |s| && s' == Ids(d) + Free(|s| - |d|)
  }

  /** Two entries of a selection with the same id would be two copies of one candidate. */
  lemma DistinctSub(f: seq<Node>, d: seq<Node>)
    requires multiset(d) <= multiset(f) && Distinct(f)
    ensures Distinct(d) && forall a :: 0 <= a < |d| ==> d[a] in f
  {
    forall a | 0 <= a < |d| ensures d[a] in f { assert d[a] in multiset(d); }
    forall a, b | 0 <= a < b < |d| ensures d[a].id != d[b].id {
      TwoCopies(d, a, b);
      OneCopy(f, d[a]);
      assert multiset(d)[d[a]] <= multiset(f)[d[a]] <= 1;
      var i :| 0 <= i < |f| && f[i] == d[a];
      var j :| 0 <= j < |f| && f[j] == d[b];
    }
  }

  lemma DistinctIds(sym: (int, int) -> real, src: int, dest: int, s: seq<int>, d: seq<Node>)
    requires multiset(d) <= multiset(Fight(sym, src, dest, s))
    requires dest !in s && forall a, b :: 0 <= a < b < |s| ==> s[a] != s[b]
    ensures forall a, b :: 0 <= a < b < |d| ==> d[a].id != d[b].id
    ensures forall a :: 0 <= a < |d| ==> d[a].id == dest || d[a].id in s
  {
    var f := Fight(sym, src, dest, s);
    FightDistinct(sym, src, dest, s);
    DistinctSub(f, d);
    forall a | 0 <= a < |d| ensures d[a].id == dest || d[a].id in s {
      var i :| 0 <= i < |f| && f[i] == d[a];
    }
  }

  lemma FightDistinct(sym: (int, int) -> real, src: int, dest: int, s: seq<int>)
    requires dest !in s && forall a, b :: 0 <= a < b < |s| ==> s[a] != s[b]
    ensures var f := Fight(sym, src, dest, s);
            && (forall a, b :: 0 <= a < b < |f| ==> f[a].id != f[b].id)
            && (forall a :: 0 <= a < |f| ==> f[a].id == dest || f[a].id in s)
  {
  }

  lemma TwoCopies(d: seq<Node>, a: nat, b: nat)
    requires a < b < |d|
    ensures d[a] == d[b] ==> multiset(d)[d[a]] >= 2
  {
    assert d == d[..b] + [d[b]] + d[b + 1..];
    assert d[..b][a] == d[a];
    assert d[a] in d[..b];
  }

  lemma {:induction false} OneCopy(f: seq<Node>, v: Node)
    requires forall a, b :: 0 <= a < b < |f| ==> f[a].id != f[b].id
    ensures multiset(f)[v] <= 1
  {
    if f != [] {
      var n := |f| - 1;
      OneCopy(f[..n], v);
      assert f == f[..n] + [f[n]];
      if f[n] == v { assert v !in f[..n]; }
    }
  }

  lemma ShrunkWithin(dist: (int, int) -> real, before: multiset<Node>, after: multiset<Node>, maxSize: nat,
      keepMax: bool)
    requires Shrunk(dist, before, after, maxSize, keepMax)
    ensures after <= before
  {
  }

  /** A block that was a list stays a list: the new node and old links, in distinct places. */
  lemma AddedIsListed(sym: (int, int) -> real, src: int, dest: int, s: seq<int>, s': seq<int>, keepMax: bool)
    requires Added(sym, src, dest, s, s', keepMax) && Listed(s) && dest >= 0 && dest !in s
    requires forall a :: 0 <= a < |s| ==> s[a] >= -1
    ensures Listed(s') && s'[0] != -1 && |s'| == |s|
    ensures forall a :: 0 <= a < |s'| ==> s'[a] == -1 || s'[a] == dest || s'[a] in s
  {
    hide Shrunk, Listed;
    if s[|s| - 1] == -1 {
      RoomIsListed(s, dest);
    } else {
      var d: seq<Node> :| Shrunk(sym, multiset(Fight(sym, src, dest, s)), multiset(d), |s|, keepMax)
        && 0 < |d| <= |s| && s' == Ids(d) + Free(|s| - |d|);
      ShrunkWithin(sym, multiset(Fight(sym, src, dest, s)), multiset(d), |s|, keepMax);
      FullBlock(s);
      DistinctIds(sym, src, dest, s, d);
      FightIsListed(s, dest, Ids(d));
    }
  }

  lemma FullBlock(s: seq<int>)
    requires Listed(s) && s != [] && s[|s| - 1] != -1
    ensures forall a :: 0 <= a < |s| ==> s[a] != -1
    ensures forall a, b :: 0 <= a < b < |s| ==> s[a] != s[b]
  {
  }

  lemma RoomIsListed(s: seq<int>, dest: int)
    requires Listed(s) && dest >= 0 && dest !in s && |Links(s)| < |s| && forall a :: 0 <= a < |s| ==> s[a] >= -1
    ensures var s' := s[|Links(s)| := dest];
            Listed(s') && s'[0] != -1 && forall a :: 0 <= a < |s'| ==> s'[a] == -1 || s'[a] == dest || s'[a] in s
  {
    var k := |Links(s)|;
    assert s[k] == -1;
    assert forall a :: 0 <= a < k ==> s[a] == Links(s)[a];
  }

  lemma FightIsListed(s: seq<int>, dest: int, ids: seq<int>)
    requires 0 < |ids| <= |s| && dest >= 0
    requires forall a, b :: 0 <= a < b < |ids| ==> ids[a] != ids[b]
    requires forall a :: 0 <= a < |ids| ==> ids[a] == dest || ids[a] in s
    requires forall a :: 0 <= a < |s| ==> s[a] >= -1 && s[a] != -1
    ensures var s' := ids + Free(|s| - |ids|);
            Listed(s') && s'[0] != -1 && forall a :: 0 <= a < |s'| ==> s'[a] == -1 || s'[a] == dest || s'[a] in s
  {
  }

  /** The first free place, found from the back. */
  lemma RoomAt(s: seq<int>, k: nat)
    requires Listed(s) && k <= |s| && (forall a :: 0 <= a < |s| ==> s[a] >= -1)
    requires (forall a :: k <= a < |s| ==> s[a] == -1) && (k > 0 ==> s[k - 1] != -1)
    ensures |Links(s)| == k
  {
    var links := Links(s);
    assert forall a :: 0 <= a < k ==> s[a] >= 0;
    assert k < |s| ==> s[k] == -1;
    assert forall a :: 0 <= a < |links| ==> s[a] == links[a];
  }

  // -------------------------------------------------------------------------
  // One level
  // -------------------------------------------------------------------------

  /** g' is g but for neighbour slots. */
  predicate SameTables(g: Graph, g': Graph) {
    g'.cum == g.cum && g'.levels == g.levels && g'.offsets == g.offsets && |g'.neighbors| == |g.neighbors|
  }

  /** Known nodes grow: links stay well-formed when node n becomes known on one more level. */
  lemma KnowMore(g: Graph, n: nat, top: int, top': int)
    requires LinksOk(g, n, top) && top' <= top
    ensures LinksOk(g, n, top')
  {
    forall i, l | On(g, i, l) ensures ListOk(g, Known(n, l, top'), i, l) {
      assert ListOk(g, Known(n, l, top), i, l);
    }
  }

  lemma LinksGiveLevel(g: Graph, n: nat, top: int, l: nat)
    requires LinksOk(g, n, top) && l <= top
    ensures LevelOk(g, n, l)
  {
    forall i | On(g, i, l) ensures ListOk(g, n, i, l) {
      assert ListOk(g, Known(n, l, top), i, l);
    }
  }

  /** Adding a link keeps all links well-formed and touches one block only. */
  lemma AddedKeepsLinks(sym: (int, int) -> real, g: Graph, n: nat, top: int, src: nat, dest: nat, l: nat,
      s': seq<int>, keepMax: bool)
    requires LinksOk(g, n, top) && On(g, src, l) && On(g, dest, l) && src != dest && src < Known(n, l, top)
    requires dest < Known(n, l, top)
    requires dest !in Slots(g, src, l) && Added(sym, src, dest, Slots(g, src, l), s', keepMax)
    ensures LinksOk(SetSlots(g, src, l, s'), n, top)
  {
    var s := Slots(g, src, l);
    assert ListOk(g, Known(n, l, top), src, l);
    assert forall a :: 0 <= a < |s| ==> Link(g, Known(n, l, top), src, l, s[a]);
    AddedIsListed(sym, src, dest, s, s', keepMax);
    forall a | 0 <= a < |s'| ensures Link(g, Known(n, l, top), src, l, s'[a]) {
      if s'[a] != -1 && s'[a] != dest {
        var b :| 0 <= b < |s| && s[b] == s'[a];
      }
    }
    SetKeepsLinks(g, n, top, src, l, s');
  }

  /** Node n was joined to `targets` on level l; the first k of them have been linked back. */
  ghost predicate Joined(sym: (int, int) -> real, g: Graph, g': Graph, n: nat, l: nat, targets: seq<int>, k: nat,
      keepMax: bool)
    requires Layout(g) && On(g, n, l)
  {
    && SameTables(g, g') && Layout(g') && k <= |targets| <= |Slots(g, n, l)|
    && Slots(g', n, l) == targets + Free(|Slots(g, n, l)| - |targets|)
    && (forall i {:trigger Slots(g', i, l)} :: i != n && On(g, i, l) ==>
          if i in targets[..k] then Added(sym, i, n, Slots(g, i, l), Slots(g', i, l), keepMax) else Slots(g', i, l) == Slots(g, i, l))
    && (forall i, m {:trigger Slots(g', i, m)} :: On(g, i, m) && m != l ==> Slots(g', i, m) == Slots(g, i, m))
  }

  lemma SetTables(g: Graph, i: nat, l: nat, s: seq<int>)
    requires Layout(g) && On(g, i, l) && |s| == g.cum[l + 1] - g.cum[l]
    ensures SameTables(g, SetSlots(g, i, l, s)) && Layout(SetSlots(g, i, l, s))
  {
    LayoutOfSet(g, i, l, s);
  }

  lemma AddedLength(sym: (int, int) -> real, src: int, dest: int, s: seq<int>, s': seq<int>, keepMax: bool)
    requires Added(sym, src, dest, s, s', keepMax)
    ensures |s'| == |s|
  {
  }

  lemma AddedToRoom(sym: (int, int) -> real, src: int, x: int, done: seq<int>, cap: nat, s': seq<int>, keepMax: bool)
    requires |done| < cap && (forall k :: 0 <= k < |done| ==> done[k] >= 0)
    requires Added(sym, src, x, done + Free(cap - |done|), s', keepMax)
    ensures |s'| == cap && s' == (done + [x]) + Free(cap - |done + [x]|)
  {
    var s := done + Free(cap - |done|);
    assert s[|s| - 1] == -1;
    var links := Links(s);
    assert |links| == |done| by {
      assert forall a :: 0 <= a < |links| ==> s[a] == links[a];
      assert s[|done|] == -1;
    }
  }

  /** Linking node n to its next target: there is always room. */
  lemma LinkOut(sym: (int, int) -> real, g: Graph, g': Graph, n: nat, l: nat, done: seq<int>, x: int, s': seq<int>,
      keepMax: bool)
    requires Layout(g) && On(g, n, l) && Joined(sym, g, g', n, l, done, 0, keepMax) && |done| < |Slots(g, n, l)|
    requires forall k :: 0 <= k < |done| ==> done[k] >= 0
    requires Added(sym, n, x, Slots(g', n, l), s', keepMax)
    ensures Joined(sym, g, SetSlots(g', n, l, s'), n, l, done + [x], 0, keepMax)
  {
    hide Layout, Slots, SetSlots, Links;
    var s := Slots(g', n, l);
    AddedToRoom(sym, n, x, done, |s|, s', keepMax);
    SetTables(g', n, l, s');
    var g2 := SetSlots(g', n, l, s');
    SlotsOfSet(g', n, l, s', n, l);
    forall i, m | On(g, i, m) && !(i == n && m == l) ensures Slots(g2, i, m) == Slots(g, i, m) {
      SlotsOfSet(g', n, l, s', i, m);
      assert Slots(g', i, m) == Slots(g, i, m);
    }
    assert (done + [x])[..0] == done[..0];
  }

  /** Linking the next target back to node n. */
  lemma LinkBack(sym: (int, int) -> real, g: Graph, g': Graph, n: nat, l: nat, targets: seq<int>, k: nat,
      s': seq<int>, keepMax: bool)
    requires Layout(g) && On(g, n, l) && k < |targets| && Joined(sym, g, g', n, l, targets, k, keepMax)
    requires targets[k] != n && On(g, targets[k], l) && targets[k] !in targets[..k]
    requires Added(sym, targets[k], n, Slots(g', targets[k], l), s', keepMax)
    ensures Joined(sym, g, SetSlots(g', targets[k], l, s'), n, l, targets, k + 1, keepMax)
    ensures Slots(g', targets[k], l) == Slots(g, targets[k], l)
  {
    hide Layout, Slots, SetSlots, Links, Free, Listed;
    var x := targets[k];
    assert Slots(g', x, l) == Slots(g, x, l);
    AddedLength(sym, x, n, Slots(g', x, l), s', keepMax);
    hide Added;
    SetTables(g', x, l, s');
    forall i, m | On(g, i, m)
      ensures Slots(SetSlots(g', x, l, s'), i, m) == if i == x && m == l then s' else Slots(g', i, m)
    {
      SlotsOfSet(g', x, l, s', i, m);
    }
    JoinedNext(sym, g, g', SetSlots(g', x, l, s'), n, l, targets, k, s', keepMax);
  }

  lemma JoinedNext(sym: (int, int) -> real, g: Graph, g': Graph, g2: Graph, n: nat, l: nat, targets: seq<int>, k: nat,
      s': seq<int>, keepMax: bool)
    requires Layout(g) && On(g, n, l) && k < |targets| && Joined(sym, g, g', n, l, targets, k, keepMax)
    requires targets[k] != n && On(g, targets[k], l) && targets[k] !in targets[..k]
    requires Added(sym, targets[k], n, Slots(g', targets[k], l), s', keepMax)
    requires SameTables(g', g2) && Layout(g2)
    requires forall i, m {:trigger Slots(g2, i, m)} :: On(g, i, m) ==>
               Slots(g2, i, m) == if i == targets[k] && m == l then s' else Slots(g', i, m)
    ensures Joined(sym, g, g2, n, l, targets, k + 1, keepMax)
  {
    hide Layout, Slots, Free, Added;
    assert targets[..k + 1] == targets[..k] + [targets[k]];
    assert Slots(g', targets[k], l) == Slots(g, targets[k], l);
    forall i | i != n && On(g, i, l)
      ensures if i in targets[..k + 1] then Added(sym, i, n, Slots(g, i, l), Slots(g2, i, l), keepMax)
              else Slots(g2, i, l) == Slots(g, i, l)
    {
      assert Slots(g', i, l) == Slots(g', i, l);
    }
    forall i, m | On(g, i, m) && m != l ensures Slots(g2, i, m) == Slots(g, i, m) {
      assert Slots(g', i, m) == Slots(g, i, m);
    }
  }

  /** The link targets: what shrinking leaves of the search's results. */
  ghost predicate Chosen(sym: (int, int) -> real, found: seq<Node>, d: seq<Node>, maxSize: nat, keepMax: bool) {
    Shrunk(sym, multiset(found), multiset(d), maxSize, keepMax) && 0 < |d| <= maxSize
  }

  /** They are distinct nodes of the level, none of them new. */
  lemma TargetsOk(e: Query, sym: (int, int) -> real, g: Graph, n: nat, l: nat, t: State, d: seq<Node>, maxSize: nat,
      keepMax: bool)
    requires Good(e, g, n, l, t, -1) && Chosen(sym, t.results.items, d, maxSize, keepMax)
    ensures Distinct(d) && forall k :: 0 <= k < |d| ==> 0 <= d[k].id < n && On(g, d[k].id, l)
  {
    var f := t.results.items;
    ShrunkWithin(sym, multiset(f), multiset(d), maxSize, keepMax);
    DistinctSub(f, d);
    forall k | 0 <= k < |d| ensures 0 <= d[k].id < n && On(g, d[k].id, l) {
      var i :| 0 <= i < |f| && f[i] == d[k];
      assert f[i].id in t.visited;
    }
  }

  lemma JoinedStart(sym: (int, int) -> real, g: Graph, n: nat, l: nat, keepMax: bool)
    requires LinksOk(g, n, l) && On(g, n, l)
    ensures Layout(g) && Joined(sym, g, g, n, l, [], 0, keepMax)
  {
    assert ListOk(g, Known(n, l, l), n, l);
    assert Slots(g, n, l) == [] + Free(|Slots(g, n, l)|);
  }

  /** The next target is not linked yet. */
  lemma TargetIsNew(sym: (int, int) -> real, g: Graph, g': Graph, n: nat, l: nat, d: seq<Node>, k: nat, keepMax: bool)
    requires Layout(g) && On(g, n, l) && k < |d| && Joined(sym, g, g', n, l, Ids(d[..k]), 0, keepMax)
    requires Distinct(d) && forall i :: 0 <= i < |d| ==> d[i].id >= 0
    ensures d[k].id !in Slots(g', n, l)
  {
  }

  /** Before it is linked back, a target has no link to node n. */
  lemma NotLinkedBack(sym: (int, int) -> real, g: Graph, g': Graph, n: nat, l: nat, targets: seq<int>, k: nat,
      keepMax: bool)
    requires LinksOk(g, n, l) && On(g, n, l) && k < |targets| && Joined(sym, g, g', n, l, targets, k, keepMax)
    requires targets[k] != n && On(g, targets[k], l) && targets[k] !in targets[..k]
    ensures n !in Slots(g', targets[k], l)
  {
    var x := targets[k];
    assert Slots(g', x, l) == Slots(g, x, l);
    assert ListOk(g, Known(n, l, l), x, l);
    forall a | 0 <= a < |Slots(g, x, l)| ensures Slots(g, x, l)[a] != n {
      assert Link(g, n, x, l, Slots(g, x, l)[a]);
    }
  }
}
