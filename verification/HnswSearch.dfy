/**
 What the search of one level computes while a point is inserted, and what that result means.
 */
module HnswSearch {
  import opened HnswSelect
  import opened HnswGraph
  import opened Collections

  /** Distance of each node to the query, size limit of the results, tie-breaking of both queues. */
  datatype Query = Query(dis: int -> real, ef: nat, near: Ties, far: Ties)

  datatype State = State(visited: set<int>, results: Queue, candidates: Queue)

  /** update_with_candidate */
  function Offer(e: Query, s: State, id: int): State
    requires e.ef > 0
  {
    var v := Node(e.dis(id), id);
    if |s.results.items| < e.ef || s.results.items[TopFar(e.far, s.results)].d > v.d then
      var r := Push(s.results, v);
      State(s.visited, if |r.items| > e.ef then PopAt(r, TopFar(e.far, r)) else r, Push(s.candidates, v))
    else s
  }

  function OfferAll(e: Query, s: State, ids: seq<int>): State
    requires e.ef > 0
  {
    if ids == [] then s else Offer(e, OfferAll(e, s, ids[..|ids| - 1]), ids[|ids| - 1])
  }

  function See(s: State, id: int): State {
    s.(visited := s.visited + {id})
  }

  /** The reference expansion over the first k links: mark, then offer, one node at a time. */
  function Expand(e: Query, s: State, links: seq<int>, k: nat): State
    requires e.ef > 0 && k <= |links|
  {
    if k == 0 then s
    else
      var t := Expand(e, s, links, k - 1);
      if links[k - 1] in t.visited then t else Offer(e, See(t, links[k - 1]), links[k - 1])
  }

  /** The links in front of the first free slot. */
  function Links(slots: seq<int>): (r: seq<int>)
    ensures |r| <= |slots| && r == slots[..|r|]
    ensures forall a :: 0 <= a < |r| ==> r[a] >= 0
    ensures |r| < |slots| ==> slots[|r|] < 0
  {
    if slots == [] || slots[0] < 0 then [] else [slots[0]] + Links(slots[1..])
  }

  /** Links of node i on level l. */
  ghost function Neighbors(g: Graph, l: nat, i: int): seq<int> {
    if Layout(g) && On(g, i, l) then Links(Slots(g, i, l)) else []
  }

  // -------------------------------------------------------------------------
  // Batches of four
  // -------------------------------------------------------------------------

  /** The links among the first k that were not seen before, in order. */
  function Unseen(links: seq<int>, visited: set<int>, k: nat): seq<int>
    requires k <= |links|
  {
    if k == 0 then []
    else
      var u := Unseen(links, visited, k - 1);
      if links[k - 1] in visited || links[k - 1] in u then u else u + [links[k - 1]]
  }

  function IdSet(ids: seq<int>): (r: set<int>)
    ensures forall x :: x in r <==> x in ids
  {
    set i | 0 <= i < |ids| :: ids[i]
  }

  function SeeAll(s: State, ids: seq<int>): State {
    s.(visited := s.visited + IdSet(ids))
  }

  lemma SeeOneMore(s: State, ids: seq<int>, id: int)
    ensures SeeAll(s, ids + [id]) == See(SeeAll(s, ids), id)
  {
    assert IdSet(ids + [id]) == IdSet(ids) + {id};
    assert SeeAll(s, ids + [id]).visited == See(SeeAll(s, ids), id).visited;
  }

  lemma OfferKeepsVisited(e: Query, s: State, id: int, more: set<int>)
    requires e.ef > 0
    ensures Offer(e, s.(visited := more), id) == Offer(e, s, id).(visited := more)
    ensures Offer(e, s, id).visited == s.visited
  {
  }

  lemma {:induction false} OfferAllKeepsVisited(e: Query, s: State, ids: seq<int>, more: set<int>)
    requires e.ef > 0
    ensures OfferAll(e, s.(visited := more), ids) == OfferAll(e, s, ids).(visited := more)
    ensures OfferAll(e, s, ids).visited == s.visited
  {
    if ids != [] {
      var front := ids[..|ids| - 1];
      OfferAllKeepsVisited(e, s, front, more);
      OfferKeepsVisited(e, OfferAll(e, s, front), ids[|ids| - 1], more);
    }
  }

  /** Marking all links first and offering afterwards, in any batches, is the same as the reference. */
  lemma {:induction false} BatchedIsReference(e: Query, s: State, links: seq<int>, k: nat)
    requires e.ef > 0 && k <= |links|
    ensures var u := Unseen(links, s.visited, k);
            Expand(e, s, links, k) == OfferAll(e, SeeAll(s, u), u)
  {
    hide Expand, OfferAll, Offer, IdSet;
    if k == 0 {
      NothingExpanded(e, s, links);
    } else {
      BatchedIsReference(e, s, links, k - 1);
      ExpandNext(e, s, links, k - 1);
      UnseenNext(links, s.visited, k - 1);
      var u, id := Unseen(links, s.visited, k - 1), links[k - 1];
      OfferAllKeepsVisited(e, SeeAll(s, u), u, SeeAll(s, u).visited);
      if id !in s.visited && id !in u { OneMoreOffered(e, s, u, id); }
    }
  }

  /** Marking one more node before the offers, or between them and its own offer, is the same. */
  lemma OneMoreOffered(e: Query, s: State, u: seq<int>, id: int)
    requires e.ef > 0
    ensures OfferAll(e, SeeAll(s, u + [id]), u + [id]) == Offer(e, See(OfferAll(e, SeeAll(s, u), u), id), id)
  {
    hide Offer, IdSet;
    var u' := u + [id];
    assert u'[..|u'| - 1] == u;
    SeeOneMore(s, u, id);
    OfferAllKeepsVisited(e, SeeAll(s, u), u, SeeAll(s, u').visited);
  }

  lemma NothingExpanded(e: Query, s: State, links: seq<int>)
    requires e.ef > 0
    ensures Expand(e, s, links, 0) == s && OfferAll(e, s, []) == s && SeeAll(s, []) == s
  {
    assert SeeAll(s, []).visited == s.visited;
  }

  lemma UnseenNext(links: seq<int>, visited: set<int>, k: nat)
    requires k < |links|
    ensures Unseen(links, visited, 0) == []
    ensures var u := Unseen(links, visited, k);
            Unseen(links, visited, k + 1) == if links[k] in visited || links[k] in u then u else u + [links[k]]
  {
  }

  lemma ExpandNext(e: Query, s: State, links: seq<int>, k: nat)
    requires e.ef > 0 && k <= |links|
    ensures k < |links| ==>
              var t := Expand(e, s, links, k);
              Expand(e, s, links, k + 1) == if links[k] in t.visited then t else Offer(e, See(t, links[k]), links[k])
  {
  }

  lemma {:induction false} OfferAppend(e: Query, s: State, a: seq<int>, b: seq<int>)
    requires e.ef > 0
    ensures OfferAll(e, s, a + b) == OfferAll(e, OfferAll(e, s, a), b)
  {
    if b == [] {
      assert a + b == a;
    } else {
      OfferAppend(e, s, a, b[..|b| - 1]);
      assert (a + b)[..|a + b| - 1] == a + b[..|b| - 1];
    }
  }

  // -------------------------------------------------------------------------
  // What a state keeps
  // -------------------------------------------------------------------------

  ghost predicate Exact(e: Query, s: seq<Node>) {
    forall k :: 0 <= k < |s| ==> s[k].d == e.dis(s[k].id)
  }

  ghost predicate Distinct(s: seq<Node>) {
    forall a, b :: 0 <= a < b < |s| ==> s[a].id != s[b].id
  }

  ghost predicate Has(s: seq<Node>, id: int) {
    exists k :: 0 <= k < |s| && s[k].id == id
  }

  /** Unless it is a result, a visited node is no nearer than any result, and the results are full. */
  ghost predicate Beaten(e: Query, r: seq<Node>, v: int) {
    Has(r, v) || (|r| == e.ef && forall k :: 0 <= k < |r| ==> r[k].d <= e.dis(v))
  }

  /** The results are the (at most ef) nearest of the visited nodes. */
  ghost predicate Best(e: Query, s: State) {
    var r := s.results.items;
    && 0 < |r| <= e.ef && Exact(e, r) && Distinct(r)
    && (forall k :: 0 <= k < |r| ==> r[k].id in s.visited)
    && (forall v {:trigger Beaten(e, r, v)} :: v in s.visited ==> Beaten(e, r, v))
  }

  ghost predicate Frontier(e: Query, s: State) {
    var c := s.candidates.items;
    Exact(e, c) && forall k :: 0 <= k < |c| ==> c[k].id in s.visited
  }

  lemma OfferBest(e: Query, s: State, id: int)
    requires e.ef > 0 && (Best(e, s) || (s.results.items == [] && s.visited == {})) && Frontier(e, s)
    requires id !in s.visited
    ensures Best(e, Offer(e, See(s, id), id)) && Frontier(e, Offer(e, See(s, id), id))
  {
    hide Beaten, Exact, Distinct;
    var r, v, s' := s.results.items, Node(e.dis(id), id), Offer(e, See(s, id), id);
    FrontierGrows(e, s, id);
    if |r| == e.ef && r[TopFar(e.far, s.results)].d <= v.d {
      Rejected(e, s, id);
    } else if |r| < e.ef {
      Accepted(e, s, id);
    } else {
      Replaced(e, s, id, TopFar(e.far, Push(s.results, v)));
    }
  }

  lemma FrontierGrows(e: Query, s: State, id: int)
    requires e.ef > 0 && Frontier(e, s)
    ensures Frontier(e, Offer(e, See(s, id), id))
  {
  }

  lemma Rejected(e: Query, s: State, id: int)
    requires e.ef > 0 && Best(e, s) && |s.results.items| == e.ef
    requires s.results.items[TopFar(e.far, s.results)].d <= e.dis(id)
    ensures Best(e, See(s, id))
  {
    assert Beaten(e, s.results.items, id);
  }

  lemma Accepted(e: Query, s: State, id: int)
    requires e.ef > 0 && (Best(e, s) || (s.results.items == [] && s.visited == {})) && id !in s.visited
    requires |s.results.items| < e.ef
    ensures Best(e, State(s.visited + {id}, Push(s.results, Node(e.dis(id), id)), s.candidates))
  {
    var r, v := s.results.items, Node(e.dis(id), id);
    var full := r + [v];
    forall w | w in s.visited + {id} ensures Beaten(e, full, w) { BeatenByMore(e, r, v, w, s.visited); }
  }

  lemma Replaced(e: Query, s: State, id: int, i: nat)
    requires e.ef > 0 && Best(e, s) && id !in s.visited && |s.results.items| == e.ef
    requires IsFarthest(s.results.items + [Node(e.dis(id), id)], i)
    ensures Best(e, State(s.visited + {id}, PopAt(Push(s.results, Node(e.dis(id), id)), i), s.candidates))
  {
    var r, v := s.results.items, Node(e.dis(id), id);
    var full := r + [v];
    var r' := Remove(full, i);
    SubListOk(e, r, v, i);
    forall k | 0 <= k < |r'| ensures r'[k].id in s.visited + {id} {
      assert r'[k] == full[if k < i then k else k + 1];
    }
    forall w | w in s.visited + {id} ensures Beaten(e, r', w) { BeatenAfterPop(e, r, v, i, w, s.visited); }
  }

  lemma SubListOk(e: Query, r: seq<Node>, v: Node, i: nat)
    requires Exact(e, r) && Distinct(r) && v.d == e.dis(v.id) && i <= |r|
    requires forall k :: 0 <= k < |r| ==> r[k].id != v.id
    ensures Exact(e, Remove(r + [v], i)) && Distinct(Remove(r + [v], i))
  {
    var full := r + [v];
    assert Distinct(full) && Exact(e, full);
    var r' := Remove(full, i);
    forall k | 0 <= k < |r'| ensures r'[k] == full[if k < i then k else k + 1] {}
  }

  lemma BeatenByMore(e: Query, r: seq<Node>, v: Node, w: int, visited: set<int>)
    requires |r| < e.ef && (w in visited ==> Beaten(e, r, w)) && (w in visited || w == v.id)
    ensures Beaten(e, r + [v], w)
  {
    if w == v.id {
      assert (r + [v])[|r|].id == w;
    } else {
      var k :| 0 <= k < |r| && r[k].id == w;
      assert (r + [v])[k].id == w;
    }
  }

  lemma BeatenAfterPop(e: Query, r: seq<Node>, v: Node, i: nat, w: int, visited: set<int>)
    requires |r| == e.ef && Exact(e, r) && v.d == e.dis(v.id) && IsFarthest(r + [v], i)
    requires (w in visited ==> Beaten(e, r, w)) && (w in visited || w == v.id)
    ensures Beaten(e, Remove(r + [v], i), w)
  {
    var full := r + [v];
    var r' := Remove(full, i);
    forall k | 0 <= k < |r'| ensures r'[k] == full[if k < i then k else k + 1] {}
    if w == v.id || Has(r, w) {
      var k := if w == v.id then |r| else var k :| 0 <= k < |r| && r[k].id == w; k;
      assert full[k].id == w && full[k].d == e.dis(w);
      if k < i { assert r'[k].id == w; }
      if k > i { assert r'[k - 1].id == w; }
    } else {
      assert forall k :: 0 <= k < |r| ==> full[k] == r[k];
      assert forall k :: 0 <= k < |r| ==> r[k].d <= e.dis(w);
      assert full[i].d <= e.dis(w) || i == |r|;
    }
  }

  /** Every visited node is one of the first n and exists on the level. */
  ghost predicate Reach(g: Graph, n: nat, l: nat, s: State) {
    forall v {:trigger v in s.visited} :: v in s.visited ==> 0 <= v < n && On(g, v, l)
  }

  ghost predicate Expanded(g: Graph, l: nat, visited: set<int>, id: int) {
    forall a :: 0 <= a < |Neighbors(g, l, id)| ==> Neighbors(g, l, id)[a] in visited
  }

  /** Every result is waiting to be expanded, was expanded, or is `busy` being expanded. */
  ghost predicate Pending(g: Graph, l: nat, s: State, busy: int) {
    forall k {:trigger s.results.items[k]} :: 0 <= k < |s.results.items| ==>
      var id := s.results.items[k].id;
      id == busy || Has(s.candidates.items, id) || Expanded(g, l, s.visited, id)
  }

  ghost predicate LevelOk(g: Graph, n: nat, l: nat) {
    Layout(g) && forall i {:trigger On(g, i, l)} :: On(g, i, l) ==> ListOk(g, n, i, l)
  }

  ghost predicate Good(e: Query, g: Graph, n: nat, l: nat, s: State, busy: int) {
    e.ef > 0 && LevelOk(g, n, l) && Best(e, s) && Frontier(e, s) && Reach(g, n, l, s) && Pending(g, l, s, busy)
  }

  /** Candidates still queued plus nodes not seen yet: what is left to do. */
  ghost function Work(n: nat, s: State): nat {
    |s.candidates.items| + |Upto(n) - s.visited|
  }

  lemma OfferWork(e: Query, n: nat, s: State, id: int)
    requires e.ef > 0 && 0 <= id < n && id !in s.visited
    ensures Work(n, Offer(e, See(s, id), id)) <= Work(n, s)
  {
    assert Upto(n) - (s.visited + {id}) == Upto(n) - s.visited - {id};
  }

  lemma OfferPending(e: Query, g: Graph, l: nat, s: State, busy: int, id: int)
    requires e.ef > 0 && Pending(g, l, s, busy)
    ensures Pending(g, l, Offer(e, See(s, id), id), busy)
  {
    var s' := Offer(e, See(s, id), id);
    var r, r' := s.results.items, s'.results.items;
    var c, c' := s.candidates.items, s'.candidates.items;
    forall x | Has(c, x) ensures Has(c', x) {
      var k :| 0 <= k < |c| && c[k].id == x;
      assert c'[k].id == x;
    }
    forall k | 0 <= k < |r'|
      ensures r'[k].id == busy || Has(c', r'[k].id) || Expanded(g, l, s'.visited, r'[k].id)
    {
      if k < |r| && r'[k] == r[k] {
      } else if k + 1 < |r| && r'[k] == r[k + 1] {
      } else {
        assert c'[|c|].id == id && r'[k].id == id;
      }
    }
  }

  lemma OfferGood(e: Query, g: Graph, n: nat, l: nat, s: State, busy: int, id: int)
    requires Good(e, g, n, l, s, busy) && id !in s.visited && 0 <= id < n && On(g, id, l)
    ensures Good(e, g, n, l, Offer(e, See(s, id), id), busy)
    ensures Work(n, Offer(e, See(s, id), id)) <= Work(n, s)
    ensures Offer(e, See(s, id), id).visited == s.visited + {id}
  {
    hide Best, Frontier, Pending, Beaten, LevelOk, Work;
    OfferBest(e, s, id);
    OfferWork(e, n, s, id);
    OfferPending(e, g, l, s, busy, id);
  }

  lemma MarkGood(e: Query, g: Graph, n: nat, l: nat, s: State, busy: int, id: int)
    requires e.ef > 0 && Good(e, g, n, l, s, busy) && 0 <= id < n && On(g, id, l)
    ensures var t := if id in s.visited then s else Offer(e, See(s, id), id);
            Good(e, g, n, l, t, busy) && Work(n, t) <= Work(n, s) && s.visited <= t.visited && id in t.visited
  {
    hide Good, Work;
    if id !in s.visited { OfferGood(e, g, n, l, s, busy, id); }
  }

  lemma {:induction false} ExpandGood(e: Query, g: Graph, n: nat, l: nat, s: State, busy: int, links: seq<int>, k: nat)
    requires e.ef > 0 && Good(e, g, n, l, s, busy) && k <= |links|
    requires forall a :: 0 <= a < |links| ==> 0 <= links[a] < n && On(g, links[a], l)
    ensures var t := Expand(e, s, links, k);
            && Good(e, g, n, l, t, busy) && Work(n, t) <= Work(n, s)
            && s.visited <= t.visited
            && (forall a :: 0 <= a < k ==> links[a] in t.visited)
  {
    hide Good, Work, Offer;
    if k > 0 {
      ExpandGood(e, g, n, l, s, busy, links, k - 1);
      MarkGood(e, g, n, l, Expand(e, s, links, k - 1), busy, links[k - 1]);
    }
  }

  /** The loop's exit test: no candidate left, or the nearest one is farther than every result. */
  predicate Done(e: Query, s: State) {
    s.candidates.items == []
    || (s.results.items != []
        && s.candidates.items[TopNear(e.near, s.candidates)].d > s.results.items[TopFar(e.far, s.results)].d)
  }

  function Nearest(e: Query, s: State): Node
    requires s.candidates.items != []
  {
    s.candidates.items[TopNear(e.near, s.candidates)]
  }

  function Taken(e: Query, s: State): State
    requires s.candidates.items != []
  {
    s.(candidates := PopAt(s.candidates, TopNear(e.near, s.candidates)))
  }

  ghost function Step(e: Query, g: Graph, l: nat, s: State): State
    requires e.ef > 0 && s.candidates.items != []
  {
    var links := Neighbors(g, l, Nearest(e, s).id);
    Expand(e, Taken(e, s), links, |links|)
  }

  lemma TakenGood(e: Query, g: Graph, n: nat, l: nat, s: State)
    requires Good(e, g, n, l, s, -1) && s.candidates.items != []
    ensures Good(e, g, n, l, Taken(e, s), Nearest(e, s).id) && Work(n, Taken(e, s)) < Work(n, s)
  {
    hide Best, Beaten, LevelOk;
    var i := TopNear(e.near, s.candidates);
    var c := s.candidates.items;
    var c' := Remove(c, i);
    forall k | 0 <= k < |c'| ensures c'[k] == c[if k < i then k else k + 1] {}
    forall x | Has(c, x) && x != c[i].id ensures Has(c', x) {
      var k :| 0 <= k < |c| && c[k].id == x;
      assert c'[if k < i then k else k - 1].id == x;
    }
    assert Best(e, Taken(e, s)) by { SameResults(e, s, Taken(e, s)); }
    forall k | 0 <= k < |s.results.items|
      ensures var id := s.results.items[k].id; id == c[i].id || Has(c', id) || Expanded(g, l, s.visited, id)
    {
      assert s.results.items[k] == s.results.items[k];
    }
  }

  lemma SameResults(e: Query, s: State, t: State)
    requires Best(e, s) && t.results == s.results && t.visited == s.visited
    ensures Best(e, t)
  {
  }

  lemma LinksOnLevel(g: Graph, n: nat, l: nat, i: int)
    requires LevelOk(g, n, l)
    ensures forall a ::
        0 <= a < |Neighbors(g, l, i)| ==>
          0 <= Neighbors(g, l, i)[a] < n && On(g, Neighbors(g, l, i)[a], l) && Neighbors(g, l, i)[a] != i
  {
    if On(g, i, l) {
      assert ListOk(g, n, i, l);
      assert Link(g, n, i, l, -1);
      forall a | 0 <= a < |Neighbors(g, l, i)| ensures Link(g, n, i, l, Neighbors(g, l, i)[a]) {
        assert Neighbors(g, l, i)[a] == Slots(g, i, l)[a];
      }
    }
  }

  lemma StepGood(e: Query, g: Graph, n: nat, l: nat, s: State)
    requires Good(e, g, n, l, s, -1) && s.candidates.items != []
    ensures Good(e, g, n, l, Step(e, g, l, s), -1) && Work(n, Step(e, g, l, s)) < Work(n, s)
    ensures s.visited <= Step(e, g, l, s).visited
  {
    hide Best, Beaten, Frontier, Work;
    var c := Nearest(e, s).id;
    var links := Neighbors(g, l, c);
    TakenGood(e, g, n, l, s);
    LinksOnLevel(g, n, l, c);
    ExpandGood(e, g, n, l, Taken(e, s), c, links, |links|);
    assert Expanded(g, l, Step(e, g, l, s).visited, c);
  }

  /** The state in which the search stops. It terminates because each node is seen once. */
  ghost function Search(e: Query, g: Graph, n: nat, l: nat, s: State): (t: State)
    requires Good(e, g, n, l, s, -1)
    ensures Good(e, g, n, l, t, -1) && Done(e, t) && s.visited <= t.visited
    decreases Work(n, s)
  {
    if Done(e, s) then s
    else
      StepGood(e, g, n, l, s);
      Search(e, g, n, l, Step(e, g, l, s))
  }

  function Start(e: Query, entry: int): State {
    var v := Node(e.dis(entry), entry);
    State({entry}, Push(Empty, v), Push(Empty, v))
  }

  lemma StartGood(e: Query, g: Graph, n: nat, l: nat, entry: int)
    requires e.ef > 0 && LevelOk(g, n, l) && 0 <= entry < n && On(g, entry, l)
    ensures Good(e, g, n, l, Start(e, entry), -1)
  {
    var s := Start(e, entry);
    assert s.candidates.items[0].id == entry && s.results.items[0].id == entry;
    assert Beaten(e, s.results.items, entry);
    assert Has(s.candidates.items, entry);
  }

  ghost function SearchFrom(e: Query, g: Graph, n: nat, l: nat, entry: int): (t: State)
    requires e.ef > 0 && LevelOk(g, n, l) && 0 <= entry < n && On(g, entry, l)
    ensures Good(e, g, n, l, t, -1) && Done(e, t) && entry in t.visited
  {
    StartGood(e, g, n, l, entry);
    Search(e, g, n, l, Start(e, entry))
  }

  /** MAIN: the results of a level search are the (at most ef) nearest of all nodes it visited, and
      every link of every result was visited: a link that is no result is no nearer than any result,
      and then there are ef results. */
  lemma SearchIsLocallyComplete(e: Query, g: Graph, n: nat, l: nat, entry: int, k: nat, a: nat)
    requires e.ef > 0 && LevelOk(g, n, l) && 0 <= entry < n && On(g, entry, l)
    requires var r := SearchFrom(e, g, n, l, entry).results.items; k < |r| && a < |Neighbors(g, l, r[k].id)|
    ensures var t := SearchFrom(e, g, n, l, entry);
            var r := t.results.items;
            var x := Neighbors(g, l, r[k].id)[a];
            && Best(e, t) && x in t.visited
            && (Has(r, x) || (|r| == e.ef && forall j :: 0 <= j < |r| ==> r[j].d <= e.dis(x)))
  {
    var t := SearchFrom(e, g, n, l, entry);
    var r, c := t.results.items, t.candidates.items;
    var x := Neighbors(g, l, r[k].id)[a];
    forall m | 0 <= m < |c| ensures c[m].id != r[k].id {
      assert c[m].d > r[k].d;
    }
    assert Expanded(g, l, t.visited, r[k].id);
    assert Beaten(e, r, x);
  }
}
