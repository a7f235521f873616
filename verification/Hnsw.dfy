/**
 The HNSW graph and the driver that inserts points one at a time. Distances are arbitrary functions;
 random levels are inputs.
 */
module Hnsw {
  import opened HnswSelect
  import opened HnswGraph
  import opened HnswSearch
  import opened HnswLinks
  import opened HnswInsertion
  import opened Collections
  import opened VisitedTables

  // -------------------------------------------------------------------------
  // Expanding one node
  // -------------------------------------------------------------------------

  method UpdateWithCandidate(e: Query, results: Queue, candidates: Queue, id: int, ghost visited: set<int>)
    returns (results': Queue, candidates': Queue)
    requires e.ef > 0
    ensures State(visited, results', candidates') == Offer(e, State(visited, results, candidates), id)
  {
    results', candidates' := results, candidates;
    var v := Node(e.dis(id), id);
    if |results.items| < e.ef || results.items[TopFar(e.far, results)].d > v.d {
      results' := Push(results', v);
      candidates' := Push(candidates', v);
      if |results'.items| > e.ef {
        results' := PopAt(results', TopFar(e.far, results'));
      }
    }
  }

  /** The reference version: one neighbour at a time. */
  method ExpandReference(e: Query, neighbors: seq<int>, begin: nat, end: nat, results: Queue, candidates: Queue,
      vt: VisitedTable)
    returns (results': Queue, candidates': Queue)
    requires e.ef > 0 && begin <= end <= |neighbors| && vt.Valid()
    requires forall i :: begin <= i < end ==> neighbors[i] < vt.size
    modifies vt
    ensures vt.Valid()
    ensures var links := Links(neighbors[begin..end]);
            State(vt.Flags(), results', candidates') == Expand(e, State(old(vt.Flags()), results, candidates), links,
                |links|)
  {
    hide Links, Expand, Offer, VisitedTable.Flags, VisitedTable.Valid;
    ghost var slots := neighbors[begin..end];
    ghost var links, s := Links(slots), State(vt.Flags(), results, candidates);
    NothingExpanded(e, s, links);
    results', candidates' := results, candidates;
    var i := begin;
    while i < end
      invariant begin <= i <= end && i - begin <= |links| && vt.Valid()
      invariant State(vt.Flags(), results', candidates') == Expand(e, s, links, i - begin)
    {
      var nodeId := neighbors[i];
      LinkAt(slots, i - begin);
      ExpandNext(e, s, links, i - begin);
      if nodeId < 0 { break; }
      var changed := vt.Set(nodeId);
      if changed {
        results', candidates' := UpdateWithCandidate(e, results', candidates', nodeId, vt.Flags());
      }
      i := i + 1;
    }
  }

  /** The optimized version: distances of four new neighbours at a time, then the leftovers. */
  method ExpandBatched(e: Query, neighbors: seq<int>, begin: nat, end: nat, results: Queue, candidates: Queue,
      vt: VisitedTable)
    returns (results': Queue, candidates': Queue)
    requires e.ef > 0 && begin <= end <= |neighbors| && vt.Valid()
    requires forall i :: begin <= i < end ==> neighbors[i] < vt.size
    modifies vt
    ensures vt.Valid()
    ensures var links := Links(neighbors[begin..end]);
            State(vt.Flags(), results', candidates') == Expand(e, State(old(vt.Flags()), results, candidates), links,
                |links|)
  {
    hide Links, Expand, Offer, OfferAll, Batching, VisitedTable.Flags, VisitedTable.Valid;
    ghost var slots := neighbors[begin..end];
    ghost var links, s := Links(slots), State(vt.Flags(), results, candidates);
    results', candidates' := results, candidates;
    var buffered: seq<int> := [];
    ghost var offered: seq<int> := [];
    BatchStart(e, s, links);
    var j := begin;
    while j < end
      invariant begin <= j <= end && j - begin <= |links| && vt.Valid() && |buffered| < 4
      invariant Batching(e, s, links, j - begin, vt.Flags(), results', candidates', offered, buffered)
    {
      var nodeId := neighbors[j];
      LinkAt(slots, j - begin);
      if nodeId < 0 { break; }
      ghost var flags := vt.Flags();
      var changed := vt.Set(nodeId);
      BatchMark(e, s, links, j - begin, flags, results', candidates', offered, buffered);
      j := j + 1;
      if changed {
        buffered := buffered + [nodeId];
        if |buffered| == 4 {
          ghost var r, c := results', candidates';
          results', candidates' := OfferBuffer(e, buffered, results', candidates', vt.Flags());
          BatchFlush(e, s, links, j - begin, vt.Flags(), r, c, results', candidates', offered, buffered);
          offered := offered + buffered;
          buffered := [];
        }
      }
    }
    ghost var r, c := results', candidates';
    results', candidates' := OfferBuffer(e, buffered, results', candidates', vt.Flags());
    BatchFlush(e, s, links, |links|, vt.Flags(), r, c, results', candidates', offered, buffered);
  }

  /** k links were looked at: those not seen before are marked; they are offered but for the buffered ones. */
  ghost predicate Batching(e: Query, s: State, links: seq<int>, k: nat, flags: set<int>, results: Queue,
      candidates: Queue, offered: seq<int>, buffered: seq<int>) {
    && e.ef > 0 && k <= |links|
    && offered + buffered == Unseen(links, s.visited, k)
    && flags == SeeAll(s, offered + buffered).visited
    && State(flags, results, candidates) == OfferAll(e, s.(visited := flags), offered)
  }

  lemma BatchStart(e: Query, s: State, links: seq<int>)
    requires e.ef > 0
    ensures Batching(e, s, links, 0, s.visited, s.results, s.candidates, [], [])
  {
    NothingExpanded(e, s, links);
  }

  lemma BatchMark(e: Query, s: State, links: seq<int>, k: nat, flags: set<int>, results: Queue, candidates: Queue,
      offered: seq<int>, buffered: seq<int>)
    requires k < |links| && Batching(e, s, links, k, flags, results, candidates, offered, buffered)
    ensures var buffered' := if links[k] in flags then buffered else buffered + [links[k]];
            Batching(e, s, links, k + 1, flags + {links[k]}, results, candidates, offered, buffered')
  {
    hide OfferAll;
    var flags', id := flags + {links[k]}, links[k];
    OfferAllKeepsVisited(e, s.(visited := flags), offered, flags');
    SeeOneMore(s, offered + buffered, id);
    assert offered + (buffered + [id]) == offered + buffered + [id];
    if id in flags { assert flags' == flags; }
  }

  /** Offering the buffer; at the end this is the reference expansion. */
  lemma BatchFlush(e: Query, s: State, links: seq<int>, k: nat, flags: set<int>, results: Queue, candidates: Queue,
      results': Queue, candidates': Queue, offered: seq<int>, buffered: seq<int>)
    requires Batching(e, s, links, k, flags, results, candidates, offered, buffered)
    requires State(flags, results', candidates') == OfferAll(e, State(flags, results, candidates), buffered)
    ensures Batching(e, s, links, k, flags, results', candidates', offered + buffered, [])
    ensures State(flags, results', candidates') == Expand(e, s, links, k)
  {
    OfferAppend(e, s.(visited := flags), offered, buffered);
    assert offered + buffered + [] == offered + buffered;
    BatchedIsReference(e, s, links, k);
  }

  lemma LinkAt(slots: seq<int>, k: nat)
    requires k <= |Links(slots)| && k < |slots|
    ensures slots[k] < 0 <==> k == |Links(slots)|
    ensures k < |Links(slots)| ==> Links(slots)[k] == slots[k]
  {
  }

  method OfferBuffer(e: Query, buffered: seq<int>, results: Queue, candidates: Queue, ghost visited: set<int>)
    returns (results': Queue, candidates': Queue)
    requires e.ef > 0
    ensures State(visited, results', candidates') == OfferAll(e, State(visited, results, candidates), buffered)
  {
    results', candidates' := results, candidates;
    for k := 0 to |buffered|
      invariant State(visited, results', candidates') == OfferAll(e, State(visited, results, candidates), buffered[..k])
    {
      assert buffered[..k + 1][..k] == buffered[..k];
      results', candidates' := UpdateWithCandidate(e, results', candidates', buffered[k], visited);
    }
    assert buffered[..|buffered|] == buffered;
  }

  // -------------------------------------------------------------------------
  // Greedy descent
  // -------------------------------------------------------------------------

  function Closer(dis: int -> real, best: Node, id: int): Node {
    if dis(id) < best.d then Node(dis(id), id) else best
  }

  function Closest(dis: int -> real, best: Node, ids: seq<int>): Node {
    if ids == [] then best else Closer(dis, Closest(dis, best, ids[..|ids| - 1]), ids[|ids| - 1])
  }

  lemma {:induction false} ClosestIsMinimal(dis: int -> real, best: Node, ids: seq<int>)
    ensures var c := Closest(dis, best, ids);
            && (c == best || (c.d < best.d && c.id in ids && c.d == dis(c.id)))
            && c.d <= best.d && (forall k :: 0 <= k < |ids| ==> c.d <= dis(ids[k]))
  {
    if ids != [] {
      ClosestIsMinimal(dis, best, ids[..|ids| - 1]);
      assert ids == ids[..|ids| - 1] + [ids[|ids| - 1]];
    }
  }

  lemma {:induction false} ClosestAppend(dis: int -> real, best: Node, a: seq<int>, b: seq<int>)
    ensures Closest(dis, best, a + b) == Closest(dis, Closest(dis, best, a), b)
  {
    if b == [] {
      assert a + b == a;
    } else {
      ClosestAppend(dis, best, a, b[..|b| - 1]);
      assert (a + b)[..|a + b| - 1] == a + b[..|b| - 1];
    }
  }

  method UpdateAll(dis: int -> real, best: Node, buffered: seq<int>) returns (best': Node)
    ensures best' == Closest(dis, best, buffered)
  {
    best' := best;
    for k := 0 to |buffered|
      invariant best' == Closest(dis, best, buffered[..k])
    {
      assert buffered[..k + 1][..k] == buffered[..k];
      best' := Closer(dis, best', buffered[k]);
    }
    assert buffered[..|buffered|] == buffered;
  }

  /** One round over a node's links, four distances at a time. */
  method GreedyRound(dis: int -> real, neighbors: seq<int>, begin: nat, end: nat, best: Node) returns (best': Node)
    requires begin <= end <= |neighbors|
    ensures best' == Closest(dis, best, Links(neighbors[begin..end]))
  {
    hide Links, Closest;
    ghost var slots := neighbors[begin..end];
    ghost var links := Links(slots);
    best' := best;
    var buffered: seq<int> := [];
    ghost var done: seq<int> := [];
    assert Closest(dis, best, []) == best by { ClosestIsMinimal(dis, best, []); }
    var j := begin;
    while j < end
      invariant begin <= j <= end && j - begin <= |links| && |buffered| < 4
      invariant done + buffered == links[..j - begin] && best' == Closest(dis, best, done)
    {
      var v := neighbors[j];
      LinkAt(slots, j - begin);
      if v < 0 { break; }
      buffered := buffered + [v];
      j := j + 1;
      if |buffered| == 4 {
        best' := UpdateAll(dis, best', buffered);
        ClosestAppend(dis, best, done, buffered);
        done := done + buffered;
        buffered := [];
      }
    }
    best' := UpdateAll(dis, best', buffered);
    ClosestAppend(dis, best, done, buffered);
    assert done + buffered == links;
  }

  /** Nodes that would still improve on distance d: the descent's measure. */
  ghost function Improving(dis: int -> real, n: nat, d: real): set<int> {
    set i | i in Upto(n) && dis(i) < d
  }

  lemma ImprovingShrinks(dis: int -> real, n: nat, d: real, id: int)
    requires 0 <= id < n && dis(id) < d
    ensures |Improving(dis, n, dis(id))| < |Improving(dis, n, d)|
  {
    assert id in Improving(dis, n, d);
    Smaller(Improving(dis, n, dis(id)), Improving(dis, n, d) - {id});
  }

  // -------------------------------------------------------------------------
  // The graph object
  // -------------------------------------------------------------------------

  class HNSW {
    var cum: seq<nat>
    var levels: seq<nat>
    var offsets: seq<nat>
    var neighbors: seq<int>
    var entryPoint: int
    var maxLevel: int
    var efConstruction: nat

    ghost function G(): Graph
      reads this
    {
      Graph(cum, levels, offsets, neighbors)
    }

    /** 2 * M links on level 0, M on each of the other levels; `nLevels` levels are likely enough. */
    constructor (M: nat, nLevels: nat)
      requires M > 0 && nLevels > 0
      ensures GraphOk(G(), 0) && EntryOk(G(), 0, entryPoint, maxLevel) && levels == [] && efConstruction == 40
      ensures |cum| == nLevels + 1 && forall l :: 0 < l <= nLevels ==> cum[l] == M * (l + 1)
    {
      cum := seq(nLevels + 1, l requires 0 <= l => if l == 0 then 0 else M * (l + 1));
      levels, offsets, neighbors := [], [0], [];
      entryPoint, maxLevel, efConstruction := -1, -1, 40;
      new;
      forall l, m | 0 <= l < m < |cum| ensures cum[l] < cum[m] {
        assert M * (m + 1) == M * (l + 1) + M * (m - l);
        assert M * (m - l) >= M by { MulAtLeast(M, m - l); }
        MulAtLeast(M, l + 1);
      }
    }

    method NeighborRange(no: nat, layer: nat) returns (begin: nat, end: nat)
      requires Layout(G()) && On(G(), no, layer)
      ensures begin == Begin(G(), no, layer) && end == End(G(), no, layer) && begin < end <= |neighbors|
      ensures neighbors[begin..end] == Slots(G(), no, layer)
    {
      assert layer + 1 < |cum|;
      begin := offsets[no] + cum[layer];
      end := offsets[no] + cum[layer + 1];
    }

    /** The batched search and the reference search both compute SearchFrom; the flags end up reset. */
    method SearchNeighborsToAdd(e: Query, entry: int, dEntry: real, level: nat, vt: VisitedTable, reference: bool,
        ghost n: nat)
      returns (results: Queue)
      requires e.ef == efConstruction > 0 && LevelOk(G(), n, level) && 0 <= entry < n && On(G(), entry, level)
      requires dEntry == e.dis(entry) && vt.Valid() && vt.Flags() == {} && n <= vt.size
      modifies vt
      ensures vt.Valid() && vt.Flags() == {}
      ensures results == SearchFrom(e, G(), n, level, entry).results
    {
      hide LevelOk, Good, VisitedTable.Flags, VisitedTable.Valid, Work, Done, Expand, On, Search, IsNearest,
          IsFarthest, Best, Frontier, Pending, Reach;
      ghost var g, found := G(), SearchFrom(e, G(), n, level, entry);
      StartGood(e, g, n, level, entry);
      ghost var s := Start(e, entry);
      var ev := Node(dEntry, entry);
      var candidates := Push(Empty, ev);
      results := Push(Empty, ev);
      var _ := vt.Set(entry);
      while candidates.items != []
        invariant vt.Valid() && s == State(vt.Flags(), results, candidates)
        invariant Good(e, g, n, level, s, -1) && Search(e, g, n, level, s) == found
        decreases Work(n, s)
      {
        NotEmpty(e, g, n, level, s);
        var i := TopNear(e.near, candidates);
        var curr := candidates.items[i];
        SearchUnfolds(e, g, n, level, s);
        if curr.d > results.items[TopFar(e.far, results)].d { break; }
        candidates := PopAt(candidates, i);
        CandidateOk(e, g, n, level, s, i, vt.size);
        var begin, end := NeighborRange(curr.id, level);
        SliceBound(neighbors, begin, end, vt.size);
        ghost var before := vt.Flags();
        if reference {
          results, candidates := ExpandReference(e, neighbors, begin, end, results, candidates, vt);
        } else {
          results, candidates := ExpandBatched(e, neighbors, begin, end, results, candidates, vt);
        }
        assert Taken(e, s) == State(before, s.results, PopAt(s.candidates, i));
        StepGood(e, g, n, level, s);
        s := Step(e, g, level, s);
      }
      SearchUnfolds(e, g, n, level, s);
      vt.Advance();
    }

    /** Ends at a node none of whose links on the level is closer, never farther than the start. */
    method GreedyUpdateNearest(dis: int -> real, level: nat, nearest: int, dNearest: real, ghost n: nat)
      returns (nearest': int, dNearest': real)
      requires LevelOk(G(), n, level) && 0 <= nearest < n && On(G(), nearest, level) && dNearest == dis(nearest)
      ensures 0 <= nearest' < n && On(G(), nearest', level) && dNearest' == dis(nearest') <= dNearest
      ensures LocalMinimum(dis, G(), level, nearest')
    {
      nearest', dNearest' := nearest, dNearest;
      while true
        invariant 0 <= nearest' < n && On(G(), nearest', level) && dNearest' == dis(nearest') <= dNearest
        decreases |Improving(dis, n, dNearest')|
      {
        hide LevelOk, Links, On, Closest;
        var prev, dPrev := nearest', dNearest';
        LinksOnLevel(G(), n, level, nearest');
        NeighborsAre(G(), n, level, nearest');
        var begin, end := NeighborRange(nearest', level);
        var best := GreedyRound(dis, neighbors, begin, end, Node(dNearest', nearest'));
        ClosestIsMinimal(dis, Node(dPrev, prev), Neighbors(G(), level, prev));
        nearest', dNearest' := best.id, best.d;
        if nearest' == prev { return; }
        ImprovingShrinks(dis, n, dPrev, nearest');
      }
    }

    /** There is a free slot: take the first one. */
    method PlaceLink(sym: (int, int) -> real, src: nat, dest: nat, level: nat, keepMax: bool, ghost slots: seq<int>)
      returns (ghost slots': seq<int>)
      requires Layout(G()) && On(G(), src, level) && slots == Slots(G(), src, level) && slots[|slots| - 1] == -1
      requires Listed(slots) && forall a :: 0 <= a < |slots| ==> slots[a] >= -1
      modifies this`neighbors
      ensures Added(sym, src, dest, slots, slots', keepMax) && G() == SetSlots(old(G()), src, level, slots')
    {
      hide Layout, On, Links, Listed;
      var begin, end := NeighborRange(src, level);
      ghost var before := neighbors;
      var i := end;
      while i > begin
        invariant begin <= i <= end && neighbors == before
        invariant forall a :: i - begin <= a < |slots| ==> slots[a] == -1
      {
        assert neighbors[i - 1] == slots[i - 1 - begin];
        if neighbors[i - 1] != -1 { break; }
        i := i - 1;
      }
      RoomAt(slots, i - begin);
      slots' := slots[i - begin := dest];
      neighbors := neighbors[i := dest];
      OneSlot(before, begin, end, i, dest);
    }

    /** The block is full: the new node and the old links fight for the slots. */
    method FightForLink(sym: (int, int) -> real, near: Ties, far: Ties, src: nat, dest: nat, level: nat,
        keepMax: bool, ghost slots: seq<int>)
      returns (ghost slots': seq<int>)
      requires Layout(G()) && On(G(), src, level) && slots == Slots(G(), src, level) && slots[|slots| - 1] != -1
      modifies this`neighbors
      ensures Added(sym, src, dest, slots, slots', keepMax) && G() == SetSlots(old(G()), src, level, slots')
    {
      hide Layout, On, Shrunk, Fight, Drain, Added, Ids, Free;
      var begin, end := NeighborRange(src, level);
      ghost var before, fight := neighbors, Fight(sym, src, dest, slots);
      var resultSet := Gather(sym, src, dest, begin, end);
      resultSet := ShrinkResultSet(sym, near, far, resultSet, end - begin, keepMax);
      ghost var d := Drain(far, resultSet);
      DrainIsAll(far, resultSet);
      slots' := Ids(d) + Free(|slots| - |d|);
      WriteBack(far, resultSet, begin, end);
      FightAdded(sym, src, dest, slots, d, keepMax);
      assert neighbors == before[..begin] + slots' + before[end..];
    }

    method Gather(sym: (int, int) -> real, src: nat, dest: nat, begin: nat, end: nat) returns (resultSet: Queue)
      requires begin <= end <= |neighbors|
      ensures resultSet.items == Fight(sym, src, dest, neighbors[begin..end])
    {
      ghost var slots := neighbors[begin..end];
      ghost var fight := Fight(sym, src, dest, slots);
      resultSet := Push(Empty, Node(sym(src, dest), dest));
      for i := begin to end
        invariant resultSet.items == fight[..i - begin + 1]
      {
        var neigh := neighbors[i];
        assert neigh == slots[i - begin];
        resultSet := Push(resultSet, Node(sym(src, neigh), neigh));
      }
    }

    /** The slots are overwritten in the order the queue is popped, the rest is freed. */
    method WriteBack(far: Ties, resultSet: Queue, begin: nat, end: nat)
      requires begin + |resultSet.items| <= end <= |neighbors|
      modifies this`neighbors
      ensures |Drain(far, resultSet)| == |resultSet.items|
      ensures var d := Drain(far, resultSet);
              neighbors == old(neighbors)[..begin] + (Ids(d) + Free(end - begin - |d|)) + old(neighbors)[end..]
    {
      ghost var before := neighbors;
      DrainIsAll(far, resultSet);
      var i := WriteQueue(far, resultSet, begin);
      ghost var w := FreeRest(i, end, before, begin, Ids(Drain(far, resultSet)));
    }

    method WriteQueue(far: Ties, resultSet: Queue, begin: nat) returns (i: nat)
      requires begin + |resultSet.items| <= |neighbors|
      modifies this`neighbors
      ensures |Drain(far, resultSet)| == |resultSet.items| && i == begin + |resultSet.items|
      ensures neighbors == Patch(old(neighbors), begin, Ids(Drain(far, resultSet)))
    {
      hide Drain, Patch, IsFarthest, Remove;
      ghost var before, d := neighbors, Drain(far, resultSet);
      DrainIsAll(far, resultSet);
      var q := resultSet;
      i := begin;
      ghost var out: seq<Node> := [];
      PatchNothing(before, begin);
      while q.items != []
        invariant out + Drain(far, q) == d && i == begin + |out| && |out| + |q.items| == |d|
        invariant neighbors == Patch(before, begin, Ids(out))
        decreases |q.items|
      {
        var top := TopFar(far, q);
        PopOne(far, q, out);
        var id := q.items[top].id;
        PatchOne(before, begin, Ids(out), id);
        neighbors := neighbors[i := id];
        out := out + [q.items[top]];
        q := PopAt(q, top);
        i := i + 1;
      }
      DrainIsAll(far, q);
      assert out == d;
    }

    /** They may have shrunk by more than one element. */
    method FreeRest(from: nat, end: nat, ghost before: seq<int>, ghost begin: nat, ghost w: seq<int>)
      returns (ghost w': seq<int>)
      requires from == begin + |w| <= end <= |before| && neighbors == Patch(before, begin, w)
      modifies this`neighbors
      ensures w' == w + Free(end - from) && neighbors == Patch(before, begin, w')
    {
      hide Patch;
      w' := w;
      var i := from;
      while i < end
        invariant from <= i <= end && w' == w + Free(i - from)
        invariant neighbors == Patch(before, begin, w')
      {
        PatchOne(before, begin, w', -1);
        neighbors := neighbors[i := -1];
        w' := w' + [-1];
        i := i + 1;
      }
    }

    /** add_link */
    method AddLink(sym: (int, int) -> real, near: Ties, far: Ties, src: nat, dest: nat, level: nat, keepMax: bool,
        ghost n: nat, ghost top: int)
      returns (ghost slots': seq<int>)
      requires LinksOk(G(), n, top) && On(G(), src, level) && On(G(), dest, level) && src != dest
      requires src < Known(n, level, top) && dest < Known(n, level, top) && dest !in Slots(G(), src, level)
      modifies this`neighbors
      ensures Added(sym, src, dest, Slots(old(G()), src, level), slots', keepMax)
      ensures |slots'| == |Slots(old(G()), src, level)| && G() == SetSlots(old(G()), src, level, slots')
      ensures LinksOk(G(), n, top)
    {
      hide LinksOk, Layout, On, Added;
      BlockOk(G(), n, top, src, level);
      ghost var g, slots := G(), Slots(G(), src, level);
      var begin, end := NeighborRange(src, level);
      assert neighbors[end - 1] == slots[|slots| - 1];
      if neighbors[end - 1] == -1 {
        slots' := PlaceLink(sym, src, dest, level, keepMax, slots);
      } else {
        slots' := FightForLink(sym, near, far, src, dest, level, keepMax, slots);
      }
      AddedLength(sym, src, dest, slots, slots', keepMax);
      AddedKeepsLinks(sym, g, n, top, src, dest, level, slots', keepMax);
    }

    /** Links from node ptId to its targets, in the order the queue is popped. */
    method LinkTargets(sym: (int, int) -> real, near: Ties, far: Ties, ptId: nat, level: nat, linkTargets: Queue,
        keepMax: bool, ghost g: Graph)
      returns (neighborsToAdd: seq<int>)
      requires G() == g && LinksOk(g, ptId, level) && On(g, ptId, level)
      requires |linkTargets.items| <= |Slots(g, ptId, level)|
      requires var d := Drain(far, linkTargets); Distinct(d) && forall k :: 0 <= k < |d| ==>
          0 <= d[k].id < ptId && On(g, d[k].id, level)
      modifies this`neighbors
      ensures neighborsToAdd == Ids(Drain(far, linkTargets)) && LinksOk(G(), ptId, level - 1)
      ensures Joined(sym, g, G(), ptId, level, neighborsToAdd, 0, keepMax)
    {
      hide LinksOk, Layout, Joined, Drain, IsFarthest, Remove, On;
      ghost var d := Drain(far, linkTargets);
      DrainIsAll(far, linkTargets);
      var q := linkTargets;
      neighborsToAdd := [];
      ghost var done: seq<Node> := [];
      LayoutHolds(g, ptId, level);
      JoinedStart(sym, g, ptId, level, keepMax);
      KnowMore(g, ptId, level, level - 1);
      while q.items != []
        invariant done + Drain(far, q) == d && |done| + |q.items| == |d| && neighborsToAdd == Ids(done)
        invariant LinksOk(G(), ptId, level - 1) && Joined(sym, g, G(), ptId, level, neighborsToAdd, 0, keepMax)
        decreases |q.items|
      {
        var top := TopFar(far, q);
        PopOne(far, q, done);
        assert d[..|done|] == done && d[|done|] == q.items[top];
        LinkNext(sym, near, far, ptId, level, neighborsToAdd, q.items[top].id, keepMax, g, d);
        neighborsToAdd := neighborsToAdd + [q.items[top].id];
        done := done + [q.items[top]];
        q := PopAt(q, top);
      }
      DrainIsAll(far, q);
      assert done == d;
    }

    method LinkNext(sym: (int, int) -> real, near: Ties, far: Ties, ptId: nat, level: nat, ghost targets: seq<int>,
        otherId: int, keepMax: bool, ghost g: Graph, ghost d: seq<Node>)
      requires Layout(g) && On(g, ptId, level) && LinksOk(G(), ptId, level - 1)
      requires Joined(sym, g, G(), ptId, level, targets, 0, keepMax)
      requires Distinct(d) && forall k :: 0 <= k < |d| ==> 0 <= d[k].id < ptId && On(g, d[k].id, level)
      requires |targets| < |d| <= |Slots(g, ptId, level)| && targets == Ids(d[..|targets|])
      requires otherId == d[|targets|].id
      modifies this`neighbors
      ensures LinksOk(G(), ptId, level - 1) && Joined(sym, g, G(), ptId, level, targets + [otherId], 0, keepMax)
    {
      hide LinksOk, Layout, Joined, Added;
      ghost var g1 := G();
      TargetIsNew(sym, g, g1, ptId, level, d, |targets|, keepMax);
      TablesOf(sym, g, g1, ptId, level, targets, 0, keepMax);
      ghost var slots' := AddLink(sym, near, far, ptId, otherId, level, keepMax, ptId, level - 1);
      LinkOut(sym, g, g1, ptId, level, targets, otherId, slots', keepMax);
    }

    /** Links from each target back to node ptId. */
    method LinkBackAll(sym: (int, int) -> real, near: Ties, far: Ties, ptId: nat, level: nat,
        neighborsToAdd: seq<int>, keepMax: bool, ghost g: Graph)
      requires LinksOk(g, ptId, level) && On(g, ptId, level)
      requires LinksOk(G(), ptId, level - 1) && Joined(sym, g, G(), ptId, level, neighborsToAdd, 0, keepMax)
      requires forall k ::
          0 <= k < |neighborsToAdd| ==> 0 <= neighborsToAdd[k] < ptId && On(g, neighborsToAdd[k], level)
      requires forall a, b :: 0 <= a < b < |neighborsToAdd| ==> neighborsToAdd[a] != neighborsToAdd[b]
      modifies this`neighbors
      ensures LinksOk(G(), ptId, level - 1)
      ensures Joined(sym, g, G(), ptId, level, neighborsToAdd, |neighborsToAdd|, keepMax)
    {
      hide LinksOk, Layout, Joined, Added, Listed;
      LayoutHolds(g, ptId, level);
      for k := 0 to |neighborsToAdd|
        invariant LinksOk(G(), ptId, level - 1) && Joined(sym, g, G(), ptId, level, neighborsToAdd, k, keepMax)
      {
        ghost var g1 := G();
        var otherId := neighborsToAdd[k];
        assert otherId !in neighborsToAdd[..k];
        TablesOf(sym, g, g1, ptId, level, neighborsToAdd, k, keepMax);
        NotLinkedBack(sym, g, g1, ptId, level, neighborsToAdd, k, keepMax);
        ghost var slots' := AddLink(sym, near, far, otherId, ptId, level, keepMax, ptId, level - 1);
        LinkBack(sym, g, g1, ptId, level, neighborsToAdd, k, slots', keepMax);
      }
    }

    /** Node ptId is joined on one level to what the heuristic keeps of the search's results. */
    method AddLinksStartingFrom(e: Query, sym: (int, int) -> real, ptId: nat, nearest: int, dNearest: real,
        level: nat, vt: VisitedTable, keepMax: bool)
      returns (ghost d: seq<Node>)
      requires e.ef == efConstruction > 0 && LinksOk(G(), ptId, level) && On(G(), ptId, level)
      requires 0 <= nearest < ptId && On(G(), nearest, level) && dNearest == e.dis(nearest)
      requires vt.Valid() && vt.Flags() == {} && ptId <= vt.size
      modifies this`neighbors, vt
      ensures vt.Valid() && vt.Flags() == {} && LinksOk(G(), ptId, level - 1)
      ensures LevelOk(old(G()), ptId, level)
      ensures forall k :: 0 <= k < |d| ==> 0 <= d[k].id < ptId
      ensures Chosen(sym, SearchFrom(e, old(G()), ptId, level, nearest).results.items, d,
          |Slots(old(G()), ptId, level)|, keepMax)
      ensures Joined(sym, old(G()), G(), ptId, level, Ids(d), |d|, keepMax)
    {
      hide LinksOk, LevelOk, Joined, Drain, Good, Done, VisitedTable.Flags, VisitedTable.Valid, Shrunk, On, Slots,
          IsFarthest, IsNearest;
      ghost var g := G();
      LinksGiveLevel(g, ptId, level, level);
      LayoutHolds(g, ptId, level);
      ghost var found := SearchFrom(e, g, ptId, level, nearest);
      NotEmpty(e, g, ptId, level, found);
      var linkTargets := SearchNeighborsToAdd(e, nearest, dNearest, level, vt, false, ptId);
      var M := cum[level + 1] - cum[level];
      linkTargets := ShrinkResultSet(sym, e.near, e.far, linkTargets, M, keepMax);
      d := Drain(e.far, linkTargets);
      DrainIsAll(e.far, linkTargets);
      TargetsOk(e, sym, g, ptId, level, found, d, M, keepMax);
      LinkBothWays(sym, e.near, e.far, ptId, level, linkTargets, keepMax, d);
    }

    method LinkBothWays(sym: (int, int) -> real, near: Ties, far: Ties, ptId: nat, level: nat, linkTargets: Queue,
        keepMax: bool, ghost d: seq<Node>)
      requires LinksOk(G(), ptId, level) && On(G(), ptId, level)
      requires d == Drain(far, linkTargets) && |linkTargets.items| <= |Slots(G(), ptId, level)|
      requires Distinct(d) && forall k :: 0 <= k < |d| ==> 0 <= d[k].id < ptId && On(G(), d[k].id, level)
      modifies this`neighbors
      ensures LinksOk(G(), ptId, level - 1) && Joined(sym, old(G()), G(), ptId, level, Ids(d), |d|, keepMax)
    {
      hide LinksOk, Layout, Joined, Drain, On, Slots;
      ghost var g := G();
      var neighborsToAdd := LinkTargets(sym, near, far, ptId, level, linkTargets, keepMax, g);
      LinkBackAll(sym, near, far, ptId, level, neighborsToAdd, keepMax, g);
    }

    /** MAIN: inserting the next point keeps the graph well-formed and makes the entry point a node of
        the highest level again. On every level it shares with the graph, the point is joined to a
        selection of what a search by its own distances found there, from where the descent ended. */
    method AddWithLocks(e: Query, sym: (int, int) -> real, ptLevel: nat, ptId: nat, vt: VisitedTable, keepMax: bool)
      returns (ghost start: int)
      requires e.ef == efConstruction > 0 && GraphOk(G(), ptId) && EntryOk(G(), ptId, entryPoint, maxLevel)
      requires ptId < |levels| && ptLevel + 1 == levels[ptId]
      requires vt.Valid() && vt.Flags() == {} && ptId <= vt.size
      modifies this`neighbors, this`entryPoint, this`maxLevel, vt
      ensures vt.Valid() && vt.Flags() == {}
      ensures GraphOk(G(), ptId + 1) && EntryOk(G(), ptId + 1, entryPoint, maxLevel)
      ensures forall l: nat {:trigger Linked(G(), ptId, l)} ::
          l <= ptLevel && l <= old(maxLevel) ==> Linked(G(), ptId, l)
      ensures forall i: nat, l: nat {:trigger Linked(G(), i, l)} :: Linked(old(G()), i, l) ==> Linked(G(), i, l)
      ensures SameTables(old(G()), G())
      ensures old(entryPoint) != -1 ==> Reached(e.dis, old(G()), old(entryPoint), old(maxLevel), ptLevel, start)
      ensures forall l: nat {:trigger InsertedOn(e, sym, old(G()), G(), ptId, l, start, keepMax)} ::
        l <= ptLevel && l <= old(maxLevel) ==> InsertedOn(e, sym, old(G()), G(), ptId, l, start, keepMax)
    {
      hide GraphOk, LinksOk, Layout, Packed, VisitedTable.Flags, VisitedTable.Valid, Linked, InsertedOn, Reached;
      var nearest := entryPoint;
      start := nearest;
      if nearest == -1 {
        maxLevel := ptLevel;
        entryPoint := ptId;
        StartInsertion(G(), ptId, -1);
        AllLevelsDone(G(), ptId);
        return;
      }
      EntryLevel(G(), ptId, entryPoint);
      var level, dNearest;
      level, nearest, dNearest := Descend(e.dis, maxLevel, ptLevel, ptId, nearest);
      start := nearest;
      StartInsertion(G(), ptId, level);
      LinkLevels(e, sym, ptId, nearest, dNearest, level, vt, keepMax);
      AllLevelsDone(G(), ptId);
      if ptLevel > maxLevel {
        maxLevel := ptLevel;
        entryPoint := ptId;
      }
    }

    /** Greedy search on the levels above the new point's top level. */
    method Descend(dis: int -> real, top: nat, ptLevel: nat, ghost n: nat, entry: int)
      returns (level: nat, nearest: int, dNearest: real)
      requires GraphOk(G(), n) && 0 <= entry < n <= |levels| && top < levels[entry] && top < |cum|
      ensures level == (if top > ptLevel then ptLevel else top) && 0 <= nearest < n && level < levels[nearest]
      ensures dNearest == dis(nearest) && Reached(dis, G(), entry, top, ptLevel, nearest)
    {
      hide GraphOk, Neighbors;
      level, nearest, dNearest := top, entry, dis(entry);
      while level > ptLevel
        invariant level <= top && (level >= ptLevel || level == top)
        invariant 0 <= nearest < n <= |levels| && level < levels[nearest] && dNearest == dis(nearest)
        invariant Reached(dis, G(), entry, top, level, nearest)
      {
        LevelIsOk(G(), n, level);
        nearest, dNearest := GreedyUpdateNearest(dis, level, nearest, dNearest, n);
        level := level - 1;
      }
    }

    method LinkLevels(e: Query, sym: (int, int) -> real, ptId: nat, nearest: int, dNearest: real, top: nat,
        vt: VisitedTable, keepMax: bool)
      requires e.ef == efConstruction > 0 && LinksOk(G(), ptId, top) && On(G(), ptId, top)
      requires 0 <= nearest < ptId && On(G(), nearest, top) && dNearest == e.dis(nearest)
      requires vt.Valid() && vt.Flags() == {} && ptId <= vt.size
      modifies this`neighbors, vt
      ensures vt.Valid() && vt.Flags() == {}
      ensures LinksOk(G(), ptId, -1) && SameTables(old(G()), G())
      ensures forall l: nat {:trigger Linked(G(), ptId, l)} :: l <= top ==> Linked(G(), ptId, l)
      ensures forall i: nat, l: nat {:trigger Linked(G(), i, l)} :: Linked(old(G()), i, l) ==> Linked(G(), i, l)
      ensures forall l: nat {:trigger InsertedOn(e, sym, old(G()), G(), ptId, l, nearest, keepMax)} ::
        l <= top ==> InsertedOn(e, sym, old(G()), G(), ptId, l, nearest, keepMax)
    {
      hide LinksOk, Layout, Linked, Joined, Chosen, LevelOk, VisitedTable.Flags, VisitedTable.Valid, InsertedOn,
          SameLevel;
      ghost var g := G();
      LayoutHolds(g, ptId, top);
      SameGraph(g);
      var level: int := top;
      while level >= 0
        invariant -1 <= level <= top && LinksOk(G(), ptId, level) && SameTables(g, G())
        invariant forall l: nat {:trigger Linked(G(), ptId, l)} :: level < l <= top ==> Linked(G(), ptId, l)
        invariant forall i: nat, l: nat {:trigger Linked(G(), i, l)} :: Linked(g, i, l) ==> Linked(G(), i, l)
        invariant forall l: nat {:trigger SameLevel(g, G(), l)} :: l <= level ==> SameLevel(g, G(), l)
        invariant forall l: nat {:trigger InsertedOn(e, sym, g, G(), ptId, l, nearest, keepMax)} ::
          level < l <= top ==> InsertedOn(e, sym, g, G(), ptId, l, nearest, keepMax)
        invariant vt.Valid() && vt.Flags() == {}
      {
        AddLevel(e, sym, ptId, nearest, dNearest, level, top, vt, keepMax, g);
        level := level - 1;
      }
    }

    method AddLevel(e: Query, sym: (int, int) -> real, ptId: nat, nearest: int, dNearest: real, level: nat,
        ghost top: nat, vt: VisitedTable, keepMax: bool, ghost g: Graph)
      requires e.ef == efConstruction > 0 && LinksOk(G(), ptId, level) && On(G(), ptId, level)
      requires 0 <= nearest < ptId && On(G(), nearest, level) && dNearest == e.dis(nearest)
      requires vt.Valid() && vt.Flags() == {} && ptId <= vt.size
      requires forall l: nat {:trigger Linked(G(), ptId, l)} :: level < l <= top ==> Linked(G(), ptId, l)
      requires forall l: nat {:trigger SameLevel(g, G(), l)} :: l <= level ==> SameLevel(g, G(), l)
      requires forall l: nat {:trigger InsertedOn(e, sym, g, G(), ptId, l, nearest, keepMax)} ::
        level < l <= top ==> InsertedOn(e, sym, g, G(), ptId, l, nearest, keepMax)
      modifies this`neighbors, vt
      ensures vt.Valid() && vt.Flags() == {}
      ensures LinksOk(G(), ptId, level - 1) && SameTables(old(G()), G())
      ensures forall l: nat {:trigger Linked(G(), ptId, l)} :: level <= l <= top ==> Linked(G(), ptId, l)
      ensures forall i: nat, l: nat {:trigger Linked(G(), i, l)} :: Linked(old(G()), i, l) ==> Linked(G(), i, l)
      ensures forall l: nat {:trigger SameLevel(g, G(), l)} :: l < level ==> SameLevel(g, G(), l)
      ensures forall l: nat {:trigger InsertedOn(e, sym, g, G(), ptId, l, nearest, keepMax)} ::
        level <= l <= top ==> InsertedOn(e, sym, g, G(), ptId, l, nearest, keepMax)
    {
      hide LinksOk, Layout, Linked, Joined, LevelOk, Shrunk, Good, Done, SearchFrom, Slots, VisitedTable.Flags,
          VisitedTable.Valid, InsertedOn, SameLevel, Chosen;
      ghost var g1 := G();
      LayoutHolds(g1, ptId, level);
      ghost var d := AddLinksStartingFrom(e, sym, ptId, nearest, dNearest, level, vt, keepMax);
      ghost var g2 := G();
      ChosenSome(sym, SearchFrom(e, g1, ptId, level, nearest).results.items, d, |Slots(g1, ptId, level)|, keepMax);
      LevelLinked(e, sym, g1, g2, ptId, level, d, keepMax);
      OnSame(g, g1, ptId, level);
      InsertedHere(e, sym, g, g1, g2, ptId, level, nearest, SearchFrom(e, g1, ptId, level, nearest), d, keepMax);
      forall l: nat | l < level ensures SameLevel(g, g2, l) {
        OtherLevels(sym, g1, g2, ptId, level, Ids(d), |d|, keepMax, l);
        SameLevelTwice(g, g1, g2, l);
      }
      forall l: nat | level < l <= top ensures InsertedOn(e, sym, g, g2, ptId, l, nearest, keepMax) {
        OtherLevels(sym, g1, g2, ptId, level, Ids(d), |d|, keepMax, l);
        InsertedStays(e, sym, g, g1, g2, ptId, l, nearest, keepMax);
      }
    }

    /** Levels and empty slots for n more points; `random` holds the levels drawn, when they are not preset. */
    method PrepareLevelTab(n: nat, preset: bool, random: seq<nat>, ghost count: nat) returns (maxLevel2: nat)
      requires Prepared(this.G(), count)
      requires if preset then |offsets| - 1 + n == |levels| else |offsets| - 1 == |levels| && |random| == n
      requires forall i :: 0 <= i < |levels| ==> 0 < levels[i] < |cum|
      requires forall i :: 0 <= i < |random| ==> random[i] + 1 < |cum|
      modifies this`levels, this`offsets, this`neighbors
      ensures GraphOk(G(), count) && |levels| == |old(offsets)| - 1 + n
      ensures levels == old(levels) + (if preset then [] else seq(n, i requires 0 <= i < n => random[i] + 1))
      ensures |old(neighbors)| <= |neighbors| && neighbors == old(neighbors) + Free(|neighbors| - |old(neighbors)|)
      ensures |old(offsets)| <= |offsets| && forall i :: 0 <= i < |old(offsets)| ==> offsets[i] == old(offsets)[i]
      ensures forall i :: |old(offsets)| - 1 <= i < |levels| ==> levels[i] <= maxLevel2 + 1
      ensures maxLevel2 == 0 || exists i :: |old(offsets)| - 1 <= i < |levels| && levels[i] == maxLevel2 + 1
    {
      assert |offsets| > 0;
      hide GraphOk, Prepared, Grown;
      ghost var g0 := G();
      var n0 := |offsets| - 1;
      if !preset { DrawLevels(random); }
      maxLevel2 := GrowOffsets(n0, n, g0, count);
      GrownPrefix(g0, levels, offsets, |levels|);
      ResizeNeighbors(g0, count);
    }

    /** New slots are free. */
    method ResizeNeighbors(ghost g0: Graph, ghost count: nat)
      requires Prepared(g0, count) && g0.levels <= levels && neighbors == g0.neighbors && cum == g0.cum
      requires Grown(g0, levels, offsets, |levels|) && |offsets| == |levels| + 1
      requires forall i :: 0 <= i < |levels| ==> 0 < levels[i] < |cum|
      modifies this`neighbors
      ensures GraphOk(G(), count) && |old(neighbors)| <= |neighbors|
      ensures neighbors == old(neighbors) + Free(|neighbors| - |old(neighbors)|)
    {
      hide GraphOk, Prepared, Grown;
      GrownEnd(g0, levels, offsets, count);
      neighbors := neighbors + Free(offsets[|offsets| - 1] - |neighbors|);
      GrownOk(g0, G(), count);
    }

    /** The random levels are appended, each raised by one. */
    method DrawLevels(random: seq<nat>)
      modifies this`levels
      ensures levels == old(levels) + seq(|random|, i requires 0 <= i < |random| => random[i] + 1)
    {
      for i := 0 to |random|
        invariant levels == old(levels) + seq(i, k requires 0 <= k < i => random[k] + 1)
      {
        levels := levels + [random[i] + 1];
      }
    }

    method GrowOffsets(n0: nat, n: nat, ghost g0: Graph, ghost count: nat) returns (maxLevel2: nat)
      requires Prepared(g0, count) && g0.levels <= levels && offsets == g0.offsets && cum == g0.cum
      requires n0 + 1 == |offsets|
      requires |levels| == n0 + n && forall i :: 0 <= i < |levels| ==> 0 < levels[i] < |cum|
      modifies this`offsets
      ensures Grown(g0, levels, offsets, |levels|) && |offsets| == |levels| + 1
      ensures forall i :: n0 <= i < |levels| ==> levels[i] <= maxLevel2 + 1
      ensures maxLevel2 == 0 || exists i :: n0 <= i < |levels| && levels[i] == maxLevel2 + 1
    {
      hide Prepared, Grown;
      maxLevel2 := 0;
      PreparedTables(g0, count, levels);
      for i := 0 to n
        invariant |offsets| == n0 + i + 1 && Grown(g0, levels, offsets, n0 + i)
        invariant forall k :: n0 <= k < n0 + i ==> levels[k] <= maxLevel2 + 1
        invariant maxLevel2 == 0 || exists k :: n0 <= k < n0 + i && levels[k] == maxLevel2 + 1
      {
        var ptLevel := levels[i + n0] - 1;
        if ptLevel > maxLevel2 { maxLevel2 := ptLevel; }
        GrowOne(g0, levels, offsets, n0 + i);
        offsets := offsets + [offsets[|offsets| - 1] + cum[ptLevel + 1]];
      }
    }
  }

  lemma GrowOne(g: Graph, levels: seq<nat>, offsets: seq<nat>, m: nat)
    requires Grown(g, levels, offsets, m) && m < |levels| && levels[m] < |g.cum|
    ensures |offsets| == m + 1 && Grown(g, levels, offsets + [offsets[m] + g.cum[levels[m]]], m + 1)
  {
  }

  lemma GrownPrefix(g: Graph, levels: seq<nat>, offsets: seq<nat>, m: nat)
    requires Grown(g, levels, offsets, m)
    ensures |g.offsets| <= |offsets| && forall i :: 0 <= i < |g.offsets| ==> offsets[i] == g.offsets[i]
  {
    assert forall i :: 0 <= i < |g.offsets| ==> offsets[..|g.offsets|][i] == offsets[i];
  }

  /** Node i has a link on level l. */
  ghost predicate Linked(g: Graph, i: nat, l: nat) {
    Layout(g) && On(g, i, l) && Slots(g, i, l)[0] >= 0
  }

  lemma EntryLevel(g: Graph, n: nat, i: nat)
    requires GraphOk(g, n) && i < n
    ensures i < |g.levels| && 0 < g.levels[i] < |g.cum|
  {
  }

  /** Where the descent to the levels of a new point may end: no farther than the entry point, and a
      local minimum of the level above; without a descent, at the entry point. */
  ghost predicate Reached(dis: int -> real, g: Graph, entry: int, top: int, ptLevel: nat, start: int) {
    && dis(start) <= dis(entry)
    && (top <= ptLevel ==> start == entry)
    && (ptLevel < top ==> LocalMinimum(dis, g, ptLevel + 1, start))
  }

  /** No link of node i on level l is closer. */
  ghost predicate LocalMinimum(dis: int -> real, g: Graph, l: nat, i: int) {
    forall a :: 0 <= a < |Neighbors(g, l, i)| ==> dis(i) <= dis(Neighbors(g, l, i)[a])
  }

  lemma FightAdded(sym: (int, int) -> real, src: int, dest: int, s: seq<int>, d: seq<Node>, keepMax: bool)
    requires s != [] && s[|s| - 1] != -1 && 0 < |d| <= |s|
    requires Shrunk(sym, multiset(Fight(sym, src, dest, s)), multiset(d), |s|, keepMax)
    ensures Added(sym, src, dest, s, Ids(d) + Free(|s| - |d|), keepMax)
  {
  }

  lemma SameGraph(g: Graph)
    requires Layout(g)
    ensures forall l: nat {:trigger SameLevel(g, g, l)} :: SameLevel(g, g, l)
  {
  }

  lemma OnSame(g: Graph, g': Graph, i: int, l: nat)
    requires SameLevel(g, g', l)
    ensures On(g, i, l) <==> On(g', i, l)
  {
  }

  lemma ChosenSome(sym: (int, int) -> real, found: seq<Node>, d: seq<Node>, maxSize: nat, keepMax: bool)
    requires Chosen(sym, found, d, maxSize, keepMax)
    ensures d != []
  {
  }

  lemma StartInsertion(g: Graph, n: nat, top: int)
    requires GraphOk(g, n) && top < |g.cum|
    ensures LinksOk(g, n, top)
  {
    KnowMore(g, n, |g.cum|, top);
  }

  lemma LevelIsOk(g: Graph, n: nat, l: nat)
    requires GraphOk(g, n) && l < |g.cum|
    ensures LevelOk(g, n, l)
  {
    LinksGiveLevel(g, n, |g.cum|, l);
  }

  lemma LevelLinked(e: Query, sym: (int, int) -> real, g: Graph, g': Graph, n: nat, l: nat, d: seq<Node>, keepMax: bool)
    requires LinksOk(g, n, l) && On(g, n, l) && d != [] && Joined(sym, g, g', n, l, Ids(d), |d|, keepMax)
    requires LinksOk(g', n, l - 1) && forall k :: 0 <= k < |d| ==> d[k].id >= 0
    ensures SameTables(g, g') && Linked(g', n, l)
    ensures forall i: nat, m: nat {:trigger Linked(g', i, m)} :: Linked(g, i, m) ==> Linked(g', i, m)
  {
    hide LinksOk, Layout, Added, Listed;
    LayoutHolds(g, n, l);
    TablesOf(sym, g, g', n, l, Ids(d), |d|, keepMax);
    forall i: nat, m: nat | Linked(g, i, m) ensures Linked(g', i, m) {
      if m == l && i != n && i in Ids(d)[..|d|] {
        assert Added(sym, i, n, Slots(g, i, l), Slots(g', i, l), keepMax);
        StaysLinked(sym, g, g', n, l, i, keepMax);
      } else {
        assert m != l || i == n || Slots(g', i, m) == Slots(g, i, m);
      }
    }
  }

  lemma StaysLinked(sym: (int, int) -> real, g: Graph, g': Graph, n: nat, l: nat, i: nat, keepMax: bool)
    requires LinksOk(g, n, l) && On(g, i, l) && On(g', i, l) && Layout(g')
    requires Added(sym, i, n, Slots(g, i, l), Slots(g', i, l), keepMax)
    ensures Slots(g', i, l)[0] >= 0
  {
    hide LinksOk, Layout, Added, Listed, On;
    BlockOk(g, n, l, i, l);
    var s := Slots(g, i, l);
    assert n !in s by {
      forall a | 0 <= a < |s| ensures s[a] != n {}
    }
    AddedIsListed(sym, i, n, s, Slots(g', i, l), keepMax);
  }

  /** The tables cover the points whose offsets are known; further preset levels may follow. */
  ghost predicate Prepared(g: Graph, n: nat) {
    && 0 < |g.offsets| <= |g.levels| + 1
    && GraphOk(g.(levels := g.levels[..|g.offsets| - 1]), n)
  }

  /** Offsets of the first m points, the old ones unchanged. */
  ghost predicate Grown(g: Graph, levels: seq<nat>, offsets: seq<nat>, m: nat) {
    && |g.offsets| - 1 <= m <= |levels| && |offsets| == m + 1
    && offsets[..|g.offsets|] == g.offsets
    && (forall i :: 0 <= i < m ==> levels[i] < |g.cum| && offsets[i + 1] == offsets[i] + g.cum[levels[i]])
  }

  /** Before the first new point. */
  lemma PreparedTables(g: Graph, n: nat, levels: seq<nat>)
    requires Prepared(g, n) && g.levels <= levels
    ensures Grown(g, levels, g.offsets, |g.offsets| - 1)
    ensures g.offsets[|g.offsets| - 1] == |g.neighbors|
  {
    var old_ := g.(levels := g.levels[..|g.offsets| - 1]);
    forall i | 0 <= i < |g.offsets| - 1
      ensures levels[i] < |g.cum| && g.offsets[i + 1] == g.offsets[i] + g.cum[levels[i]]
    {
      assert old_.levels[i] == levels[i];
    }
  }

  lemma {:induction false} OffsetsAscend(g: Graph, levels: seq<nat>, offsets: seq<nat>, m: nat, i: nat, j: nat)
    requires Grown(g, levels, offsets, m) && i <= j <= m
    ensures offsets[i] <= offsets[j]
    decreases j - i
  {
    if i < j {
      OffsetsAscend(g, levels, offsets, m, i, j - 1);
      assert levels[j - 1] < |g.cum|;
    }
  }

  lemma GrownEnd(g: Graph, levels: seq<nat>, offsets: seq<nat>, n: nat)
    requires Prepared(g, n) && g.levels <= levels && Grown(g, levels, offsets, |levels|)
    ensures |offsets| == |levels| + 1 && offsets[|levels|] >= |g.neighbors|
  {
    OffsetsAscend(g, levels, offsets, |levels|, |g.offsets| - 1, |levels|);
    PreparedTables(g, n, levels);
    GrownPrefix(g, levels, offsets, |levels|);
  }

  /** Longer tables hold the same graph: the old blocks as they were, the new ones empty. */
  lemma GrownOk(g: Graph, g': Graph, n: nat)
    requires Prepared(g, n) && g.levels <= g'.levels && g'.cum == g.cum
    requires Grown(g, g'.levels, g'.offsets, |g'.levels|)
    requires forall i :: 0 <= i < |g'.levels| ==> 0 < g'.levels[i] < |g.cum|
    requires |g.neighbors| <= |g'.neighbors| == g'.offsets[|g'.levels|]
    requires g'.neighbors == g.neighbors + Free(|g'.neighbors| - |g.neighbors|)
    ensures GraphOk(g', n)
  {
    var before := g.(levels := g.levels[..|g.offsets| - 1]);
    GrownLayout(g, g', n);
    forall i, l | On(g', i, l) ensures ListOk(g', Known(n, l, |g'.cum|), i, l) {
      assert g'.levels[i] < |g'.cum|;
      GrownBlock(g, g', n, i, l);
    }
  }

  lemma GrownLayout(g: Graph, g': Graph, n: nat)
    requires Prepared(g, n) && g.levels <= g'.levels && g'.cum == g.cum
    requires Grown(g, g'.levels, g'.offsets, |g'.levels|)
    requires forall i :: 0 <= i < |g'.levels| ==> 0 < g'.levels[i] < |g.cum|
    requires |g'.neighbors| == g'.offsets[|g'.levels|]
    ensures Layout(g')
  {
    forall i, j | 0 <= i <= j <= |g'.levels| ensures g'.offsets[i] <= g'.offsets[j] {
      OffsetsAscend(g, g'.levels, g'.offsets, |g'.levels|, i, j);
    }
    assert g'.offsets[0] == g'.offsets[..|g.offsets|][0];
  }

  lemma GrownBlock(g: Graph, g': Graph, n: nat, i: nat, l: nat)
    requires Prepared(g, n) && g.levels <= g'.levels && g'.cum == g.cum
    requires Grown(g, g'.levels, g'.offsets, |g'.levels|) && Layout(g') && On(g', i, l)
    requires |g.neighbors| <= |g'.neighbors| && g'.neighbors == g.neighbors + Free(|g'.neighbors| - |g.neighbors|)
    ensures ListOk(g', n, i, l)
  {
    var n0 := |g.offsets| - 1;
    GrownPrefix(g, g'.levels, g'.offsets, |g'.levels|);
    PreparedTables(g, n, g'.levels);
    hide Prepared, Grown, ListOk;
    if i < n0 {
      PreparedBlock(g, n, i, l);
      OldBlock(g.(levels := g.levels[..n0]), g', n, i, l);
    } else {
      OffsetsAscend(g, g'.levels, g'.offsets, |g'.levels|, n0, i);
      assert Slots(g', i, l) == Free(|Slots(g', i, l)|);
      FreeIsOk(g', n, i, l);
    }
  }

  lemma FreeIsOk(g: Graph, n: nat, i: nat, l: nat)
    requires Layout(g) && On(g, i, l) && Slots(g, i, l) == Free(|Slots(g, i, l)|)
    ensures ListOk(g, n, i, l)
  {
  }

  lemma PreparedBlock(g: Graph, n: nat, i: nat, l: nat)
    requires Prepared(g, n) && i < |g.offsets| - 1 && l < g.levels[i]
    ensures var before := g.(levels := g.levels[..|g.offsets| - 1]);
            Layout(before) && On(before, i, l) && ListOk(before, n, i, l)
  {
    var before := g.(levels := g.levels[..|g.offsets| - 1]);
    assert before.levels[i] == g.levels[i];
    assert On(before, i, l) && l < |g.cum|;
    assert ListOk(before, Known(n, l, |g.cum|), i, l);
  }

  lemma OldBlock(g: Graph, g': Graph, n: nat, i: nat, l: nat)
    requires Layout(g) && On(g, i, l) && ListOk(g, n, i, l) && Layout(g') && On(g', i, l)
    requires g.levels <= g'.levels && g'.cum == g.cum && g.neighbors <= g'.neighbors
    requires g'.offsets[i] == g.offsets[i]
    ensures ListOk(g', n, i, l)
  {
    PrefixSlice(g.neighbors, g'.neighbors, Begin(g, i, l), End(g, i, l));
    var s := Slots(g, i, l);
    assert s == Slots(g', i, l);
    hide Layout, Packed, ListOk, Listed;
    forall a | 0 <= a < |s| ensures Link(g', n, i, l, s[a]) {
      OldLink(g, g', n, i, l, s, a);
    }
    SameList(g, g', n, i, l);
  }

  lemma SliceBound(v: seq<int>, lo: nat, hi: nat, bound: int)
    requires lo <= hi <= |v| && forall k :: 0 <= k < |v[lo..hi]| ==> v[lo..hi][k] < bound
    ensures forall i :: lo <= i < hi ==> v[i] < bound
  {
    forall i | lo <= i < hi ensures v[i] < bound {
      assert v[i] == v[lo..hi][i - lo];
    }
  }

  lemma OldLink(g: Graph, g': Graph, n: nat, i: nat, l: nat, s: seq<int>, a: nat)
    requires Layout(g) && On(g, i, l) && ListOk(g, n, i, l) && s == Slots(g, i, l) && a < |s| && g.levels <= g'.levels
    ensures Link(g', n, i, l, s[a])
  {
    assert Link(g, n, i, l, s[a]);
    assert forall x :: 0 <= x < |g.levels| ==> g.levels[x] == g'.levels[x];
  }

  lemma SameList(g: Graph, g': Graph, n: nat, i: nat, l: nat)
    requires Layout(g) && On(g, i, l) && ListOk(g, n, i, l) && Layout(g') && On(g', i, l)
    requires Slots(g, i, l) == Slots(g', i, l)
    requires forall a :: 0 <= a < |Slots(g, i, l)| ==> Link(g', n, i, l, Slots(g, i, l)[a])
    ensures ListOk(g', n, i, l)
  {
  }

  lemma LayoutHolds(g: Graph, n: nat, l: nat)
    requires LinksOk(g, n, l) && On(g, n, l)
    ensures Layout(g) && l + 1 < |g.cum| && g.cum[l + 1] - g.cum[l] == |Slots(g, n, l)| > 0
  {
  }

  lemma TablesOf(sym: (int, int) -> real, g: Graph, g': Graph, n: nat, l: nat, targets: seq<int>, k: nat, keepMax: bool)
    requires Layout(g) && On(g, n, l) && Joined(sym, g, g', n, l, targets, k, keepMax)
    ensures SameTables(g, g') && Layout(g') && |targets| <= |Slots(g, n, l)| == |Slots(g', n, l)|
  {
  }

  lemma OneSlot(v: seq<int>, begin: nat, end: nat, i: nat, x: int)
    requires begin <= i < end <= |v|
    ensures v[i := x] == v[..begin] + v[begin..end][i - begin := x] + v[end..]
  {
  }

  lemma PopOne(far: Ties, q: Queue, out: seq<Node>)
    requires q.items != []
    ensures var i := TopFar(far, q);
            && i < |q.items|
            && out + Drain(far, q) == (out + [q.items[i]]) + Drain(far, PopAt(q, i))
            && Ids(out + [q.items[i]]) == Ids(out) + [q.items[i].id]
            && |PopAt(q, i).items| == |q.items| - 1
  {
  }

  lemma BlockOk(g: Graph, n: nat, top: int, i: nat, l: nat)
    requires LinksOk(g, n, top) && On(g, i, l)
    ensures Layout(g) && Listed(Slots(g, i, l))
    ensures forall a :: 0 <= a < |Slots(g, i, l)| ==> Slots(g, i, l)[a] >= -1
    ensures forall a ::
        0 <= a < |Slots(g, i, l)| ==>
          Slots(g, i, l)[a] < Known(n, l, top) && (Slots(g, i, l)[a] >= 0 ==> On(g, Slots(g, i, l)[a], l))
    ensures i >= Known(n, l, top) ==> Slots(g, i, l) == Free(|Slots(g, i, l)|)
  {
    assert ListOk(g, Known(n, l, top), i, l);
    forall a | 0 <= a < |Slots(g, i, l)| ensures Link(g, Known(n, l, top), i, l, Slots(g, i, l)[a]) {}
  }

  lemma MulAtLeast(M: nat, k: nat)
    requires k > 0
    ensures M * k >= M
  {
    assert M * k == M + M * (k - 1);
  }

  lemma NotEmpty(e: Query, g: Graph, n: nat, l: nat, s: State)
    requires Good(e, g, n, l, s, -1)
    ensures e.ef > 0 && s.results.items != []
  {
  }

  lemma SearchUnfolds(e: Query, g: Graph, n: nat, l: nat, s: State)
    requires Good(e, g, n, l, s, -1)
    ensures s.candidates.items == [] ==> Search(e, g, n, l, s) == s
    ensures s.candidates.items != [] && s.results.items != [] ==>
              if Nearest(e, s).d > s.results.items[TopFar(e.far, s.results)].d then Search(e, g, n, l, s) == s
              else
                && e.ef > 0 && Good(e, g, n, l, Step(e, g, l, s), -1)
                && Search(e, g, n, l, s) == Search(e, g, n, l, Step(e, g, l, s))
  {
    if !Done(e, s) { StepGood(e, g, n, l, s); }
  }

  lemma NeighborsAre(g: Graph, n: nat, l: nat, i: int)
    requires LevelOk(g, n, l) && On(g, i, l)
    ensures Layout(g) && i >= 0 && Neighbors(g, l, i) == Links(Slots(g, i, l))
  {
  }

  lemma CandidateOk(e: Query, g: Graph, n: nat, l: nat, s: State, i: nat, size: nat)
    requires Good(e, g, n, l, s, -1) && i < |s.candidates.items| && n <= size
    ensures Layout(g) && On(g, s.candidates.items[i].id, l)
    ensures Neighbors(g, l, s.candidates.items[i].id) == Links(Slots(g, s.candidates.items[i].id, l))
    ensures forall k ::
        0 <= k < |Slots(g, s.candidates.items[i].id, l)| ==> Slots(g, s.candidates.items[i].id, l)[k] < size
  {
    var id := s.candidates.items[i].id;
    assert id in s.visited;
    assert ListOk(g, n, id, l);
    forall k | 0 <= k < |Slots(g, id, l)| ensures Slots(g, id, l)[k] < size {
      assert Link(g, n, id, l, Slots(g, id, l)[k]);
    }
  }

  // -------------------------------------------------------------------------
  // The driver
  // -------------------------------------------------------------------------

  /** The distances of point i, qdis after set_query. */
  function From(dis: (int, int) -> real, i: int): int -> real {
    id => dis(i, id)
  }

  /** One point's insertion: the entry point and top level it met, where its descent ended, and the
      graph before and after. */
  datatype Insertion = Insertion(id: nat, entry: int, maxLevel: int, start: int, before: Graph, after: Graph)

  /** The point was inserted by its own distances. */
  ghost predicate Inserted(s: Insertion, dis: (int, int) -> real, sym: (int, int) -> real, ef: nat, near: Ties,
      far: Ties) {
    var e := Query(From(dis, s.id), ef, near, far);
    && s.id < |s.before.levels| && s.before.levels[s.id] > 0
    && (s.entry != -1 ==> Reached(e.dis, s.before, s.entry, s.maxLevel, s.before.levels[s.id] - 1, s.start))
    && forall l: nat {:trigger InsertedOn(e, sym, s.before, s.after, s.id, l, s.start, false)} ::
         l < s.before.levels[s.id] && l <= s.maxLevel ==> InsertedOn(e, sym, s.before, s.after, s.id, l, s.start, false)
  }

  /** The points from n0 on, one after the other. */
  ghost predicate AllInserted(trace: seq<Insertion>, n0: nat, dis: (int, int) -> real, sym: (int, int) -> real, ef: nat,
      near: Ties, far: Ties) {
    && (forall k :: 0 <= k < |trace| ==> trace[k].id == n0 + k && Inserted(trace[k], dis, sym, ef, near, far))
    && (forall k, m :: 0 <= k && m == k + 1 && m < |trace| ==> trace[m].before == trace[k].after)
  }

  /** The tables were extended, nothing in them changed. */
  ghost predicate Longer(g: Graph, g': Graph) {
    && g'.cum == g.cum && g.levels <= g'.levels && g.neighbors <= g'.neighbors && |g.offsets| <= |g'.offsets|
    && (forall i :: 0 <= i < |g.offsets| ==> g'.offsets[i] == g.offsets[i])
    && (forall k :: |g.neighbors| <= k < |g'.neighbors| ==> g'.neighbors[k] == -1)
  }

  /** MAIN: each inserted point is linked, on every level it shares with the graph, to a local minimum of
      its own distance that is no farther than the entry point. */
  lemma InsertedPointIsNear(trace: seq<Insertion>, n0: nat, dis: (int, int) -> real, sym: (int, int) -> real, ef: nat,
      near: Ties, far: Ties, k: nat, l: nat)
    requires AllInserted(trace, n0, dis, sym, ef, near, far) && k < |trace| && trace[k].entry != -1
    requires l < trace[k].before.levels[n0 + k] && l <= trace[k].maxLevel
    ensures var p := n0 + k;
            exists x :: x in Neighbors(trace[k].after, l, p) && dis(p, x) <= dis(p, trace[k].entry)
              && (forall y :: y in Neighbors(trace[k].after, l, p) ==> dis(p, x) <= dis(p, y))
              && (forall y :: y in Neighbors(trace[k].before, l, x) ==> dis(p, x) <= dis(p, y))
  {
    hide InsertedOn, Neighbors;
    var s := trace[k];
    var e := Query(From(dis, s.id), ef, near, far);
    InsertedIsNear(e, sym, s.before, s.after, s.id, l, s.start, false);
    var x :| x in Neighbors(s.after, l, s.id) && e.dis(x) <= e.dis(s.start)
      && (forall y :: y in Neighbors(s.after, l, s.id) ==> e.dis(x) <= e.dis(y))
      && (forall y :: y in Neighbors(s.before, l, x) ==> e.dis(x) <= e.dis(y));
    assert forall y :: e.dis(y) == dis(s.id, y);
  }

  class IndexHNSW {
    var hnsw: HNSW
    var nTotal: nat

    ghost predicate Valid()
      reads this, hnsw
    {
      && GraphOk(hnsw.G(), nTotal) && EntryOk(hnsw.G(), nTotal, hnsw.entryPoint, hnsw.maxLevel)
      && forall i: nat {:trigger Linked(hnsw.G(), i, 0)} :: 0 < i < nTotal ==> Linked(hnsw.G(), i, 0)
    }

    constructor (M: nat, nLevels: nat)
      requires M > 0 && nLevels > 0
      ensures Valid() && nTotal == 0 && fresh(hnsw)
    {
      hnsw := new HNSW(M, nLevels);
      nTotal := 0;
    }

    /** MAIN: over any run of Add calls, with any distances, levels and tie-breaking, the graph stays
        well-formed for all points and every point but the first keeps a link on level 0. Each call
        draws levels for all points again, so the tables outgrow the points. */
    method Add(n: nat, random: seq<nat>, dis: (int, int) -> real, sym: (int, int) -> real, near: Ties, far: Ties)
      returns (ghost trace: seq<Insertion>)
      requires Valid() && |random| == nTotal + n && forall i :: 0 <= i < |random| ==> random[i] + 1 < |hnsw.cum|
      modifies this`nTotal, hnsw
      ensures Valid() && nTotal == old(nTotal) + n && hnsw == old(hnsw) && hnsw.cum == old(hnsw.cum)
      ensures |hnsw.levels| == |old(hnsw.levels)| + nTotal && old(hnsw.levels) <= hnsw.levels
      ensures forall i :: 0 <= i < nTotal ==> hnsw.levels[|old(hnsw.levels)| + i] == random[i] + 1
      ensures |trace| == n && AllInserted(trace, old(nTotal), dis, sym, hnsw.efConstruction, near, far)
      ensures n > 0 ==> Longer(old(hnsw.G()), trace[0].before) && trace[n - 1].after == hnsw.G()
      ensures n > 0 ==> trace[0].entry == old(hnsw.entryPoint) && trace[0].maxLevel == old(hnsw.maxLevel)
    {
      hide GraphOk, EntryOk, Linked, AllInserted;
      var n0 := nTotal;
      nTotal := nTotal + n;
      if hnsw.efConstruction == 0 {
        hnsw.efConstruction := 40;
      }
      ghost var g := hnsw.G();
      ReadyToGrow(g, n0);
      var _ := hnsw.PrepareLevelTab(nTotal, false, random, n0);
      GrowKeeps(g, hnsw.G(), n0, hnsw.entryPoint, hnsw.maxLevel);
      var vt := new VisitedTable(nTotal, Unset);
      trace := InsertAll(n0, dis, sym, near, far, vt);
    }

    method InsertAll(n0: nat, dis: (int, int) -> real, sym: (int, int) -> real, near: Ties, far: Ties, vt: VisitedTable)
      returns (ghost trace: seq<Insertion>)
      requires GraphOk(hnsw.G(), n0) && EntryOk(hnsw.G(), n0, hnsw.entryPoint, hnsw.maxLevel) && hnsw.efConstruction > 0
      requires forall i: nat {:trigger Linked(hnsw.G(), i, 0)} :: 0 < i < n0 ==> Linked(hnsw.G(), i, 0)
      requires n0 <= nTotal <= |hnsw.levels| && vt.Valid() && vt.Flags() == {} && vt.size == nTotal
      modifies hnsw, vt
      ensures Valid() && SameTables(old(hnsw.G()), hnsw.G()) && hnsw.efConstruction == old(hnsw.efConstruction)
      ensures |trace| == nTotal - n0 && AllInserted(trace, n0, dis, sym, hnsw.efConstruction, near, far)
      ensures trace != [] ==> trace[0].before == old(hnsw.G()) && trace[|trace| - 1].after == hnsw.G()
      ensures trace != [] ==> trace[0].entry == old(hnsw.entryPoint) && trace[0].maxLevel == old(hnsw.maxLevel)
    {
      hide GraphOk, EntryOk, Linked, VisitedTable.Flags, VisitedTable.Valid, InsertedOn, Reached;
      ghost var g1, entry1, top1 := hnsw.G(), hnsw.entryPoint, hnsw.maxLevel;
      trace := [];
      for i := n0 to nTotal
        invariant vt.Valid() && vt.Flags() == {}
        invariant hnsw.efConstruction == old(hnsw.efConstruction) > 0 && SameTables(g1, hnsw.G())
        invariant |trace| == i - n0 && AllInserted(trace, n0, dis, sym, hnsw.efConstruction, near, far)
        invariant if trace == [] then hnsw.G() == g1 && hnsw.entryPoint == entry1 && hnsw.maxLevel == top1
                  else trace[0].before == g1 && trace[0].entry == entry1 && trace[0].maxLevel == top1
                       && trace[|trace| - 1].after == hnsw.G()
        invariant GraphOk(hnsw.G(), i) && EntryOk(hnsw.G(), i, hnsw.entryPoint, hnsw.maxLevel)
        invariant forall k: nat {:trigger Linked(hnsw.G(), k, 0)} :: 0 < k < i ==> Linked(hnsw.G(), k, 0)
      {
        NodeLevel(hnsw.G(), i, hnsw.entryPoint, hnsw.maxLevel);
        var ptLevel := hnsw.levels[i] - 1;
        var e := Query(From(dis, i), hnsw.efConstruction, near, far);
        ghost var before, entry, top := hnsw.G(), hnsw.entryPoint, hnsw.maxLevel;
        ghost var start := hnsw.AddWithLocks(e, sym, ptLevel, i, vt, false);
        trace := trace + [Insertion(i, entry, top, start, before, hnsw.G())];
      }
    }
  }

  lemma NodeLevel(g: Graph, n: nat, entry: int, maxLevel: int)
    requires GraphOk(g, n) && EntryOk(g, n, entry, maxLevel) && n < |g.levels|
    ensures 0 < g.levels[n] < |g.cum| && (n > 0 ==> maxLevel >= 0)
  {
  }

  lemma ReadyToGrow(g: Graph, n: nat)
    requires GraphOk(g, n)
    ensures Prepared(g, n) && |g.offsets| - 1 == |g.levels|
    ensures forall i :: 0 <= i < |g.levels| ==> 0 < g.levels[i] < |g.cum|
  {
    assert g.levels[..|g.offsets| - 1] == g.levels;
    assert g.(levels := g.levels) == g;
  }

  /** Longer tables: same links, same entry point. */
  lemma GrowKeeps(g: Graph, g': Graph, n: nat, entry: int, maxLevel: int)
    requires GraphOk(g, n) && GraphOk(g', n) && g'.cum == g.cum && g.levels <= g'.levels && g.neighbors <= g'.neighbors
    requires |g.offsets| <= |g'.offsets| && forall i :: 0 <= i < |g.offsets| ==> g'.offsets[i] == g.offsets[i]
    requires EntryOk(g, n, entry, maxLevel)
    ensures EntryOk(g', n, entry, maxLevel)
    ensures forall i: nat {:trigger Linked(g', i, 0)} :: Linked(g, i, 0) ==> Linked(g', i, 0)
  {
    forall i: nat | Linked(g, i, 0) ensures Linked(g', i, 0) {
      assert g'.levels[i] == g.levels[i];
      assert g'.offsets[i] == g.offsets[i];
      assert Slots(g', i, 0)[0] == Slots(g, i, 0)[0];
    }
  }
}
