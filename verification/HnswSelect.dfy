/**
 Priority queues with arbitrary tie-breaking, and the heuristic that picks which neighbours to keep.
 */
module HnswSelect {

  datatype Node = Node(d: real, id: int)

  datatype Op = Pushed(n: Node) | Popped

  /** A standard-library priority queue: its contents, and everything done to it so far. Which of
      several equal elements is on top may depend on the latter in any way. */
  datatype Queue = Queue(items: seq<Node>, ops: seq<Op>)

  const Empty := Queue([], [])

  type Ties = seq<Op> -> int

  function Push(q: Queue, n: Node): Queue {
    Queue(q.items + [n], q.ops + [Pushed(n)])
  }

  function Remove(s: seq<Node>, i: nat): seq<Node>
    requires i < |s|
  {
    s[..i] + s[i + 1..]
  }

  function PopAt(q: Queue, i: nat): Queue
    requires i < |q.items|
  {
    Queue(Remove(q.items, i), q.ops + [Popped])
  }

  predicate IsNearest(s: seq<Node>, i: int) {
    0 <= i < |s| && forall j :: 0 <= j < |s| ==> s[i].d <= s[j].d
  }

  predicate IsFarthest(s: seq<Node>, i: int) {
    0 <= i < |s| && forall j :: 0 <= j < |s| ==> s[j].d <= s[i].d
  }

  function FirstNearest(s: seq<Node>): (i: nat)
    requires s != []
    ensures IsNearest(s, i)
  {
    if |s| == 1 then 0
    else
      var j := FirstNearest(s[..|s| - 1]);
      if s[|s| - 1].d < s[j].d then |s| - 1 else j
  }

  function FirstFarthest(s: seq<Node>): (i: nat)
    requires s != []
    ensures IsFarthest(s, i)
  {
    if |s| == 1 then 0
    else
      var j := FirstFarthest(s[..|s| - 1]);
      if s[|s| - 1].d > s[j].d then |s| - 1 else j
  }

  /** Index of the top of a queue ordered nearest first. */
  function TopNear(tie: Ties, q: Queue): (i: nat)
    requires q.items != []
    ensures i < |q.items| && IsNearest(q.items, i)
  {
    if IsNearest(q.items, tie(q.ops)) then tie(q.ops) else FirstNearest(q.items)
  }

  /** Index of the top of a queue ordered farthest first. */
  function TopFar(tie: Ties, q: Queue): (i: nat)
    requires q.items != []
    ensures i < |q.items| && IsFarthest(q.items, i)
  {
    if IsFarthest(q.items, tie(q.ops)) then tie(q.ops) else FirstFarthest(q.items)
  }

  lemma RemoveMultiset(s: seq<Node>, i: nat)
    requires i < |s|
    ensures multiset(s) == multiset(Remove(s, i)) + multiset{s[i]}
    ensures |Remove(s, i)| == |s| - 1
  {
    assert s == s[..i] + [s[i]] + s[i + 1..];
  }

  // -------------------------------------------------------------------------
  // Selection
  // -------------------------------------------------------------------------

  /** Some node of `kept` is closer to v than the query is. */
  predicate Dominated(dist: (int, int) -> real, kept: seq<Node>, v: Node) {
    exists a :: 0 <= a < |kept| && dist(kept[a].id, v.id) < v.d
  }

  /** Nearest first, and nobody dominated by an earlier one. */
  predicate Diverse(dist: (int, int) -> real, s: seq<Node>) {
    && (forall a, b :: 0 <= a < b < |s| ==> s[a].d <= s[b].d)
    && (forall a, b :: 0 <= a < b < |s| ==> dist(s[a].id, s[b].id) >= s[b].d)
  }

  /** What the heuristic promises: `kept` is a diverse list of nodes of `input`; unless full, it
      dominates every node it leaves out; with the option set, left-out nodes fill the free places. */
  ghost predicate Selection(dist: (int, int) -> real, input: multiset<Node>, output: seq<Node>, kept: nat,
      maxSize: nat, keepMax: bool) {
    && kept <= |output| <= maxSize
    && multiset(output) <= input
    && Diverse(dist, output[..kept])
    && (forall v {:trigger input[v]} ::
        v in input && v !in output[..kept] ==> kept == maxSize || Dominated(dist, output[..kept], v))
    && (if keepMax then |output| == maxSize || |output| == |input| else kept == |output|)
    && (forall v {:trigger input[v]} :: v in input ==> 0 < kept && output[0].d <= v.d)
  }

  ghost predicate Below(kept: seq<Node>, left: seq<Node>) {
    forall a, b :: 0 <= a < |kept| && 0 <= b < |left| ==> kept[a].d <= left[b].d
  }

  /** For some number of nodes kept for their own sake. */
  ghost predicate Selected(dist: (int, int) -> real, input: multiset<Node>, output: seq<Node>, maxSize: nat,
      keepMax: bool) {
    exists kept: nat :: Selection(dist, input, output, kept, maxSize, keepMax)
  }

  /** Everything the loop keeps. */
  ghost predicate Choosing(dist: (int, int) -> real, input: multiset<Node>, left: seq<Node>, kept: seq<Node>,
      outsiders: seq<Node>, all: multiset<Node>) {
    && multiset(left) + multiset(kept) + all == input
    && multiset(outsiders) <= all
    && Diverse(dist, kept)
    && (forall v {:trigger all[v]} :: v in all ==> Dominated(dist, kept, v))
    && Below(kept, left)
    && (forall v {:trigger all[v]} :: v in all ==> 0 < |kept| && kept[0].d <= v.d)
  }

  method IsGood(dist: (int, int) -> real, kept: seq<Node>, v: Node) returns (good: bool)
    ensures good <==> !Dominated(dist, kept, v)
  {
    good := true;
    for a := 0 to |kept|
      invariant good && forall b :: 0 <= b < a ==> dist(kept[b].id, v.id) >= v.d
    {
      if dist(kept[a].id, v.id) < v.d { return false; }
    }
  }

  lemma StillDominated(dist: (int, int) -> real, kept: seq<Node>, more: seq<Node>, v: Node)
    requires Dominated(dist, kept, v)
    ensures Dominated(dist, kept + more, v)
  {
    var a :| 0 <= a < |kept| && dist(kept[a].id, v.id) < v.d;
    assert (kept + more)[a] == kept[a];
  }

  lemma BelowRest(kept: seq<Node>, left: seq<Node>, i: nat)
    requires Below(kept, left) && IsNearest(left, i)
    ensures Below(kept, Remove(left, i)) && Below(kept + [left[i]], Remove(left, i))
  {
    var rest := Remove(left, i);
    forall b | 0 <= b < |rest| ensures rest[b] == left[if b < i then b else b + 1] {}
  }

  lemma DiverseAppend(dist: (int, int) -> real, kept: seq<Node>, left: seq<Node>, i: nat)
    requires Diverse(dist, kept) && Below(kept, left) && i < |left| && !Dominated(dist, kept, left[i])
    ensures Diverse(dist, kept + [left[i]])
  {
  }

  lemma Keep(dist: (int, int) -> real, input: multiset<Node>, left: seq<Node>, kept: seq<Node>, outsiders: seq<Node>,
      all: multiset<Node>, i: nat)
    requires Choosing(dist, input, left, kept, outsiders, all) && IsNearest(left, i)
    requires !Dominated(dist, kept, left[i])
    ensures Choosing(dist, input, Remove(left, i), kept + [left[i]], outsiders, all)
  {
    hide Diverse, Below, Remove, Dominated;
    RemoveMultiset(left, i);
    DiverseAppend(dist, kept, left, i);
    BelowRest(kept, left, i);
    forall v | v in all ensures Dominated(dist, kept + [left[i]], v) {
      StillDominated(dist, kept, [left[i]], v);
    }
  }

  lemma Drop(dist: (int, int) -> real, input: multiset<Node>, left: seq<Node>, kept: seq<Node>, outsiders: seq<Node>,
      all: multiset<Node>, i: nat, listed: bool)
    requires Choosing(dist, input, left, kept, outsiders, all) && IsNearest(left, i)
    requires Dominated(dist, kept, left[i])
    ensures Choosing(dist, input, Remove(left, i), kept, if listed then outsiders + [left[i]] else outsiders, all + multiset{left[i]})
  {
    RemoveMultiset(left, i);
    BelowRest(kept, left, i);
  }

  /** The list is full: done. */
  lemma FullSelection(dist: (int, int) -> real, input: multiset<Node>, left: seq<Node>, kept: seq<Node>,
      outsiders: seq<Node>, all: multiset<Node>, maxSize: nat, keepMax: bool)
    requires Choosing(dist, input, left, kept, outsiders, all) && |kept| == maxSize > 0
    ensures Selection(dist, input, kept, |kept|, maxSize, keepMax)
  {
    assert kept[..|kept|] == kept;
    NearestKept(dist, input, left, kept, outsiders, all);
  }

  lemma NearestKept(dist: (int, int) -> real, input: multiset<Node>, left: seq<Node>, kept: seq<Node>,
      outsiders: seq<Node>, all: multiset<Node>)
    requires Choosing(dist, input, left, kept, outsiders, all) && kept != []
    ensures forall v {:trigger input[v]} :: v in input ==> kept[0].d <= v.d
  {
    forall v | v in input ensures kept[0].d <= v.d {
      if v in kept {
        var a :| 0 <= a < |kept| && kept[a] == v;
      } else if v !in all {
        assert multiset(left)[v] + multiset(kept)[v] + all[v] > 0;
        assert v in left;
        var b :| 0 <= b < |left| && left[b] == v;
      }
    }
  }

  /** The input is used up and there is room left: add outsiders, as many as fit. */
  lemma PartSelection(dist: (int, int) -> real, input: multiset<Node>, kept: seq<Node>, outsiders: seq<Node>,
      all: multiset<Node>, idx: nat, maxSize: nat, keepMax: bool)
    requires Choosing(dist, input, [], kept, outsiders, all) && idx <= |outsiders| && |kept| + idx <= maxSize
    requires if keepMax then multiset(outsiders) == all && (idx == |outsiders| || |kept| + idx == maxSize) else idx == 0
    ensures Selection(dist, input, kept + outsiders[..idx], |kept|, maxSize, keepMax)
  {
    hide Diverse, Below, Dominated;
    var output := kept + outsiders[..idx];
    assert output[..|kept|] == kept;
    assert outsiders == outsiders[..idx] + outsiders[idx..];
    assert multiset(output) == multiset(kept) + multiset(outsiders[..idx]);
    assert input == multiset(kept) + all;
    assert |input| == |kept| + |all|;
    if kept != [] { NearestKept(dist, input, [], kept, outsiders, all); }
  }

  lemma NothingChosen(dist: (int, int) -> real, left: seq<Node>)
    ensures Choosing(dist, multiset(left), left, [], [], multiset{})
  {
  }

  /** HNSW::ShrinkNeighborList: the input queue is emptied nearest first. */
  method ShrinkNeighborList(dist: (int, int) -> real, tie: Ties, input: Queue, maxSize: nat, keepMax: bool)
    returns (output: seq<Node>)
    requires maxSize > 0
    ensures Selected(dist, multiset(input.items), output, maxSize, keepMax)
  {
    hide Choosing, Selection, IsNearest, Remove, Dominated;
    var q := input;
    var outsiders: seq<Node> := [];
    ghost var all: multiset<Node> := multiset{};
    output := [];
    NothingChosen(dist, input.items);
    while q.items != []
      invariant Choosing(dist, multiset(input.items), q.items, output, outsiders, all) && |output| < maxSize
      invariant if keepMax then multiset(outsiders) == all else outsiders == []
      decreases |q.items|
    {
      var i := TopNear(tie, q);
      var v1 := q.items[i];
      ghost var left := q.items;
      q := PopAt(q, i);
      RemoveMultiset(left, i);
      var good := IsGood(dist, output, v1);
      if good {
        Keep(dist, multiset(input.items), left, output, outsiders, all, i);
        output := output + [v1];
        if |output| >= maxSize {
          FullSelection(dist, multiset(input.items), q.items, output, outsiders, all, maxSize, keepMax);
          return;
        }
      } else {
        Drop(dist, multiset(input.items), left, output, outsiders, all, i, keepMax);
        all := all + multiset{v1};
        if keepMax { outsiders := outsiders + [v1]; }
      }
    }
    ghost var diverse := output;
    var idx := 0;
    while keepMax && |output| < maxSize && idx < |outsiders|
      invariant idx <= |outsiders| && output == diverse + outsiders[..idx] && |output| <= maxSize
      invariant !keepMax ==> idx == 0
    {
      output := output + [outsiders[idx]];
      idx := idx + 1;
    }
    PartSelection(dist, multiset(input.items), diverse, outsiders, all, idx, maxSize, keepMax);
  }
}
