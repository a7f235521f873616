/**
 Merging the partial results of a range search: each query's results end up in one block, the partial
 results one after the other.
 */
module RangeMerge {
  import opened BufferLists
  import opened Collections

  /** The results one partial result found for one query. */
  datatype Block = Block(qno: nat, data: seq<Entry>)

  /** Everything found for query q, in the order of the blocks. */
  function Collect(blocks: seq<Block>, q: nat): seq<Entry> {
    if blocks == [] then []
    else
      var last := blocks[|blocks| - 1];
      Collect(blocks[..|blocks| - 1], q) + if last.qno == q then last.data else []
  }

  /** Where query q's block starts. */
  function Start(blocks: seq<Block>, q: nat): nat {
    if q == 0 then 0 else Start(blocks, q - 1) + |Collect(blocks, q - 1)|
  }

  lemma {:induction false} StartAscends(blocks: seq<Block>, a: nat, b: nat)
    requires a <= b
    ensures Start(blocks, a) <= Start(blocks, b)
    decreases b - a
  {
    if a < b { StartAscends(blocks, a, b - 1); }
  }

  lemma StartNext(blocks: seq<Block>, q: nat)
    ensures Start(blocks, q + 1) == Start(blocks, q) + |Collect(blocks, q)|
  {
  }

  lemma CollectNext(blocks: seq<Block>, t: nat, q: nat)
    requires t < |blocks|
    ensures Collect(blocks[..t + 1], q) == Collect(blocks[..t], q) + if blocks[t].qno == q then blocks[t].data else []
  {
    assert blocks[..t + 1][..t] == blocks[..t];
  }

  lemma {:induction false} CollectPrefix(blocks: seq<Block>, t: nat, q: nat)
    requires t <= |blocks|
    ensures |Collect(blocks[..t], q)| <= |Collect(blocks, q)|
    decreases |blocks| - t
  {
    if t < |blocks| {
      CollectNext(blocks, t, q);
      CollectPrefix(blocks, t + 1, q);
    } else {
      assert blocks[..t] == blocks;
    }
  }

  // -------------------------------------------------------------------------
  // Results
  // -------------------------------------------------------------------------

  class RangeSearchResult {
    const nq: nat
    const lims: array<int>
    var labels: array?<int>
    var distances: array?<real>

    constructor (nq: nat)
      ensures this.nq == nq && fresh(lims) && lims.Length == nq + 1 && labels == null && distances == null
      ensures forall q {:trigger lims[q]} :: 0 <= q <= nq ==> lims[q] == 0
    {
      this.nq := nq;
      lims := new int[nq + 1](_ => 0);
      labels, distances := null, null;
    }

    /** lims holds a count per query and becomes a start per query. Throws when there are tables already. */
    method DoAllocation(ghost blocks: seq<Block>) returns (ok: bool)
      requires lims.Length == nq + 1
      requires forall q {:trigger lims[q]} :: 0 <= q < nq ==> lims[q] == |Collect(blocks, q)|
      modifies this`labels, this`distances, lims
      ensures ok <==> old(labels) == null && old(distances) == null
      ensures !ok ==> lims[..] == old(lims[..]) && labels == old(labels) && distances == old(distances)
      ensures ok ==> labels != null && distances != null && fresh(labels) && fresh(distances)
      ensures ok ==> labels.Length == distances.Length == Start(blocks, nq)
      ensures ok ==> forall q {:trigger lims[q]} :: 0 <= q <= nq ==> lims[q] == Start(blocks, q)
    {
      if !(labels == null && distances == null) { return false; }
      ok := true;
      CountsToStarts(blocks);
      labels := new int[lims[nq]];
      distances := new real[lims[nq]];
    }

    method CountsToStarts(ghost blocks: seq<Block>)
      requires lims.Length == nq + 1
      requires forall q {:trigger lims[q]} :: 0 <= q < nq ==> lims[q] == |Collect(blocks, q)|
      modifies lims
      ensures forall q {:trigger lims[q]} :: 0 <= q <= nq ==> lims[q] == Start(blocks, q)
    {
      hide Collect;
      var ofs: nat := 0;
      for i := 0 to nq
        invariant ofs == Start(blocks, i)
        invariant forall q {:trigger lims[q]} :: 0 <= q < i ==> lims[q] == Start(blocks, q)
        invariant forall q {:trigger lims[q]} :: i <= q < nq ==> lims[q] == |Collect(blocks, q)|
      {
        var n: nat := lims[i];
        lims[i] := ofs;
        ofs := ofs + n;
      }
      lims[nq] := ofs;
    }
  }

  datatype QueryResult = QueryResult(qno: nat, nres: nat)

  /** Total number of results of the first i queries. */
  function Offset(queries: seq<QueryResult>, i: nat): nat
    requires i <= |queries|
  {
    if i == 0 then 0 else Offset(queries, i - 1) + queries[i - 1].nres
  }

  lemma {:induction false} OffsetAscends(queries: seq<QueryResult>, a: nat, b: nat)
    requires a <= b <= |queries|
    ensures Offset(queries, a) <= Offset(queries, b)
    decreases b - a
  {
    if a < b { OffsetAscends(queries, a, b - 1); }
  }

  lemma {:induction false} OffsetOf(queries: seq<QueryResult>, queries': seq<QueryResult>, i: nat)
    requires i <= |queries| && i <= |queries'| && queries[..i] == queries'[..i]
    ensures Offset(queries, i) == Offset(queries', i)
  {
    if i > 0 {
      assert queries[..i - 1] == queries[..i][..i - 1] == queries'[..i][..i - 1] == queries'[..i - 1];
      assert queries[i - 1] == queries[..i][i - 1] == queries'[..i][i - 1];
      OffsetOf(queries, queries', i - 1);
    }
  }

  /** A thread's results: one linear buffer, cut up by query. */
  class RangeSearchPartialResult {
    const res: RangeSearchResult
    const buffer: BufferList
    var queries: seq<QueryResult>

    ghost predicate Valid()
      reads this, buffer
    {
      && buffer.Valid() && Offset(queries, |queries|) == |buffer.Contents()|
      && forall i :: 0 <= i < |queries| ==> queries[i].qno < res.nq
    }

    ghost function Blocks(): seq<Block>
      reads this, buffer
      requires Valid()
    {
      BlocksOf(queries, buffer.Contents(), |queries|)
    }

    constructor (res: RangeSearchResult, bufferSize: nat)
      requires bufferSize > 0
      ensures Valid() && Blocks() == [] && this.res == res && fresh(buffer)
    {
      this.res := res;
      buffer := new BufferList(bufferSize);
      queries := [];
    }

    /** Begins the results of a query. */
    method NewResult(qno: nat)
      requires Valid() && qno < res.nq
      modifies this
      ensures Valid() && Blocks() == old(Blocks()) + [Block(qno, [])]
    {
      ghost var before := queries;
      queries := queries + [QueryResult(qno, 0)];
      assert queries[..|before|] == before[..|before|];
      OffsetOf(queries, before, |before|);
      BlocksOfPrefix(queries, before, buffer.Contents(), buffer.Contents(), |before|);
      assert buffer.Contents()[Offset(queries, |before|)..Offset(queries, |queries|)] == [];
    }

    /** RangeQueryResult::Add on the query begun last. */
    method Add(dis: real, id: int)
      requires Valid() && queries != []
      modifies this, buffer
      ensures Valid() && |Blocks()| == |old(Blocks())| > 0
      ensures var last := |queries| - 1;
              Blocks() == old(Blocks())[last := Block(old(Blocks())[last].qno,
                  old(Blocks())[last].data + [Entry(id, dis)])]
    {
      hide Offset, BlocksOf, BufferList.Contents;
      ghost var before, was := queries, buffer.Contents();
      var last := |queries| - 1;
      queries := queries[last := queries[last].(nres := queries[last].nres + 1)];
      buffer.Add(id, dis);
      GrownLast(before, was, Entry(id, dis));
    }
  }

  /** One more entry, counted for the last query, goes to the end of the last block. */
  lemma GrownLast(queries: seq<QueryResult>, all: seq<Entry>, e: Entry)
    requires queries != [] && Offset(queries, |queries|) == |all|
    ensures var last := |queries| - 1;
            var queries' := queries[last := queries[last].(nres := queries[last].nres + 1)];
            var blocks := BlocksOf(queries, all, |queries|);
            && Offset(queries', |queries|) == |all| + 1
            && BlocksOf(queries', all + [e], |queries|) == blocks[last := Block(blocks[last].qno, blocks[last].data + [e])]
  {
    var last := |queries| - 1;
    var queries' := queries[last := queries[last].(nres := queries[last].nres + 1)];
    assert queries'[..last] == queries[..last];
    OffsetOf(queries', queries, last);
    var lo := Offset(queries, last);
    assert (all + [e])[..lo] == all[..lo];
    BlocksOfPrefix(queries', queries, all + [e], all, last);
    assert (all + [e])[lo..|all| + 1] == all[lo..|all|] + [e];
  }

  /** The i-th block is what the i-th query's counter says, taken from the linear buffer. */
  lemma {:induction false} BlockAt(queries: seq<QueryResult>, all: seq<Entry>, n: nat, i: nat)
    requires i < n <= |queries| && Offset(queries, |queries|) == |all|
    ensures Offset(queries, i) + queries[i].nres <= |all|
    ensures BlocksOf(queries, all, n)[i]
        == Block(queries[i].qno, all[Offset(queries, i)..Offset(queries, i) + queries[i].nres])
  {
    OffsetAscends(queries, i + 1, |queries|);
    if i < n - 1 { BlockAt(queries, all, n - 1, i); }
  }

  ghost function BlocksOf(queries: seq<QueryResult>, all: seq<Entry>, i: nat): (b: seq<Block>)
    requires i <= |queries| && Offset(queries, |queries|) == |all|
    ensures |b| == i
  {
    if i == 0 then []
    else
      OffsetAscends(queries, i, |queries|);
      BlocksOf(queries, all, i - 1) + [Block(queries[i - 1].qno, all[Offset(queries, i - 1)..Offset(queries, i)])]
  }

  lemma {:induction false} BlocksOfPrefix(queries: seq<QueryResult>, queries': seq<QueryResult>, all: seq<Entry>,
      all': seq<Entry>, i: nat)
    requires i <= |queries| && i <= |queries'| && queries[..i] == queries'[..i]
    requires Offset(queries, |queries|) == |all| && Offset(queries', |queries'|) == |all'|
    requires Offset(queries, i) <= |all| && Offset(queries, i) <= |all'|
    requires all[..Offset(queries, i)] == all'[..Offset(queries, i)]
    ensures BlocksOf(queries, all, i) == BlocksOf(queries', all', i)
  {
    if i > 0 {
      var lo, hi := Offset(queries, i - 1), Offset(queries, i);
      assert queries[..i - 1] == queries[..i][..i - 1] == queries'[..i][..i - 1] == queries'[..i - 1];
      assert queries[i - 1] == queries[..i][i - 1] == queries'[..i][i - 1];
      OffsetOf(queries, queries', i - 1);
      assert all[..lo] == all[..hi][..lo] == all'[..hi][..lo] == all'[..lo];
      BlocksOfPrefix(queries, queries', all, all', i - 1);
      assert all[lo..hi] == all[..hi][lo..] == all'[..hi][lo..] == all'[lo..hi];
    }
  }

  // -------------------------------------------------------------------------
  // Merging
  // -------------------------------------------------------------------------

  function Flatten(parts: seq<seq<Block>>): seq<Block> {
    if parts == [] then [] else Flatten(parts[..|parts| - 1]) + parts[|parts| - 1]
  }

  lemma FlattenNext(parts: seq<seq<Block>>, j: nat)
    requires j < |parts|
    ensures Flatten(parts[..j + 1]) == Flatten(parts[..j]) + parts[j]
  {
    assert parts[..j + 1][..j] == parts[..j];
  }

  lemma {:induction false} FlattenPrefix(parts: seq<seq<Block>>, j: nat)
    requires j <= |parts|
    ensures Flatten(parts[..j]) <= Flatten(parts)
    decreases |parts| - j
  {
    if j < |parts| {
      FlattenNext(parts, j);
      FlattenPrefix(parts, j + 1);
    } else {
      assert parts[..j] == parts;
    }
  }

  /** Query q's block of the table holds what the first t blocks have for it; its limit is the cursor. */
  ghost predicate Copied(all: seq<Block>, t: nat, lims: seq<int>, out: seq<Entry>, q: nat) {
    && t <= |all| && q < |lims|
    && lims[q] == Start(all, q) + |Collect(all[..t], q)| <= |out|
    && out[Start(all, q)..lims[q]] == Collect(all[..t], q)
  }

  ghost predicate AllCopied(all: seq<Block>, t: nat, nq: nat, lims: seq<int>, out: seq<Entry>) {
    && nq <= |lims| && |out| == Start(all, nq)
    && forall q :: 0 <= q < nq ==> Copied(all, t, lims, out, q)
  }

  /** The block's own query. */
  lemma CopyOwn(all: seq<Block>, t: nat, nq: nat, lims: seq<int>, out: seq<Entry>)
    requires t < |all| && all[t].qno < nq <= |lims| && |out| == Start(all, nq) && Copied(all, t, lims, out, all[t].qno)
    ensures var b := all[t]; var at := lims[b.qno];
            && Start(all, b.qno) <= at && at + |b.data| <= Start(all, b.qno + 1) <= |out|
            && Copied(all, t + 1, lims[b.qno := at + |b.data|], Patch(out, at, b.data), b.qno)
  {
    hide Start, Collect, Patch;
    var b := all[t];
    var q := b.qno;
    StartNext(all, q);
    CollectNext(all, t, q);
    CollectPrefix(all, t + 1, q);
    StartAscends(all, q + 1, nq);
    var lo, at, data := Start(all, q), lims[q], b.data;
    PatchExtends(out, lo, at, data);
  }

  /** Any other query. */
  lemma CopyOther(all: seq<Block>, t: nat, nq: nat, lims: seq<int>, out: seq<Entry>, q: nat)
    requires t < |all| && all[t].qno < nq <= |lims| && |out| == Start(all, nq) && q < nq && q != all[t].qno
    requires Copied(all, t, lims, out, q)
    requires Start(all, all[t].qno) <= lims[all[t].qno]
    requires lims[all[t].qno] + |all[t].data| <= Start(all, all[t].qno + 1) <= |out|
    ensures var b := all[t]; var at := lims[b.qno];
            Copied(all, t + 1, lims[b.qno := at + |b.data|], Patch(out, at, b.data), q)
  {
    hide Start, Collect, Patch;
    var b := all[t];
    StartNext(all, q);
    CollectNext(all, t, q);
    CollectPrefix(all, t + 1, q);
    if q < b.qno { StartAscends(all, q + 1, b.qno); } else { StartAscends(all, b.qno + 1, q); }
    PatchElsewhere(out, lims[b.qno], b.data, Start(all, q), lims[q]);
  }

  lemma CopyBlock(all: seq<Block>, t: nat, nq: nat, lims: seq<int>, out: seq<Entry>)
    requires t < |all| && all[t].qno < nq && AllCopied(all, t, nq, lims, out)
    ensures var b := all[t]; var at := lims[b.qno];
            && 0 <= at && at + |b.data| <= |out|
            && AllCopied(all, t + 1, nq, lims[b.qno := at + |b.data|], Patch(out, at, b.data))
  {
    hide Copied, Patch, Start, Collect;
    CopyOwn(all, t, nq, lims, out);
    var at, data := lims[all[t].qno], all[t].data;
    var lims', out', next := lims[all[t].qno := at + |data|], Patch(out, at, data), t + 1;
    forall q | 0 <= q < nq ensures Copied(all, next, lims', out', q) {
      CopyEach(all, t, nq, lims, out, q, lims', out');
    }
  }

  lemma CopyEach(all: seq<Block>, t: nat, nq: nat, lims: seq<int>, out: seq<Entry>, q: nat, lims': seq<int>,
      out': seq<Entry>)
    requires t < |all| && all[t].qno < nq && AllCopied(all, t, nq, lims, out) && q < nq
    requires 0 <= lims[all[t].qno] && lims[all[t].qno] + |all[t].data| <= |out|
    requires lims' == lims[all[t].qno := lims[all[t].qno] + |all[t].data|]
    requires out' == Patch(out, lims[all[t].qno], all[t].data)
    ensures Copied(all, t + 1, lims', out', q)
  {
    hide Copied, Patch, Start, Collect;
    assert Copied(all, t, lims, out, q) && Copied(all, t, lims, out, all[t].qno);
    CopyOwn(all, t, nq, lims, out);
    if q != all[t].qno { CopyOther(all, t, nq, lims, out, q); }
  }

  /** CopyResult(incremental = true): each query's cursor moves past what was copied. */
  method CopyResult(p: RangeSearchPartialResult, lims: array<int>, labels: array<int>, distances: array<real>,
      ghost all: seq<Block>, ghost t: nat)
    requires p.Valid() && t + |p.Blocks()| <= |all| && all[t..t + |p.Blocks()|] == p.Blocks()
    requires lims.Length == p.res.nq + 1 && lims != labels && labels.Length == distances.Length
    requires AllCopied(all, t, p.res.nq, lims[..], Zip(labels[..], distances[..]))
    modifies lims, labels, distances
    ensures AllCopied(all, t + |p.Blocks()|, p.res.nq, lims[..], Zip(labels[..], distances[..]))
  {
    hide AllCopied, Patch, Zip, BlocksOf, Collect, Start;
    var ofs := 0;
    for i := 0 to |p.queries|
      invariant ofs == Offset(p.queries, i)
      invariant AllCopied(all, t + i, p.res.nq, lims[..], Zip(labels[..], distances[..]))
    {
      CopyQuery(p, i, ofs, lims, labels, distances, all, t);
      ofs := ofs + p.queries[i].nres;
    }
  }

  lemma QueryBlock(queries: seq<QueryResult>, contents: seq<Entry>, all: seq<Block>, t: nat, i: nat)
    requires Offset(queries, |queries|) == |contents| && i < |queries| && t + |queries| <= |all|
    requires all[t..t + |queries|] == BlocksOf(queries, contents, |queries|)
    ensures Offset(queries, i) + queries[i].nres <= |contents|
    ensures all[t + i] == Block(queries[i].qno, contents[Offset(queries, i)..Offset(queries, i) + queries[i].nres])
  {
    hide BlocksOf, Offset;
    BlockAt(queries, contents, |queries|, i);
    assert all[t + i] == all[t..t + |queries|][i];
  }

  method CopyQuery(p: RangeSearchPartialResult, i: nat, ofs: nat, lims: array<int>, labels: array<int>,
      distances: array<real>, ghost all: seq<Block>, ghost t: nat)
    requires p.Valid() && t + |p.Blocks()| <= |all| && all[t..t + |p.Blocks()|] == p.Blocks() && i < |p.queries|
    requires ofs == Offset(p.queries, i)
    requires lims.Length == p.res.nq + 1 && lims != labels && labels.Length == distances.Length
    requires AllCopied(all, t + i, p.res.nq, lims[..], Zip(labels[..], distances[..]))
    modifies lims, labels, distances
    ensures AllCopied(all, t + i + 1, p.res.nq, lims[..], Zip(labels[..], distances[..]))
  {
    hide AllCopied, Patch, Zip, BlocksOf, Collect, Start, Offset, BufferList.Contents, BufferList.Valid;
    var qres := p.queries[i];
    QueryBlock(p.queries, p.buffer.Contents(), all, t, i);
    ghost var l := lims[..];
    CopyBlock(all, t + i, p.res.nq, l, Zip(labels[..], distances[..]));
    p.buffer.CopyRange(ofs, qres.nres, labels, distances, lims[qres.qno]);
    lims[qres.qno] := lims[qres.qno] + qres.nres;
    assert lims[..] == l[qres.qno := l[qres.qno] + qres.nres];
  }

  /** Adds the number of results of each of p's queries to its count. */
  method CountResults(p: RangeSearchPartialResult, lims: array<int>, ghost before: seq<Block>)
    requires p.Valid() && lims.Length == p.res.nq + 1
    requires forall q {:trigger lims[q]} :: 0 <= q < p.res.nq ==> lims[q] == |Collect(before, q)|
    modifies lims
    ensures forall q {:trigger lims[q]} :: 0 <= q < p.res.nq ==> lims[q] == |Collect(before + p.Blocks(), q)|
  {
    hide BlocksOf, Collect;
    ghost var blocks := p.Blocks();
    assert before + blocks[..0] == before;
    for i := 0 to |p.queries|
      invariant forall q {:trigger lims[q]} :: 0 <= q < p.res.nq ==> lims[q] == |Collect(before + blocks[..i], q)|
    {
      var qres := p.queries[i];
      BlockAt(p.queries, p.buffer.Contents(), |p.queries|, i);
      ghost var l := lims[..];
      forall q: nat ensures |Collect(before + blocks[..i + 1], q)| == |Collect(before + blocks[..i], q)| + if qres.qno == q then qres.nres else 0 {
        CollectAppend(before + blocks[..i], blocks[i], q);
        assert before + blocks[..i + 1] == before + blocks[..i] + [blocks[i]];
      }
      lims[qres.qno] := lims[qres.qno] + qres.nres;
    }
    assert blocks[..|blocks|] == blocks;
  }

  lemma CollectAppend(blocks: seq<Block>, b: Block, q: nat)
    ensures Collect(blocks + [b], q) == Collect(blocks, q) + if b.qno == q then b.data else []
  {
    assert (blocks + [b])[..|blocks|] == blocks;
  }

  // -------------------------------------------------------------------------
  // The merge
  // -------------------------------------------------------------------------

  /** Query q's block of the result is everything the partial results found for q, in their order. */
  ghost predicate Merged(all: seq<Block>, nq: nat, lims: seq<int>, out: seq<Entry>) {
    && |lims| == nq + 1 && lims[0] == 0 && lims[nq] == |out|
    && forall q {:trigger Collect(all, q)} :: 0 <= q < nq ==>
         0 <= lims[q] <= lims[q + 1] <= |out| && out[lims[q]..lims[q + 1]] == Collect(all, q)
  }

  /** The partial results, their blocks in parts; a missing one has none. */
  ghost predicate Parts(partials: seq<RangeSearchPartialResult?>, result: RangeSearchResult, parts: seq<seq<Block>>)
    reads set j | 0 <= j < |partials| :: partials[j]
    reads set j | 0 <= j < |partials| && partials[j] != null :: partials[j].buffer
  {
    && |parts| == |partials|
    && forall j {:trigger parts[j]} :: 0 <= j < |partials| ==>
         if partials[j] == null then parts[j] == []
         else partials[j].Valid() && partials[j].res == result && partials[j].Blocks() == parts[j]
  }

  method CountAll(partials: seq<RangeSearchPartialResult?>, result: RangeSearchResult, ghost parts: seq<seq<Block>>)
    requires Parts(partials, result, parts) && result.lims.Length == result.nq + 1
    requires forall q {:trigger result.lims[q]} :: 0 <= q <= result.nq ==> result.lims[q] == 0
    modifies result.lims
    ensures forall q {:trigger result.lims[q]} :: 0 <= q < result.nq ==> result.lims[q] == |Collect(Flatten(parts), q)|
  {
    hide Collect, BlocksOf, Flatten;
    var lims := result.lims;
    NothingCollected();
    assert parts[..0] == [];
    for j := 0 to |partials|
      invariant Parts(partials, result, parts)
      invariant forall q {:trigger lims[q]} :: 0 <= q < result.nq ==> lims[q] == |Collect(Flatten(parts[..j]), q)|
    {
      FlattenNext(parts, j);
      assert parts[j] == parts[j];
      if partials[j] != null {
        CountResults(partials[j], lims, Flatten(parts[..j]));
      } else {
        assert Flatten(parts[..j]) + [] == Flatten(parts[..j]);
      }
    }
    assert parts[..|partials|] == parts;
  }

  lemma NothingCollected()
    ensures Flatten([]) == [] && forall q: nat :: Collect([], q) == []
  {
  }

  method CopyAll(partials: seq<RangeSearchPartialResult?>, result: RangeSearchResult, labels: array<int>,
      distances: array<real>, ghost parts: seq<seq<Block>>)
    requires Parts(partials, result, parts) && result.lims.Length == result.nq + 1 && result.lims != labels
    requires labels.Length == distances.Length
    requires AllCopied(Flatten(parts), 0, result.nq, result.lims[..], Zip(labels[..], distances[..]))
    modifies result.lims, labels, distances
    ensures var all := Flatten(parts);
            AllCopied(all, |all|, result.nq, result.lims[..], Zip(labels[..], distances[..]))
  {
    hide AllCopied, BlocksOf, Zip, Collect, Flatten;
    ghost var all := Flatten(parts);
    var lims := result.lims;
    FlattenNone();
    assert parts[..0] == [];
    for j := 0 to |partials|
      invariant Parts(partials, result, parts)
      invariant AllCopied(all, |Flatten(parts[..j])|, result.nq, lims[..], Zip(labels[..], distances[..]))
    {
      FlattenNext(parts, j);
      FlattenPrefix(parts, j + 1);
      assert parts[j] == parts[j];
      if partials[j] != null {
        ghost var t := |Flatten(parts[..j])|;
        assert all[t..t + |parts[j]|] == parts[j];
        CopyResult(partials[j], lims, labels, distances, all, t);
      }
    }
    assert parts[..|partials|] == parts;
  }

  lemma FlattenNone()
    ensures Flatten([]) == []
  {
  }

  /** Each cursor has reached the next query's start; shift them up by one. */
  method ResetLimits(result: RangeSearchResult, ghost all: seq<Block>)
    requires result.lims.Length == result.nq + 1
    requires forall q {:trigger result.lims[q]} :: 0 <= q < result.nq ==> result.lims[q] == Start(all, q + 1)
    modifies result.lims
    ensures forall q {:trigger result.lims[q]} :: 0 <= q <= result.nq ==> result.lims[q] == Start(all, q)
  {
    hide Collect;
    var lims := result.lims;
    var i := result.nq;
    while i > 0
      invariant 0 <= i <= result.nq
      invariant forall q {:trigger lims[q]} :: 0 <= q < i ==> lims[q] == Start(all, q + 1)
      invariant forall q {:trigger lims[q]} :: i < q <= result.nq ==> lims[q] == Start(all, q)
    {
      lims[i] := lims[i - 1];
      i := i - 1;
    }
    lims[0] := 0;
  }

  /** MAIN: for any partial results, buffer sizes and missing entries after the first, merging puts
      each query's results into one block, partial result by partial result; the limits are the
      offsets of the blocks. It throws when the result already has tables. */
  method Merge(partials: seq<RangeSearchPartialResult?>, result: RangeSearchResult, doDelete: bool,
      ghost parts: seq<seq<Block>>)
    returns (ok: bool, partials': seq<RangeSearchPartialResult?>)
    requires Parts(partials, result, parts) && (partials != [] ==> partials[0] != null)
    requires result.lims.Length == result.nq + 1
    requires forall q {:trigger result.lims[q]} :: 0 <= q <= result.nq ==> result.lims[q] == 0
    modifies result, result.lims
    ensures ok <==> partials == [] || (old(result.labels) == null && old(result.distances) == null)
    ensures ok && partials != [] ==>
              && result.labels != null && result.distances != null && result.labels.Length == result.distances.Length
              && Merged(Flatten(parts), result.nq, result.lims[..], Zip(result.labels[..], result.distances[..]))
    ensures partials' == if ok && doDelete then seq(|partials|, _ => null) else partials
  {
    hide Parts, Flatten, Merged, AllCopied, Zip, Collect;
    partials' := partials;
    if partials == [] { return true, if doDelete then seq(0, _ => null) else partials; }
    CountAll(partials, result, parts);
    ghost var all := Flatten(parts);
    ok := result.DoAllocation(all);
    if !ok { return; }
    var labels, distances := result.labels, result.distances;
    ReadyToCopy(all, result.nq, result.lims[..], Zip(labels[..], distances[..]));
    CopyAll(partials, result, labels, distances, parts);
    Finish(result, labels, distances, all);
    if doDelete { partials' := seq(|partials|, _ => null); }
  }

  method Finish(result: RangeSearchResult, labels: array<int>, distances: array<real>, ghost all: seq<Block>)
    requires result.lims.Length == result.nq + 1 && result.lims != labels && labels.Length == distances.Length
    requires AllCopied(all, |all|, result.nq, result.lims[..], Zip(labels[..], distances[..]))
    modifies result.lims
    ensures Merged(all, result.nq, result.lims[..], Zip(labels[..], distances[..]))
  {
    hide AllCopied, Merged, Zip, Collect, Start, InBlocks;
    ghost var out := Zip(labels[..], distances[..]);
    AllMerged(all, result.nq, result.lims[..], out);
    assert forall q {:trigger result.lims[q]} :: 0 <= q < result.nq ==> result.lims[q] == result.lims[..][q];
    ResetLimits(result, all);
    assert forall q {:trigger result.lims[..][q]} :: 0 <= q <= result.nq ==> result.lims[..][q] == result.lims[q];
    StartsAreMerged(all, result.nq, result.lims[..], out);
  }

  ghost predicate InBlocks(all: seq<Block>, nq: nat, out: seq<Entry>) {
    forall q {:trigger Collect(all, q)} :: 0 <= q < nq ==> Start(all, q) <= Start(all, q + 1) <= |out| && out[Start(all, q)..Start(all, q + 1)] == Collect(all, q)
  }

  lemma ReadyToCopy(all: seq<Block>, nq: nat, lims: seq<int>, out: seq<Entry>)
    requires |lims| == nq + 1 && |out| == Start(all, nq)
    requires forall q {:trigger lims[q]} :: 0 <= q <= nq ==> lims[q] == Start(all, q)
    ensures AllCopied(all, 0, nq, lims, out)
  {
    forall q | 0 <= q < nq ensures Copied(all, 0, lims, out, q) {
      StartAscends(all, q, nq);
      assert all[..0] == [];
    }
  }

  lemma AllMerged(all: seq<Block>, nq: nat, lims: seq<int>, out: seq<Entry>)
    requires AllCopied(all, |all|, nq, lims, out)
    ensures |out| == Start(all, nq)
    ensures forall q {:trigger lims[q]} :: 0 <= q < nq ==> lims[q] == Start(all, q + 1)
    ensures InBlocks(all, nq, out)
  {
    assert all[..|all|] == all;
    forall q {:trigger Collect(all, q)} | 0 <= q < nq ensures lims[q] == Start(all, q + 1)
        <= |out| && out[Start(all, q)..Start(all, q + 1)] == Collect(all, q) {
      assert Copied(all, |all|, lims, out, q);
    }
  }

  lemma StartsAreMerged(all: seq<Block>, nq: nat, lims: seq<int>, out: seq<Entry>)
    requires |lims| == nq + 1 && |out| == Start(all, nq)
    requires forall q {:trigger lims[q]} :: 0 <= q <= nq ==> lims[q] == Start(all, q)
    requires InBlocks(all, nq, out)
    ensures Merged(all, nq, lims, out)
  {
    assert lims[0] == Start(all, 0) && lims[nq] == Start(all, nq);
    forall q {:trigger Collect(all, q)} | 0 <= q < nq ensures 0 <= lims[q] <= lims[q + 1]
        <= |out| && out[lims[q]..lims[q + 1]] == Collect(all, q) {
      assert lims[q] == Start(all, q) && lims[q + 1] == Start(all, q + 1);
    }
  }

  // -------------------------------------------------------------------------
  // Conservation
  // -------------------------------------------------------------------------

  /** All entries of the blocks of the first m queries. */
  function DataBelow(blocks: seq<Block>, m: nat): multiset<Entry> {
    if blocks == [] then multiset{}
    else
      var last := blocks[|blocks| - 1];
      DataBelow(blocks[..|blocks| - 1], m) + if last.qno < m then multiset(last.data) else multiset{}
  }

  lemma {:induction false} OneMoreQuery(blocks: seq<Block>, m: nat)
    ensures DataBelow(blocks, m + 1) == DataBelow(blocks, m) + multiset(Collect(blocks, m))
  {
    if blocks != [] { OneMoreQuery(blocks[..|blocks| - 1], m); }
  }

  lemma {:induction false} NoQuery(blocks: seq<Block>)
    ensures DataBelow(blocks, 0) == multiset{}
  {
    if blocks != [] { NoQuery(blocks[..|blocks| - 1]); }
  }

  lemma {:induction false} MergedPrefix(all: seq<Block>, nq: nat, lims: seq<int>, out: seq<Entry>, m: nat)
    requires Merged(all, nq, lims, out) && m <= nq && |lims| == nq + 1
    ensures 0 <= lims[m] <= |out| && multiset(out[..lims[m]]) == DataBelow(all, m)
  {
    hide DataBelow, Collect, Merged;
    if m == 0 {
      NoQuery(all);
      MergedEnds(all, nq, lims, out);
      assert out[..0] == [];
    } else {
      MergedPrefix(all, nq, lims, out, m - 1);
      OneMoreQuery(all, m - 1);
      MergedAt(all, nq, lims, out, m - 1);
      assert out[..lims[m]] == out[..lims[m - 1]] + out[lims[m - 1]..lims[m]];
    }
  }

  lemma MergedEnds(all: seq<Block>, nq: nat, lims: seq<int>, out: seq<Entry>)
    requires Merged(all, nq, lims, out)
    ensures |lims| == nq + 1 && lims[0] == 0 && lims[nq] == |out|
  {
  }

  lemma MergedAt(all: seq<Block>, nq: nat, lims: seq<int>, out: seq<Entry>, q: nat)
    requires Merged(all, nq, lims, out) && q < nq
    ensures |lims| == nq + 1
    ensures 0 <= lims[q] <= lims[q + 1] <= |out| && out[lims[q]..lims[q + 1]] == Collect(all, q)
  {
    assert Collect(all, q) == Collect(all, q);
  }

  /** MAIN: merging neither loses nor duplicates an entry. */
  lemma NothingLostOrDuplicated(all: seq<Block>, nq: nat, lims: seq<int>, out: seq<Entry>)
    requires Merged(all, nq, lims, out)
    ensures multiset(out) == DataBelow(all, nq)
  {
    MergedEnds(all, nq, lims, out);
    MergedPrefix(all, nq, lims, out, nq);
    assert out[..|out|] == out;
  }

  // -------------------------------------------------------------------------
  // Order
  // -------------------------------------------------------------------------

  /** How many entries the blocks hold for query q. */
  function SizeFor(blocks: seq<Block>, q: nat): nat {
    if blocks == [] then 0
    else
      var last := blocks[|blocks| - 1];
      SizeFor(blocks[..|blocks| - 1], q) + if last.qno == q then |last.data| else 0
  }

  lemma {:induction false} CollectSize(blocks: seq<Block>, q: nat)
    ensures |Collect(blocks, q)| == SizeFor(blocks, q)
  {
    if blocks != [] { CollectSize(blocks[..|blocks| - 1], q); }
  }

  /** An entry of block t lies behind everything the earlier blocks hold for its query. */
  lemma {:induction false} CollectAt(blocks: seq<Block>, t: nat, e: nat)
    requires t < |blocks| && e < |blocks[t].data|
    ensures var at, c := SizeFor(blocks[..t], blocks[t].qno) + e, Collect(blocks, blocks[t].qno);
            at < |c| && c[at] == blocks[t].data[e]
  {
    var q, n := blocks[t].qno, |blocks| - 1;
    CollectSize(blocks[..t], q);
    if t < n {
      CollectAt(blocks[..n], t, e);
      assert blocks[..n][..t] == blocks[..t];
    }
  }

  lemma {:induction false} FlattenAt(parts: seq<seq<Block>>, p: nat, k: nat)
    requires p < |parts| && k < |parts[p]|
    ensures var t := |Flatten(parts[..p])| + k;
            && t < |Flatten(parts)| && Flatten(parts)[t] == parts[p][k]
            && Flatten(parts)[..t] == Flatten(parts[..p]) + parts[p][..k]
  {
    var n := |parts| - 1;
    if p < n {
      FlattenAt(parts[..n], p, k);
      assert parts[..n][..p] == parts[..p];
      var t := |Flatten(parts[..p])| + k;
      assert Flatten(parts)[..t] == Flatten(parts[..n])[..t];
    } else {
      assert parts[..n] == parts[..p];
    }
  }

  /** Entries for query q in front of block k of partial result p. */
  function InFront(parts: seq<seq<Block>>, p: nat, k: nat, q: nat): nat
    requires p < |parts| && k <= |parts[p]|
  {
    SizeFor(Flatten(parts[..p]) + parts[p][..k], q)
  }

  /** MAIN: entry e of block k of partial result p ends up in its query's block of the result, behind all
      entries of earlier partial results and of earlier blocks of the same one, and no others. */
  lemma EntryPlace(parts: seq<seq<Block>>, nq: nat, lims: seq<int>, out: seq<Entry>, p: nat, k: nat, e: nat)
    requires Merged(Flatten(parts), nq, lims, out)
    requires p < |parts| && k < |parts[p]| && e < |parts[p][k].data| && parts[p][k].qno < nq
    ensures var q := parts[p][k].qno;
            var at := lims[q] + InFront(parts, p, k, q) + e;
            && |lims| == nq + 1 && 0 <= lims[q] && at < lims[q + 1] <= |out|
            && out[at] == parts[p][k].data[e]
  {
    hide Flatten, Merged, Collect;
    var all, q, t := Flatten(parts), parts[p][k].qno, |Flatten(parts[..p])| + k;
    FlattenAt(parts, p, k);
    CollectAt(all, t, e);
    MergedAt(all, nq, lims, out, q);
    var at := InFront(parts, p, k, q) + e;
    assert out[lims[q]..lims[q + 1]][at] == out[lims[q] + at];
  }

  /** Query q's block is as long as all partial results together have entries for it. */
  lemma BlockSize(parts: seq<seq<Block>>, nq: nat, lims: seq<int>, out: seq<Entry>, q: nat)
    requires Merged(Flatten(parts), nq, lims, out) && q < nq
    ensures |lims| == nq + 1 && lims[q + 1] - lims[q] == SizeFor(Flatten(parts), q)
  {
    hide Flatten, Merged, Collect;
    MergedAt(Flatten(parts), nq, lims, out, q);
    CollectSize(Flatten(parts), q);
  }
}
