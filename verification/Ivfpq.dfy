/**
 The inverted file over a product quantizer: scoring a code by the precomputed table, by the residual's
 table, or directly, over exact reals.
 */
module Ivfpq {
  import opened Bits
  import opened Rows
  import opened Vectors
  import opened Collections
  import opened PqCodes
  import opened Pq

  datatype Entry = Entry(id: int, code: seq<int>)

  datatype Score = Score(id: int, dis: real)

  /** Term 1 plus twice term 2: ||p||^2 + 2 <c, p>, entry by entry. */
  ghost predicate Combined(pre: seq<real>, norms: seq<real>, products: seq<real>) {
    |pre| == |norms| == |products| && forall t :: 0 <= t < |pre| ==> pre[t] == norms[t] + 2.0 * products[t]
  }

  /** The query's part: minus 2 <q, p>. */
  ghost predicate Shifted(table: seq<real>, pre: seq<real>, qip: seq<real>) {
    |table| == |pre| == |qip| && forall t :: 0 <= t < |table| ==> table[t] == pre[t] - 2.0 * qip[t]
  }

  lemma {:induction false} LookupLinear(table: seq<real>, pre: seq<real>, norms: seq<real>, products: seq<real>,
      qip: seq<real>, codes: seq<nat>, ksub: nat, M: nat)
    requires Combined(pre, norms, products) && Shifted(table, pre, qip)
    requires M <= |codes| && forall m :: 0 <= m < M ==> Row(m, ksub) + codes[m] < |table|
    ensures Lookup(table, codes, ksub, M)
         == Lookup(norms, codes, ksub, M) + 2.0 * Lookup(products, codes, ksub, M) - 2.0 * Lookup(qip, codes, ksub, M)
  {
    if M > 0 { LookupLinear(table, pre, norms, products, qip, codes, ksub, M - 1); }
  }

  /** MAIN: coarse distance plus precomputed entries minus twice the inner products is the squared
      distance to the centroid plus the decoded residual, for every code and split of the dimensions. */
  lemma PrecomputedScore(q: seq<real>, c: seq<real>, words: seq<real>, codes: seq<nat>, d: nat, ksub: nat, M: nat,
      table: seq<real>, pre: seq<real>)
    requires Codebook(words, codes, d, ksub, M) && |q| == |c| == Row(M, d)
    requires Combined(pre, Table(Norms, [], words, d, ksub, M), Table(Products, c, words, d, ksub, M))
    requires Shifted(table, pre, Table(Products, q, words, d, ksub, M))
    ensures forall m :: 0 <= m < M ==> Row(m, ksub) + codes[m] < |table|
    ensures |Chosen(words, codes, d, ksub, M)| == |c|
    ensures L2(q, c) + Lookup(table, codes, ksub, M) == L2(q, Add(c, Chosen(words, codes, d, ksub, M)))
  {
    NormsOnly(c, [], words, d, ksub, M);
    LookupIsProduct(c, words, codes, d, ksub, M, M);
    LookupIsProduct(q, words, codes, d, ksub, M, M);
    assert q[..Row(M, d)] == q && c[..Row(M, d)] == c;
    LookupLinear(table, pre, Table(Norms, [], words, d, ksub, M), Table(Products, c, words, d, ksub, M),
        Table(Products, q, words, d, ksub, M), codes, ksub, M);
    L2OfSum(q, c, Chosen(words, codes, d, ksub, M));
  }

  /** The residual's table gives the same score. */
  lemma ResidualScore(q: seq<real>, c: seq<real>, words: seq<real>, codes: seq<nat>, d: nat, ksub: nat, M: nat)
    requires Codebook(words, codes, d, ksub, M) && |q| == |c| == Row(M, d)
    ensures forall m :: 0 <= m < M ==> Row(m, ksub) + codes[m] < Row(M, ksub)
    ensures |Chosen(words, codes, d, ksub, M)| == |c|
    ensures Lookup(Table(Distances, Minus(q, c), words, d, ksub, M), codes, ksub, M)
        == L2(q, Add(c, Chosen(words, codes, d, ksub, M)))
  {
    LookupIsDistance(Minus(q, c), words, codes, d, ksub, M, M);
    assert Minus(q, c)[..Row(M, d)] == Minus(q, c);
    L2OfDifference(q, c, Chosen(words, codes, d, ksub, M));
  }

  class IndexIVFPQ {
    const pq: ProductQuantizer
    const nlist: nat
    const byResidual: bool
    var usePrecomputedTable: bool
    var centroids: seq<real>
    var precomputedTable: array<real>
    var invlists: seq<seq<Entry>>
    var isTrained: bool

    ghost predicate Valid()
      reads this, pq
    {
      && pq.Valid() && |centroids| == Row(nlist, pq.d) && |invlists| == nlist
      && forall l, j :: 0 <= l < nlist && 0 <= j < |invlists[l]| ==> Bytes(invlists[l][j].code) && |invlists[l][j].code| == pq.codeSize
    }

    constructor (pq: ProductQuantizer, nlist: nat, byResidual: bool)
      ensures this.pq == pq && this.nlist == nlist && this.byResidual == byResidual && !isTrained
      ensures !usePrecomputedTable && fresh(precomputedTable)
    {
      this.pq, this.nlist, this.byResidual := pq, nlist, byResidual;
      usePrecomputedTable, centroids, invlists, isTrained := false, [], [], false;
      precomputedTable := new real[0];
    }

    function Centroid(listNo: nat): seq<real>
      reads this
    {
      if pq.d >= 0 then Sub(centroids, listNo, pq.d) else []
    }

    lemma CentroidLength(listNo: nat)
      requires Valid() && listNo < nlist
      ensures |Centroid(listNo)| == pq.d
    {
      RowNext(listNo, nlist, pq.d);
    }

    /** Entry t of a table for one coarse cell. */
    ghost predicate CellPrecomputed(cell: seq<real>, listNo: nat)
      reads this, pq
      requires pq.Valid()
    {
      Combined(cell, Table(Norms, [], pq.centroids, pq.dsub, pq.ksub, pq.M),
          Table(Products, Centroid(listNo), pq.centroids, pq.dsub, pq.ksub, pq.M))
    }

    /** The cache holds every cell's table. */
    ghost predicate Precomputed()
      reads this, pq, precomputedTable
      requires pq.Valid()
    {
      && precomputedTable.Length == Row(nlist, Row(pq.M, pq.ksub))
      && forall l :: 0 <= l < nlist ==> CellPrecomputed(Sub(precomputedTable[..], l, Row(pq.M, pq.ksub)), l)
    }

    /** What a code in a list reconstructs to. */
    ghost function Reconstruction(listNo: nat, code: seq<int>): seq<real>
      reads this, pq
      requires Valid() && Bytes(code)
    {
      var p := Chosen(pq.centroids, pq.Codes(code), pq.dsub, pq.ksub, pq.M);
      if byResidual && |Centroid(listNo)| == |p| then Add(Centroid(listNo), p) else p
    }

    /** Component i of a reconstruction: the codeword's, plus the list's centroid's for residual codes. */
    lemma ReconstructionAt(listNo: nat, code: seq<int>, m: nat, t: nat) returns (word: real, centroid: real)
      requires Valid() && listNo < nlist && Bytes(code) && m < pq.M && t < pq.dsub
      ensures At(pq.centroids, (m * pq.ksub + pq.Codes(code)[m]) * pq.dsub + t, word)
      ensures At(centroids, listNo * pq.d + (m * pq.dsub + t), centroid)
      ensures At(Reconstruction(listNo, code), m * pq.dsub + t, if byResidual then word + centroid else word)
    {
      hide Chosen, Unpack, Value, Row, Sub;
      var i := m * pq.dsub + t;
      word := pq.DecodedAt(code, m, t);
      pq.CodesFit(code);
      ChosenLength(pq.centroids, pq.Codes(code), pq.dsub, pq.ksub, pq.M, pq.M);
      CentroidLength(listNo);
      CentroidRow(listNo);
      SubAt(centroids, listNo, pq.d, i);
      centroid := Centroid(listNo)[i];
    }

    lemma CentroidRow(listNo: nat)
      requires Valid() && listNo < nlist
      ensures Row(listNo, pq.d) + pq.d <= |centroids|
    {
      RowNext(listNo, nlist, pq.d);
    }

    /** Throws unless everything is trained and residuals are encoded. */
    method PrecomputeTable() returns (ok: bool)
      requires Valid()
      modifies this`precomputedTable
      ensures ok <==> isTrained && pq.isTrained && byResidual
      ensures !ok ==> precomputedTable == old(precomputedTable)
      ensures ok ==> fresh(precomputedTable) && Valid() && Precomputed()
    {
      if !isTrained { return false; }
      if !pq.isTrained { return false; }
      if !byResidual { return false; }
      var cell := Row(pq.M, pq.ksub);
      var norms := new real[cell];
      FillTable(Norms, [], pq.centroids, pq.dsub, pq.ksub, pq.M, norms, 0);
      PatchAll(seq(cell, _ => 0.0), Table(Norms, [], pq.centroids, pq.dsub, pq.ksub, pq.M));
      var table := new real[Row(nlist, cell)](_ => 0.0);
      FillCells(table, norms[..]);
      precomputedTable := table;
      ok := true;
    }

    method FillCells(table: array<real>, norms: seq<real>)
      requires Valid() && table.Length == Row(nlist, Row(pq.M, pq.ksub))
      requires norms == Table(Norms, [], pq.centroids, pq.dsub, pq.ksub, pq.M)
      modifies table
      ensures forall l :: 0 <= l < nlist ==> CellPrecomputed(Sub(table[..], l, Row(pq.M, pq.ksub)), l)
    {
      hide Row, Table, Sub, Combined, Patch;
      var cell := Row(pq.M, pq.ksub);
      for i := 0 to nlist
        invariant forall l :: 0 <= l < i ==> CellPrecomputed(Sub(table[..], l, cell), l)
      {
        RowNext(i, nlist, cell);
        ghost var was := table[..];
        ghost var w := FillCell(table, Row(i, cell), norms, Centroid(i));
        PatchRow(was, i, w, nlist, cell, i);
        forall l | 0 <= l < i ensures CellPrecomputed(Sub(table[..], l, cell), l) {
          PatchRow(was, i, w, nlist, cell, l);
        }
      }
    }

    /** Inner products with the centroid, then combined with the norms in place. */
    method FillCell(table: array<real>, at: nat, norms: seq<real>, c: seq<real>) returns (ghost w: seq<real>)
      requires pq.Valid() && at + Row(pq.M, pq.ksub) <= table.Length && |norms| == Row(pq.M, pq.ksub)
      modifies table
      ensures |w| == |norms| && table[..] == Patch(old(table[..]), at, w)
      ensures Combined(w, norms, Table(Products, c, pq.centroids, pq.dsub, pq.ksub, pq.M))
    {
      hide Row, Table, Patch;
      ghost var was := table[..];
      FillTable(Products, c, pq.centroids, pq.dsub, pq.ksub, pq.M, table, at);
      w := Table(Products, c, pq.centroids, pq.dsub, pq.ksub, pq.M);
      ghost var products := w;
      for t := 0 to |norms|
        invariant |w| == |norms| == |products| && table[..] == Patch(was, at, w)
        invariant forall u :: 0 <= u < t ==> w[u] == norms[u] + 2.0 * products[u]
        invariant forall u :: t <= u < |w| ==> w[u] == products[u]
      {
        PatchSet(was, at, w, t, norms[t] + 2.0 * products[t]);
        table[at + t] := norms[t] + 2.0 * table[at + t];
        w := w[t := norms[t] + 2.0 * products[t]];
      }
    }

    // -----------------------------------------------------------------------
    // Scoring
    // -----------------------------------------------------------------------

    /** The table for one (query, list) pair, by the path in use. */
    method ListTable(xq: seq<real>, listNo: nat, qip: seq<real>, disTable: array<real>)
      requires Valid() && |xq| == pq.d && listNo < nlist && disTable.Length == Row(pq.M, pq.ksub) && pq.isTrained
      requires usePrecomputedTable ==>
          byResidual && Precomputed() && qip == Table(Products, xq, pq.centroids, pq.dsub, pq.ksub, pq.M)
      requires !usePrecomputedTable && !byResidual ==>
          disTable[..] == Table(Distances, xq, pq.centroids, pq.dsub, pq.ksub, pq.M)
      requires disTable != precomputedTable
      modifies disTable
      ensures TableFor(xq, listNo, disTable[..])
    {
      hide Row, Table, Sub, Combined, Patch;
      if usePrecomputedTable {
        var pre := Sub(precomputedTable[..], listNo, Row(pq.M, pq.ksub));
        assert CellPrecomputed(pre, listNo);
        CombinedLength(pre, Table(Norms, [], pq.centroids, pq.dsub, pq.ksub, pq.M),
            Table(Products, Centroid(listNo), pq.centroids, pq.dsub, pq.ksub, pq.M));
        for t := 0 to disTable.Length
          invariant forall u :: 0 <= u < t ==> disTable[u] == pre[u] - 2.0 * qip[u]
        {
          disTable[t] := pre[t] - 2.0 * qip[t];
        }
        assert Shifted(disTable[..], pre, qip);
      } else if byResidual {
        CentroidLength(listNo);
        var residualQuery := Minus(xq, Centroid(listNo));
        var _ := pq.ComputeDistanceTable(residualQuery, disTable);
      }
    }

    /** Every code of one list against the table. */
    method ScanList(xq: seq<real>, listNo: nat, listOffset: real, table: seq<real>) returns (scores: seq<Score>)
      requires Valid() && |xq| == pq.d && listNo < nlist && TableFor(xq, listNo, table)
      requires usePrecomputedTable ==> byResidual
      requires listOffset == if usePrecomputedTable then L2(xq, Centroid(listNo)) else 0.0
      ensures scores == ListScores(xq, listNo, |invlists[listNo]|)
    {
      hide TableFor, Lookup, Row, Unpack, Value, Reconstruction, L2;
      scores := [];
      for j := 0 to |invlists[listNo]|
        invariant scores == ListScores(xq, listNo, j)
      {
        var entry := invlists[listNo][j];
        ScoreIsDistance(xq, listNo, entry.code, table);
        TableLength(xq, listNo, table);
        var dis := pq.ApplyDistanceTable(table, entry.code);
        scores := scores + [Score(entry.id, listOffset + dis)];
      }
    }

    lemma TableLength(xq: seq<real>, listNo: nat, table: seq<real>)
      requires Valid() && TableFor(xq, listNo, table)
      ensures |table| == Row(pq.M, pq.ksub)
    {
    }

    /** The first n entries of a list with their exact distances. */
    ghost function ListScores(xq: seq<real>, listNo: nat, n: nat): seq<Score>
      reads this, pq
      requires Valid() && listNo < nlist && n <= |invlists[listNo]|
    {
      if n == 0 then []
      else
        var entry := invlists[listNo][n - 1];
        ListScores(xq, listNo, n - 1) + [Score(entry.id, L2(xq, Reconstruction(listNo, entry.code)))]
    }

    /** The probed lists one after the other; a negative list number is no list. */
    ghost function AllScores(xq: seq<real>, listIds: seq<int>, n: nat): seq<Score>
      reads this, pq
      requires Valid() && n <= |listIds| && forall i :: 0 <= i < |listIds| ==> listIds[i] < nlist
    {
      if n == 0 then []
      else AllScores(xq, listIds, n - 1) + if listIds[n - 1] < 0 then [] else ListScores(xq, listIds[n - 1], |invlists[listIds[n - 1]]|)
    }

    function ListSize(listNo: int): nat
      reads this
    {
      if 0 <= listNo < |invlists| then |invlists[listNo]| else 0
    }

    /** Where the scores of probe n start: behind those of all earlier probes. */
    function ProbeStart(listIds: seq<int>, n: nat): nat
      reads this
      requires n <= |listIds|
    {
      if n == 0 then 0 else ProbeStart(listIds, n - 1) + ListSize(listIds[n - 1])
    }

    /** Entry j of list listNo was scored: its own id, and the distance to what its code stands for. */
    ghost predicate ScoredAs(scores: seq<Score>, from: nat, xq: seq<real>, listNo: nat, j: nat)
      reads this, pq
      requires Valid()
    {
      && listNo < nlist && j < |invlists[listNo]| && from + j < |scores|
      && scores[from + j].id == invlists[listNo][j].id
      && scores[from + j].dis == L2(xq, Reconstruction(listNo, invlists[listNo][j].code))
    }

    lemma {:induction false} ListScoresAt(xq: seq<real>, listNo: nat, n: nat, j: nat)
      requires Valid() && listNo < nlist && j < n <= |invlists[listNo]|
      ensures |ListScores(xq, listNo, n)| == n && ScoredAs(ListScores(xq, listNo, n), 0, xq, listNo, j)
    {
      hide Reconstruction, L2;
      if j < n - 1 { ListScoresAt(xq, listNo, n - 1, j); } else { ListScoresLength(xq, listNo, n - 1); }
    }

    lemma {:induction false} ListScoresLength(xq: seq<real>, listNo: nat, n: nat)
      requires Valid() && listNo < nlist && n <= |invlists[listNo]|
      ensures |ListScores(xq, listNo, n)| == n
    {
      hide Reconstruction, L2;
      if n > 0 { ListScoresLength(xq, listNo, n - 1); }
    }

    lemma {:induction false} AllScoresLength(xq: seq<real>, listIds: seq<int>, n: nat)
      requires Valid() && n <= |listIds| && forall i :: 0 <= i < |listIds| ==> listIds[i] < nlist
      ensures |AllScores(xq, listIds, n)| == ProbeStart(listIds, n)
    {
      hide ListScores;
      if n > 0 {
        AllScoresLength(xq, listIds, n - 1);
        if listIds[n - 1] >= 0 { ListScoresLength(xq, listIds[n - 1], |invlists[listIds[n - 1]]|); }
      }
    }

    lemma {:induction false} AllScoresAt(xq: seq<real>, listIds: seq<int>, n: nat, i: nat, j: nat)
      requires Valid() && i < n <= |listIds| && forall i :: 0 <= i < |listIds| ==> listIds[i] < nlist
      requires j < ListSize(listIds[i])
      ensures ScoredAs(AllScores(xq, listIds, n), ProbeStart(listIds, i), xq, listIds[i], j)
    {
      hide ListScores, Reconstruction, L2;
      AllScoresLength(xq, listIds, n - 1);
      if i < n - 1 {
        AllScoresAt(xq, listIds, n - 1, i, j);
      } else {
        ListScoresAt(xq, listIds[i], |invlists[listIds[i]]|, j);
      }
    }

    /** Behind the earlier probes' scores come those of probe i's list, one for each entry. */
    ghost predicate ProbeScored(scores: seq<Score>, xq: seq<real>, listIds: seq<int>, i: nat)
      reads this, pq
      requires Valid() && i < |listIds|
    {
      && 0 <= listIds[i] < nlist && ProbeStart(listIds, i) + |invlists[listIds[i]]| <= |scores|
      && forall j :: 0 <= j < |invlists[listIds[i]]| ==> ScoredAs(scores, ProbeStart(listIds, i), xq, listIds[i], j)
    }

    lemma ProbeIsScored(xq: seq<real>, listIds: seq<int>, i: nat)
      requires Valid() && i < |listIds| && forall i :: 0 <= i < |listIds| ==> listIds[i] < nlist
      requires listIds[i] >= 0
      ensures ProbeScored(AllScores(xq, listIds, |listIds|), xq, listIds, i)
    {
      hide AllScores, Reconstruction, L2;
      var scores, l := AllScores(xq, listIds, |listIds|), listIds[i];
      if |invlists[l]| == 0 {
        AllScoresLength(xq, listIds, |listIds|);
        StartsAscend(listIds, i, |listIds|);
      } else {
        AllScoresAt(xq, listIds, |listIds|, i, |invlists[l]| - 1);
      }
      forall j | 0 <= j < |invlists[l]| ensures ScoredAs(scores, ProbeStart(listIds, i), xq, l, j) {
        AllScoresAt(xq, listIds, |listIds|, i, j);
      }
    }

    lemma {:induction false} StartsAscend(listIds: seq<int>, i: nat, n: nat)
      requires i <= n <= |listIds|
      ensures ProbeStart(listIds, i) <= ProbeStart(listIds, n)
    {
      if i < n { StartsAscend(listIds, i, n - 1); }
    }

    /** MAIN: one query against its probed lists. Whichever table path is in use, every code of every
        probed list is scored, under its own id, with the squared distance from the query to the
        reconstructed vector, and nothing else is. */
    method SearchOne(xq: seq<real>, listIds: seq<int>, centroidDis: seq<real>) returns (ok: bool, scores: seq<Score>)
      requires Valid() && |xq| == pq.d && (isTrained ==> pq.isTrained)
      requires (usePrecomputedTable ==> byResidual && Precomputed())
      requires |centroidDis| == |listIds| && forall i :: 0 <= i < |listIds| ==> listIds[i] < nlist
      requires forall i :: 0 <= i < |listIds| && listIds[i] >= 0 ==> centroidDis[i] == L2(xq, Centroid(listIds[i]))
      ensures ok == isTrained
      ensures ok ==> |scores| == ProbeStart(listIds, |listIds|)
      ensures ok ==> forall i :: 0 <= i < |listIds| && 0 <= listIds[i] ==> ProbeScored(scores, xq, listIds, i)
    {
      if !isTrained { return false, []; }
      hide Row, Ready, L2, ListScores, AllScores, Precomputed, ProbeScored, ScoredAs, Reconstruction;
      var disTable := new real[Row(pq.M, pq.ksub)](_ => 0.0);
      var qipTable := QueryTables(xq, disTable);
      scores := ScanLists(xq, listIds, centroidDis, qipTable, disTable);
      AllScoresLength(xq, listIds, |listIds|);
      forall i | 0 <= i < |listIds| && 0 <= listIds[i] ensures ProbeScored(scores, xq, listIds, i) {
        ProbeIsScored(xq, listIds, i);
      }
      ok := true;
    }

    method ScanLists(xq: seq<real>, listIds: seq<int>, centroidDis: seq<real>, qip: seq<real>, disTable: array<real>)
      returns (scores: seq<Score>)
      requires Valid() && |xq| == pq.d && pq.isTrained && (usePrecomputedTable ==> byResidual && Precomputed())
      requires |centroidDis| == |listIds| && forall i :: 0 <= i < |listIds| ==> listIds[i] < nlist
      requires forall i :: 0 <= i < |listIds| && listIds[i] >= 0 ==> centroidDis[i] == L2(xq, Centroid(listIds[i]))
      requires disTable != precomputedTable && Ready(xq, disTable[..], qip)
      modifies disTable
      ensures scores == AllScores(xq, listIds, |listIds|)
    {
      hide Ready, L2, ListScores, AllScores, Precomputed;
      scores := [];
      AllScoresNext(xq, listIds, 0);
      for pi := 0 to |listIds|
        invariant Ready(xq, disTable[..], qip)
        invariant scores == AllScores(xq, listIds, pi)
      {
        AllScoresNext(xq, listIds, pi);
        if listIds[pi] >= 0 {
          var found := ProbeList(xq, listIds[pi], centroidDis[pi], qip, disTable);
          scores := scores + found;
        }
      }
    }

    lemma AllScoresNext(xq: seq<real>, listIds: seq<int>, n: nat)
      requires Valid() && n <= |listIds| && forall i :: 0 <= i < |listIds| ==> listIds[i] < nlist
      ensures AllScores(xq, listIds, 0) == []
      ensures n < |listIds| ==> AllScores(xq, listIds, n + 1) == AllScores(xq, listIds, n) + if listIds[n] < 0 then [] else ListScores(xq, listIds[n], |invlists[listIds[n]]|)
    {
    }

    /** What is computed once per query: inner products for the precomputed path, distances for plain codes. */
    ghost predicate Ready(xq: seq<real>, disTable: seq<real>, qip: seq<real>)
      reads this, pq
      requires pq.Valid()
    {
      && |disTable| == Row(pq.M, pq.ksub)
      && (usePrecomputedTable ==> qip == Table(Products, xq, pq.centroids, pq.dsub, pq.ksub, pq.M))
      && (!usePrecomputedTable && !byResidual ==> disTable == Table(Distances, xq, pq.centroids, pq.dsub, pq.ksub, pq.M))
    }

    method QueryTables(xq: seq<real>, disTable: array<real>) returns (qip: seq<real>)
      requires Valid() && |xq| == pq.d && pq.isTrained && disTable.Length == Row(pq.M, pq.ksub)
      modifies disTable
      ensures Ready(xq, disTable[..], qip)
    {
      hide Row, Table, Patch;
      qip := [];
      if usePrecomputedTable {
        var qipTable := new real[Row(pq.M, pq.ksub)](_ => 0.0);
        ghost var was := qipTable[..];
        FillTable(Products, xq, pq.centroids, pq.dsub, pq.ksub, pq.M, qipTable, 0);
        PatchAll(was, Table(Products, xq, pq.centroids, pq.dsub, pq.ksub, pq.M));
        qip := qipTable[..];
      }
      if !usePrecomputedTable && !byResidual {
        var _ := pq.ComputeDistanceTable(xq, disTable);
      }
    }

    method ProbeList(xq: seq<real>, listNo: nat, coarse: real, qip: seq<real>, disTable: array<real>)
      returns (scores: seq<Score>)
      requires Valid() && |xq| == pq.d && listNo < nlist && pq.isTrained && disTable != precomputedTable
      requires Ready(xq, disTable[..], qip) && (usePrecomputedTable ==> byResidual && Precomputed())
      requires coarse == L2(xq, Centroid(listNo))
      modifies disTable
      ensures Ready(xq, disTable[..], qip) && scores == ListScores(xq, listNo, |invlists[listNo]|)
    {
      hide Row, Table, TableFor, L2, Precomputed;
      if |invlists[listNo]| == 0 {
        return [];
      }
      ListTable(xq, listNo, qip, disTable);
      BasicStays(xq, listNo, disTable[..]);
      TableLength(xq, listNo, disTable[..]);
      var listOffset := if usePrecomputedTable then coarse else 0.0;
      scores := ScanList(xq, listNo, listOffset, disTable[..]);
    }

    lemma BasicStays(xq: seq<real>, listNo: nat, table: seq<real>)
      requires Valid() && TableFor(xq, listNo, table)
      ensures !usePrecomputedTable && !byResidual ==>
          table == Table(Distances, xq, pq.centroids, pq.dsub, pq.ksub, pq.M)
    {
    }

    /** The entry (listNo, j) is the first with this key, list by list. */
    ghost predicate FirstWith(key: int, listNo: nat, j: nat)
      reads this
    {
      && listNo < |invlists| && j < |invlists[listNo]| && invlists[listNo][j].id == key
      && (forall l, i :: 0 <= l < listNo && 0 <= i < |invlists[l]| ==> invlists[l][i].id != key)
      && (forall i :: 0 <= i < j ==> invlists[listNo][i].id != key)
    }

    ghost predicate Known(key: int)
      reads this
    {
      exists l, j :: 0 <= l < |invlists| && 0 <= j < |invlists[l]| && invlists[l][j].id == key
    }

    /** The vector behind a key: the code the search scored, decoded the same way; throws on an unknown
        key, and from the decoder when the quantizer is not trained. */
    method Reconstruct(key: int, recons: array<real>) returns (ok: bool, ghost at: (nat, nat))
      requires Valid() && recons.Length == pq.d
      modifies recons
      ensures ok <==> Known(key) && pq.isTrained
      ensures !ok ==> recons[..] == old(recons[..])
      ensures ok ==> FirstWith(key, at.0, at.1) && recons[..] == Reconstruction(at.0, invlists[at.0][at.1].code)
    {
      hide Row, Sub, Chosen, Unpack, Value;
      at := (0, 0);
      for listNo := 0 to nlist
        invariant recons[..] == old(recons[..])
        invariant forall l, i :: 0 <= l < listNo && 0 <= i < |invlists[l]| ==> invlists[l][i].id != key
      {
        for j := 0 to |invlists[listNo]|
          invariant recons[..] == old(recons[..])
          invariant forall i :: 0 <= i < j ==> invlists[listNo][i].id != key
        {
          if invlists[listNo][j].id == key {
            ok := ReconstructAt(listNo, invlists[listNo][j].code, recons);
            return ok, (listNo, j);
          }
        }
      }
      ok := false;
    }

    method ReconstructAt(listNo: nat, code: seq<int>, recons: array<real>) returns (ok: bool)
      requires Valid() && recons.Length == pq.d && listNo < nlist && Bytes(code)
      requires |code| == pq.codeSize
      modifies recons
      ensures ok == pq.isTrained
      ensures recons[..] == if ok then Reconstruction(listNo, code) else old(recons[..])
    {
      hide Row, Sub, Chosen, Unpack, Value;
      CentroidLength(listNo);
      ok := pq.Decode(code, recons);
      if !ok { return; }
      if byResidual {
        var c := Centroid(listNo);
        ghost var p := recons[..];
        for l := 0 to recons.Length
          invariant forall u :: 0 <= u < l ==> recons[u] == c[u] + p[u]
          invariant forall u :: l <= u < recons.Length ==> recons[u] == p[u]
        {
          recons[l] := recons[l] + c[l];
        }
        assert recons[..] == Add(c, p);
      }
    }

    ghost predicate TableFor(xq: seq<real>, listNo: nat, table: seq<real>)
      reads this, pq, precomputedTable
      requires Valid()
    {
      && |table| == Row(pq.M, pq.ksub)
      && if usePrecomputedTable then
           exists pre: seq<real> :: CellPrecomputed(pre, listNo)
               && Shifted(table, pre, Table(Products, xq, pq.centroids, pq.dsub, pq.ksub, pq.M))
         else if byResidual then
           |Centroid(listNo)| == |xq| && table
               == Table(Distances, Minus(xq, Centroid(listNo)), pq.centroids, pq.dsub, pq.ksub, pq.M)
         else table == Table(Distances, xq, pq.centroids, pq.dsub, pq.ksub, pq.M)
    }

    /** Whatever the path, offset plus lookup is the squared distance to the reconstruction. */
    lemma ScoreIsDistance(xq: seq<real>, listNo: nat, code: seq<int>, table: seq<real>)
      requires Valid() && |xq| == pq.d && listNo < nlist && Bytes(code) && TableFor(xq, listNo, table)
      requires usePrecomputedTable ==> byResidual
      ensures forall m :: 0 <= m < pq.M ==> Row(m, pq.ksub) + pq.Codes(code)[m] < |table|
      ensures (if usePrecomputedTable then L2(xq, Centroid(listNo)) else 0.0) + Lookup(table, pq.Codes(code), pq.ksub, pq.M)
           == L2(xq, Reconstruction(listNo, code))
    {
      hide Table, Lookup, L2, Combined, Shifted, Chosen, Codebook;
      var codes := pq.Codes(code);
      pq.CodesFit(code);
      CentroidLength(listNo);
      LookupDefined(Distances, xq, pq.centroids, codes, pq.dsub, pq.ksub, pq.M);
      if usePrecomputedTable {
        var pre: seq<real> :| CellPrecomputed(pre, listNo)
            && Shifted(table, pre, Table(Products, xq, pq.centroids, pq.dsub, pq.ksub, pq.M));
        PrecomputedScore(xq, Centroid(listNo), pq.centroids, codes, pq.dsub, pq.ksub, pq.M, table, pre);
      } else if byResidual {
        ResidualScore(xq, Centroid(listNo), pq.centroids, codes, pq.dsub, pq.ksub, pq.M);
      } else {
        pq.TableDistance(xq, code);
      }
    }
  }

  lemma CombinedLength(pre: seq<real>, norms: seq<real>, products: seq<real>)
    requires Combined(pre, norms, products)
    ensures |pre| == |norms| == |products|
  {
  }

}
