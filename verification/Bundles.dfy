/**
 Bundle files: what export packs, what read_bundle accepts, and the label check.

 Checksums are free constructors, which is the assumption that SHA-256 is injective.
 */
module Bundles {
  import opened Tables
  import opened Collections

  /** `labels[i]` is the vector the index stores under label i; `build` tells apart two
      builds over the same vectors; an unreadable file is one read_index rejects. */
  datatype IndexFile = IndexFile(readable: bool, dim: nat, labels: seq<Vector>, build: int)

  datatype RowIdField = NoRowId | NotAnInt | IntId(id: int)

  datatype VectorField = NoVector | NotFlat | Flat(v: Vector)

  /** One line of scalar.jsonl, before any check. */
  datatype BundleRow = BundleRow(rowId: RowIdField, docId: Option<string>, vector: VectorField, payload: string)

  datatype Checksum = Sha256Index(file: IndexFile) | Sha256Rows(rows: seq<BundleRow>) | Sha256Schema(schema: string)

  datatype Manifest = Manifest(format: string, name: string, total: Option<int>, dim: Option<nat>,
                               indexChecksum: Option<Checksum>, scalarChecksum: Option<Checksum>,
                               schemaChecksum: Option<Checksum>, labelStrategy: string)

  datatype BundleFile = BundleFile(manifest: Manifest, index: IndexFile, rows: seq<BundleRow>)

  const BUNDLE_FORMAT := "hypervector.collection.bundle.v1"
  const IMPLICIT_SEQUENTIAL := "implicit_sequential"

  predicate VectorOk(f: VectorField, dim: Option<nat>) {
    match f
    case NoVector => true
    case NotFlat => false
    case Flat(v) => dim.None? || |v| == dim.value
  }

  /** What the label mapping is for: label i resolves to exactly one row, for every i below total. */
  ghost predicate LabelsResolve(rows: seq<BundleRow>, total: int) {
    && |rows| == total
    && (forall k :: 0 <= k < |rows| ==> rows[k].rowId.IntId?)
    && (forall i :: 0 <= i < total ==> exists k :: 0 <= k < |rows| && rows[k].rowId == IntId(i))
  }

  ghost predicate LabelsOk(rows: seq<BundleRow>, total: int, dim: Option<nat>, strategy: string) {
    && strategy == IMPLICIT_SEQUENTIAL
    && LabelsResolve(rows, total)
    && (forall k :: 0 <= k < |rows| ==> VectorOk(rows[k].vector, dim))
  }

  ghost function Ids(rows: seq<BundleRow>, n: nat): set<int>
    requires n <= |rows|
  {
    set k | 0 <= k < n && rows[k].rowId.IntId? :: rows[k].rowId.id
  }

  lemma {:induction false} IdsSize(rows: seq<BundleRow>, n: nat)
    requires n <= |rows|
    requires forall k :: 0 <= k < n ==> rows[k].rowId.IntId?
    ensures |Ids(rows, n)| <= n
    ensures |Ids(rows, n)| == n ==> forall a, b :: 0 <= a < b < n ==> rows[a].rowId != rows[b].rowId
  {
    if n > 0 {
      IdsSize(rows, n - 1);
      var x := rows[n - 1].rowId.id;
      assert Ids(rows, n) == Ids(rows, n - 1) + {x};
      if |Ids(rows, n)| == n {
        assert x !in Ids(rows, n - 1);
      }
    }
  }

  /** Resolvable labels leave no room for a repeated row id or one out of range. */
  lemma ResolvingIdsAreDistinct(rows: seq<BundleRow>, total: int)
    requires LabelsResolve(rows, total)
    ensures forall a, b :: 0 <= a < b < |rows| ==> rows[a].rowId != rows[b].rowId
    ensures forall k :: 0 <= k < |rows| ==> 0 <= rows[k].rowId.id < total
  {
    var n := |rows|;
    IdsSize(rows, n);
    assert Upto(n) <= Ids(rows, n) by {
      forall i | i in Upto(n) ensures i in Ids(rows, n) {
        var k :| 0 <= k < |rows| && rows[k].rowId == IntId(i);
        assert rows[k].rowId.id == i;
      }
    }
    Smaller(Upto(n), Ids(rows, n));
    forall k | 0 <= k < n ensures 0 <= rows[k].rowId.id < total {
      assert rows[k].rowId.id in Ids(rows, n);
    }
  }

  lemma FullCoverResolves(rows: seq<BundleRow>, total: int)
    requires |rows| == total
    requires forall k :: 0 <= k < |rows| ==> rows[k].rowId.IntId?
    requires Ids(rows, |rows|) == Upto(total)
    ensures LabelsResolve(rows, total)
  {
    forall i | 0 <= i < total ensures exists k :: 0 <= k < |rows| && rows[k].rowId == IntId(i) {
      assert i in Upto(total);
      assert i in Ids(rows, |rows|);
    }
  }

  lemma RepeatedIdCannotResolve(rows: seq<BundleRow>, total: int, i: nat)
    requires i < |rows| && forall k :: 0 <= k <= i ==> rows[k].rowId.IntId?
    requires rows[i].rowId.id in Ids(rows, i)
    ensures !LabelsResolve(rows, total)
  {
    var k :| 0 <= k < i && rows[k].rowId.IntId? && rows[k].rowId.id == rows[i].rowId.id;
    if LabelsResolve(rows, total) {
      ResolvingIdsAreDistinct(rows, total);
    }
  }

  lemma ResolvingCoversRange(rows: seq<BundleRow>, total: int)
    requires LabelsResolve(rows, total)
    ensures Ids(rows, |rows|) == Upto(total)
  {
    ResolvingIdsAreDistinct(rows, total);
    forall i | i in Upto(total) ensures i in Ids(rows, |rows|) {
      var k :| 0 <= k < |rows| && rows[k].rowId == IntId(i);
      assert rows[k].rowId.id == i;
    }
  }

  /** The growing `seen` set decides exactly whether every label resolves. */
  method ValidateIndexLabelMapping(rows: seq<BundleRow>, total: int, dim: Option<nat>, strategy: string)
    returns (ok: bool)
    ensures ok <==> LabelsOk(rows, total, dim, strategy)
  {
    if strategy != IMPLICIT_SEQUENTIAL { return false; }
    if |rows| != total { return false; }
    var seen: set<int> := {};
    for i := 0 to |rows|
      invariant forall k :: 0 <= k < i ==> rows[k].rowId.IntId? && VectorOk(rows[k].vector, dim)
      invariant seen == Ids(rows, i)
    {
      var row := rows[i];
      if !row.rowId.IntId? { return false; }
      if row.rowId.id in seen {
        RepeatedIdCannotResolve(rows, total, i);
        return false;
      }
      seen := seen + {row.rowId.id};
      assert seen == Ids(rows, i + 1);
      if !VectorOk(row.vector, dim) { return false; }
    }
    ok := seen == Upto(total);
    if ok {
      FullCoverResolves(rows, total);
    } else if LabelsResolve(rows, total) {
      ResolvingCoversRange(rows, total);
    }
  }

  ghost predicate Readable(b: BundleFile) {
    && b.manifest.format == BUNDLE_FORMAT
    && b.manifest.schemaChecksum.Some?
    && b.manifest.indexChecksum == Some(Sha256Index(b.index))
    && b.manifest.scalarChecksum == Some(Sha256Rows(b.rows))
    && b.manifest.total.Some?
    && LabelsOk(b.rows, b.manifest.total.value, b.manifest.dim, b.manifest.labelStrategy)
  }

  /** read_bundle: true when the bundle is returned, false when it raises. */
  method ReadBundle(b: BundleFile) returns (ok: bool)
    ensures ok <==> Readable(b)
  {
    if b.manifest.format != BUNDLE_FORMAT { return false; }
    if b.manifest.indexChecksum.None? || b.manifest.scalarChecksum.None? || b.manifest.schemaChecksum.None? {
      return false;
    }
    if b.manifest.indexChecksum.value != Sha256Index(b.index) { return false; }
    if b.manifest.scalarChecksum.value != Sha256Rows(b.rows) { return false; }
    if b.manifest.total.None? { return false; }
    ok := ValidateIndexLabelMapping(b.rows, b.manifest.total.value, b.manifest.dim, b.manifest.labelStrategy);
  }

  // -------------------------------------------------------------------------
  // Rows in and out of a bundle
  // -------------------------------------------------------------------------

  predicate Loadable(b: BundleRow) {
    b.rowId.IntId? && b.docId.Some? && b.vector.Flat?
  }

  function ToRow(b: BundleRow): Row
    requires Loadable(b)
  {
    Row(b.rowId.id, b.docId.value, b.vector.v, b.payload)
  }

  function FromRow(r: Row): BundleRow {
    BundleRow(IntId(r.rowId), Some(r.docId), Flat(r.vector), r.payload)
  }

  function ToRows(rows: seq<BundleRow>): seq<Row>
    requires forall k :: 0 <= k < |rows| ==> Loadable(rows[k])
  {
    seq(|rows|, k requires 0 <= k < |rows| => ToRow(rows[k]))
  }

  function FromRows(rows: seq<Row>): seq<BundleRow> {
    seq(|rows|, k requires 0 <= k < |rows| => FromRow(rows[k]))
  }

  /** import_rows_to_staging on an empty staging table: None when a row cannot be encoded or repeats a key. */
  function Load(rows: seq<BundleRow>): Option<Table> {
    if forall k :: 0 <= k < |rows| ==> Loadable(rows[k]) then InsertAll([], ToRows(rows)) else None
  }

  lemma LoadInvertsExport(t: Table)
    requires Labelled(t) && DistinctDocs(t)
    ensures Load(FromRows(t)) == Some(t)
  {
    assert ToRows(FromRows(t)) == t;
    ReloadIsIdentity(t);
  }

  /** Whatever order a bundle lists its rows in, loading it puts label i at position i. */
  lemma LoadedRowsAreLabelled(rows: seq<BundleRow>, total: int)
    requires LabelsResolve(rows, total) && Load(rows).Some?
    ensures var t := Load(rows).value;
            Labelled(t) && DistinctDocs(t) && |t| == |rows| && multiset(t) == multiset(ToRows(rows))
  {
    ResolvingIdsAreDistinct(rows, total);
    var rs := ToRows(rows);
    InsertAllSound([], rs);
    var t := Load(rows).value;
    forall i | 0 <= i < |t| ensures 0 <= t[i].rowId < |t| {
      assert t[i] in multiset(t);
      assert t[i] in rs;
    }
    AscendingInRangeIsLabelled(t);
  }
}
