/**
 One collection of the server: its durable state, spread over an index directory, two SQLite
 tables and collections.json, and the sequence of durable writes each operation performs.

 A process that stops leaves the state after some prefix of an operation's writes. A restart runs
 recovery, which may itself be cut short any number of times.
 */
module Collection {
  import opened Tables
  import opened Bundles

  datatype DataState = Ready | Purged | Importing | Invalid

  datatype ImportTxn = ImportTxn(newDataVersion: int, prevState: DataState, total: int, dim: Option<nat>)

  datatype Meta = Meta(
    name: string,
    schema: string,
    version: int,
    dim: Option<nat>,
    total: int,
    indexChecksum: Option<Checksum>,
    dataState: DataState,
    lastKnownTotal: Option<int>,
    dataVersion: int,
    indexVersion: int,
    exportedDataVersion: Option<int>,
    exportedIndexVersion: Option<int>,
    exportedIndexChecksum: Option<Checksum>,
    importTxn: Option<ImportTxn>)

  datatype Disk = Disk(
    index: Option<IndexFile>,
    stagingIndex: Option<IndexFile>,
    preImport: Option<IndexFile>,
    live: Option<Table>,
    staging: Option<Table>,
    meta: Option<Meta>)

  const EmptyDisk := Disk(None, None, None, None, None, None)

  /** A side file whose write was cut short. */
  const TornFile := IndexFile(false, 0, [], 0)

  /** What one call does: its durable writes in order, the in-memory index afterwards, and the
      bundle it hands out (export only). `ok` is false when the call raises. */
  datatype Effect = Effect(ok: bool, writes: seq<Disk>, cache: Option<IndexFile>, bundle: Option<BundleFile>)

  function Rows(d: Disk): Table {
    d.live.GetOr([])
  }

  function Count(d: Disk): nat {
    |Rows(d)|
  }

  /** Durable state when the process stops after `stop` of the writes. */
  function After(d: Disk, writes: seq<Disk>, stop: nat): Disk {
    if stop == 0 || writes == [] then d
    else if stop < |writes| then writes[stop - 1]
    else writes[|writes| - 1]
  }

  function Done(d: Disk, writes: seq<Disk>): Disk {
    After(d, writes, |writes|)
  }

  /** Python's `a or b` on an optional dimension: 0 counts as absent. */
  function OrDim(a: Option<nat>, b: Option<nat>): Option<nat> {
    if a.Some? && a.value != 0 then a else b
  }

  // -------------------------------------------------------------------------
  // create, drop
  // -------------------------------------------------------------------------

  function NewMeta(name: string, schema: string): Meta {
    Meta(name, schema, 1, None, 0, None, Ready, None, 1, 0, None, None, None, None)
  }

  function CreateEffect(d: Disk, cache: Option<IndexFile>, name: string, schema: string): Effect {
    if d.meta.Some? then Effect(false, [], cache, None)
    else
      var d1 := d.(meta := Some(NewMeta(name, schema)));
      var d2 := EnsureTable(d1);
      Effect(true, [d1, d2], cache, None)
  }

  function EnsureTable(d: Disk): Disk {
    d.(live := Some(Rows(d)))
  }

  function DropEffect(d: Disk): Effect {
    var d1 := d.(meta := None);
    var d2 := d1.(live := None);
    var d3 := d2.(index := None);
    var d4 := d3.(stagingIndex := None);
    var d5 := d4.(preImport := None);
    Effect(true, [d1, d2, d3, d4, d5], None, None)
  }

  // -------------------------------------------------------------------------
  // insert
  // -------------------------------------------------------------------------

  datatype NewRow = NewRow(docId: Option<string>, vector: VectorField, payload: string)

  /** Checks every vector against the collection dimension, which the first row may fix. */
  function CheckVectors(data: seq<NewRow>, dim: Option<nat>): Option<Option<nat>>
    decreases |data|
  {
    if data == [] then Some(dim)
    else if !data[0].vector.Flat? then None
    else if dim.Some? && dim.value != |data[0].vector.v| then None
    else CheckVectors(data[1..], Some(|data[0].vector.v|))
  }

  function Number(data: seq<NewRow>, next: int): seq<Row>
    requires forall i :: 0 <= i < |data| ==> data[i].vector.Flat?
  {
    seq(|data|, i requires 0 <= i < |data| =>
      Row(next + i, data[i].docId.GetOr(Str(next + i)), data[i].vector.v, data[i].payload))
  }

  lemma {:induction false} CheckedVectors(data: seq<NewRow>, dim: Option<nat>)
    requires CheckVectors(data, dim).Some?
    ensures var dim' := CheckVectors(data, dim).value;
            && (dim.Some? ==> dim' == dim)
            && (data == [] ==> dim' == dim)
            && (data != [] ==> dim'.Some?)
            && forall i :: 0 <= i < |data| ==> data[i].vector.Flat? && |data[i].vector.v| == dim'.value
    decreases |data|
  {
    if data != [] {
      CheckedVectors(data[1..], Some(|data[0].vector.v|));
      forall i | 0 <= i < |data|
        ensures data[i].vector.Flat? && Some(|data[i].vector.v|) == CheckVectors(data, dim).value
      {
        if i > 0 { assert data[i] == data[1..][i - 1]; }
        else if |data| == 1 { assert data[1..] == []; }
      }
    }
  }

  function InsertEffect(d: Disk, cache: Option<IndexFile>, data: seq<NewRow>): Effect {
    if d.meta.None? then Effect(false, [], cache, None)
    else
      var m := d.meta.value;
      var d0 := EnsureTable(d);
      var dim := CheckVectors(data, m.dim);
      if dim.None? then Effect(false, [d0], cache, None)
      else
        CheckedVectors(data, m.dim);
        var m1 := m.(dim := dim.value, dataVersion := m.dataVersion + 1);
        var d1 := d0.(meta := Some(m1));
        var t := InsertAll(Rows(d), Number(data, NextRowId(Rows(d))));
        if t.None? then Effect(false, [d0, d1], cache, None)
        else
          var d2 := d1.(live := t);
          var d3 := d2.(meta := Some(m1.(total := |t.value|)));
          Effect(true, [d0, d1, d2, d3], None, None)
  }

  /** The table a batch leads to, if its vectors and keys are in order. */
  function InsertedTable(m: Meta, t: Table, data: seq<NewRow>): Option<Table> {
    if CheckVectors(data, m.dim).None? then None
    else
      CheckedVectors(data, m.dim);
      InsertAll(t, Number(data, NextRowId(t)))
  }

  /** Every state an insert passes through: rows change only under the next data version. */
  ghost predicate MidInsert(d: Disk, data: seq<NewRow>, c: Disk) {
    && c.(live := d.live, meta := d.meta) == d
    && (|| (c.meta == d.meta && Rows(c) == Rows(d))
        || (&& d.meta.Some? && CheckVectors(data, d.meta.value.dim).Some?
            && c.meta.Some?
            && c.meta.value == d.meta.value.(dim := CheckVectors(data, d.meta.value.dim).value,
                                             total := c.meta.value.total, dataVersion := d.meta.value.dataVersion + 1)
            && (Rows(c) == Rows(d) || InsertedTable(d.meta.value, Rows(d), data) == Some(Rows(c)))))
  }

  lemma InsertStates(d: Disk, cache: Option<IndexFile>, data: seq<NewRow>, stop: nat)
    ensures MidInsert(d, data, After(d, InsertEffect(d, cache, data).writes, stop))
    ensures InsertEffect(d, cache, data).bundle.None?
  {
    hide InsertAll, CheckVectors, Number;
  }

  // -------------------------------------------------------------------------
  // flush, upload
  // -------------------------------------------------------------------------

  function Vectors(t: Table): seq<Vector> {
    seq(|t|, i requires 0 <= i < |t| => t[i].vector)
  }

  function FlushEffect(d: Disk, cache: Option<IndexFile>, build: int): Effect {
    if d.meta.None? || d.meta.value.dim.None? || d.live.None? then Effect(false, [], cache, None)
    else
      var m := d.meta.value;
      var t := d.live.value;
      var dim := m.dim.value;
      if exists i :: 0 <= i < |t| && |t[i].vector| != dim then Effect(false, [], cache, None)
      else if t == [] || dim == 0 then Effect(false, [], cache, None)
      else
        var file := IndexFile(true, dim, Vectors(t), build);
        var d1 := d.(index := Some(file));
        var d2 := d1.(meta := Some(m.(version := m.version + 1, total := |t|, indexVersion := m.dataVersion,
                                      indexChecksum := Some(Sha256Index(file)))));
        Effect(true, [d1, d2], Some(file), None)
  }

  function UploadEffect(d: Disk, cache: Option<IndexFile>, source: Option<IndexFile>, version: Option<int>,
      checksum: Option<Checksum>): Effect {
    if d.meta.None? then Effect(false, [], cache, None)
    else
      var m := d.meta.value;
      if version.Some? && version.value < m.version then Effect(false, [], cache, None)
      else if source.None? then Effect(false, [], cache, None)
      else
        var file := source.value;
        if checksum.Some? && checksum.value != Sha256Index(file) then Effect(false, [], cache, None)
        else if !file.readable then Effect(false, [], cache, None)
        else
          var wanted := version.GetOr(m.version + 1);
          var d1 := d.(index := Some(file));
          var d2 := d1.(meta := Some(m.(version := if wanted < m.version then m.version else wanted,
                                        indexVersion := m.dataVersion, indexChecksum := Some(Sha256Index(file)))));
          Effect(true, [d1, d2], Some(file), None)
  }

  /** load_collection, and the load a search does on first use. */
  function LoadEffect(d: Disk, cache: Option<IndexFile>): Effect {
    if d.meta.None? || d.index.None? || !d.index.value.readable then Effect(false, [], cache, None)
    else Effect(true, [], d.index, None)
  }

  function CloseEffect(): Effect {
    Effect(true, [], None, None)
  }

  // -------------------------------------------------------------------------
  // export
  // -------------------------------------------------------------------------

  function MakeBundle(m: Meta, file: IndexFile, t: Table): BundleFile {
    var rows := FromRows(t);
    BundleFile(
      Manifest(BUNDLE_FORMAT, m.name, Some(|rows|), m.dim, Some(Sha256Index(file)), Some(Sha256Rows(rows)),
               Some(Sha256Schema(m.schema)), IMPLICIT_SEQUENTIAL),
      file, rows)
  }

  function ExportEffect(d: Disk, cache: Option<IndexFile>): Effect {
    if d.meta.None? then Effect(false, [], cache, None)
    else
      var m := d.meta.value;
      if m.dataState != Ready || d.index.None? || m.indexVersion != m.dataVersion then Effect(false, [], cache, None)
      else if cache.None? && !d.index.value.readable then Effect(false, [], cache, None)
      else
        var loaded := cache.GetOr(d.index.value);
        if !(|loaded.labels| == Count(d) == m.total) then Effect(false, [], Some(loaded), None)
        else if m.dim.Some? && loaded.dim != m.dim.value then Effect(false, [], Some(loaded), None)
        else
          var d1 := d.(meta := Some(m.(lastKnownTotal := Some(Count(d)), exportedDataVersion := Some(m.dataVersion),
                                       exportedIndexVersion := Some(m.indexVersion),
                                       exportedIndexChecksum := m.indexChecksum)));
          Effect(true, [d1], Some(loaded), Some(MakeBundle(m, d.index.value, Rows(d))))
  }

  // -------------------------------------------------------------------------
  // import
  // -------------------------------------------------------------------------

  /** Every check made before anything is written. */
  ghost predicate Compatible(m: Meta, b: BundleFile) {
    && Readable(b)
    && b.manifest.name == m.name
    && (m.dim.Some? && b.manifest.dim.Some? ==> m.dim == b.manifest.dim)
    && b.manifest.schemaChecksum == Some(Sha256Schema(m.schema))
  }

  predicate IndexMatches(b: BundleFile) {
    && b.index.readable
    && (b.manifest.dim.Some? ==> b.index.dim == b.manifest.dim.value)
    && b.manifest.total == Some(|b.index.labels|)
    && |b.index.labels| == |b.rows|
  }

  /** The bundles an import carries to the end. */
  ghost predicate Accepts(d: Disk, b: BundleFile) {
    d.meta.Some? && Compatible(d.meta.value, b) && IndexMatches(b) && Load(b.rows).Some?
  }

  function MarkedMeta(m: Meta, b: BundleFile): Meta {
    m.(dataState := Importing,
       importTxn := Some(ImportTxn(m.dataVersion + 1, m.dataState, |b.rows|, OrDim(b.manifest.dim, m.dim))))
  }

  function ImportedMeta(m: Meta, b: BundleFile): Meta {
    m.(version := m.version + 1, dim := OrDim(b.manifest.dim, m.dim), total := |b.rows|, dataState := Ready,
       lastKnownTotal := Some(|b.rows|), dataVersion := m.dataVersion + 1, indexVersion := m.dataVersion + 1,
       importTxn := None, indexChecksum := Some(Sha256Index(b.index)))
  }

  /** Prepare phase: side file and staging table only. */
  function PrepareWrites(d: Disk, b: BundleFile, t: Table): seq<Disk> {
    var d1 := d.(stagingIndex := Some(TornFile));
    var d2 := d1.(stagingIndex := Some(b.index));
    var d3 := d2.(staging := None);
    var d4 := d3.(staging := Some([]));
    var d5 := d4.(staging := Some(t));
    [d1, d2, d3, d4, d5]
  }

  /** The commit-intent marker, then the switch: index, tables, metadata, clean-up. */
  function CommitWrites(d: Disk, m: Meta, b: BundleFile, t: Table): seq<Disk> {
    var d6 := d.(stagingIndex := Some(b.index), staging := Some(t), meta := Some(MarkedMeta(m, b)));
    var aside := if d6.index.Some? then [d6.(preImport := d6.index, index := None)] else [];
    var d7 := if d6.index.Some? then aside[0] else d6;
    var d8 := d7.(index := d7.stagingIndex, stagingIndex := None);
    var d9 := d8.(live := d8.staging, staging := None);
    var d10 := d9.(meta := Some(ImportedMeta(m, b)));
    var d11 := d10.(preImport := None);
    [d6] + aside + [d8, d9, d10, d11]
  }

  /** What a rejected bundle leaves behind once its staging artefacts are swept. */
  function AbortWrites(d: Disk): seq<Disk> {
    var d1 := d.(stagingIndex := None);
    var d2 := d1.(staging := None);
    if d.meta.Some? && (d.meta.value.dataState == Importing || d.meta.value.importTxn.Some?) then
      [d1, d2, d2.(meta := Some(d.meta.value.(importTxn := None)))]
    else [d1, d2]
  }

  /** All durable writes of an import whose prepare phase fails, at the index check or at the rows. */
  function RejectedWrites(d: Disk, b: BundleFile): seq<Disk> {
    var prepared := PrepareWrites(d, b, []);
    if !IndexMatches(b) then [prepared[0], prepared[1]] + AbortWrites(prepared[1])
    else [prepared[0], prepared[1], prepared[2], prepared[3]] + AbortWrites(prepared[3])
  }

  ghost function ImportEffect(d: Disk, cache: Option<IndexFile>, b: BundleFile): Effect {
    if d.meta.None? || !Compatible(d.meta.value, b) then Effect(false, [], cache, None)
    else
      var m := d.meta.value;
      if !IndexMatches(b) || Load(b.rows).None? then Effect(false, RejectedWrites(d, b), cache, None)
      else
        var t := Load(b.rows).value;
        Effect(true, PrepareWrites(d, b, t) + CommitWrites(d, m, b, t), Some(b.index), None)
  }

  // -------------------------------------------------------------------------
  // purge
  // -------------------------------------------------------------------------

  /** The gate of require_exported=True. */
  predicate Covered(m: Meta) {
    && m.exportedDataVersion == Some(m.dataVersion)
    && m.exportedIndexVersion == Some(m.indexVersion)
    && m.exportedIndexChecksum == m.indexChecksum
  }

  function PurgedMeta(m: Meta, count: nat): Meta {
    m.(dataState := Purged, lastKnownTotal := Some(count), dataVersion := m.dataVersion + 1, indexVersion := 0,
       indexChecksum := None, total := 0, exportedDataVersion := None, exportedIndexVersion := None,
       exportedIndexChecksum := None)
  }

  function PurgeEffect(d: Disk, cache: Option<IndexFile>, requireExported: bool): Effect {
    if d.meta.None? || (requireExported && !Covered(d.meta.value)) then Effect(false, [], cache, None)
    else
      var d1 := d.(index := None);
      var d2 := d1.(stagingIndex := None);
      var d3 := d2.(preImport := None);
      var d4 := d3.(staging := None);
      var d5 := d4.(live := None);
      var d6 := d5.(meta := Some(PurgedMeta(d.meta.value, Count(d))));
      Effect(true, [d1, d2, d3, d4, d5, d6], None, None)
  }

  // -------------------------------------------------------------------------
  // recovery
  // -------------------------------------------------------------------------

  predicate NeedsRecovery(d: Disk) {
    d.meta.Some? && (d.meta.value.dataState == Importing || d.meta.value.importTxn.Some?)
  }

  predicate SwitchDone(d: Disk)
    requires d.meta.Some?
  {
    var txn := d.meta.value.importTxn;
    d.staging.None? && d.index.Some? && (txn.None? || Count(d) == txn.value.total)
  }

  function RolledForward(d: Disk): Meta
    requires d.meta.Some? && d.index.Some?
  {
    var m := d.meta.value;
    var txn := m.importTxn;
    var v := if txn.Some? then txn.value.newDataVersion else m.dataVersion + 1;
    m.(version := m.version + 1,
       dim := if txn.Some? then OrDim(txn.value.dim, m.dim) else m.dim,
       total := if txn.Some? then txn.value.total else m.total,
       dataState := Ready,
       lastKnownTotal := if txn.Some? then Some(txn.value.total) else m.lastKnownTotal,
       dataVersion := v, indexVersion := v, importTxn := None,
       indexChecksum := Some(Sha256Index(d.index.value)))
  }

  function RolledBack(m: Meta): Meta {
    m.(dataState := if m.importTxn.Some? then m.importTxn.value.prevState else Ready, importTxn := None)
  }

  function RecoverWrites(d: Disk): seq<Disk> {
    if !NeedsRecovery(d) then []
    else if SwitchDone(d) then
      var d1 := d.(meta := Some(RolledForward(d)));
      var d2 := d1.(stagingIndex := None);
      [d1, d2, d2.(preImport := None)]
    else
      var m := d.meta.value;
      var d1 := d.(staging := None);
      var d2 := d1.(stagingIndex := None);
      if d2.preImport.Some? then
        var d3 := d2.(index := d2.preImport, preImport := None);
        [d1, d2, d3, d3.(meta := Some(RolledBack(m)))]
      else if d2.index.Some? then
        [d1, d2, d2.(meta := Some(RolledBack(m)))]
      else
        [d1, d2, d2.(meta := Some(m.(dataState := Invalid, importTxn := None)))]
  }

  function Recover(d: Disk): Disk {
    Done(d, RecoverWrites(d))
  }

  /** Restarts cut short after the given numbers of writes, then one that finishes. */
  function RecoverWithCrashes(d: Disk, stops: seq<nat>): Disk
    decreases |stops|
  {
    if stops == [] then Recover(d)
    else RecoverWithCrashes(After(d, RecoverWrites(d), stops[0]), stops[1..])
  }
}
