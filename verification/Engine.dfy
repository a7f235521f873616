/**
 The server engine in its own imperative form, for one collection: stores whose methods each make
 one durable write, and engine methods that call them in the order the server does. The ghost log
 records every durable state, and each engine method is proved to extend it by exactly the write
 sequence of module Collection, so a crash at any point leaves a state those lemmas speak about.
 */
module Engine {
  import opened Tables
  import opened Bundles
  import opened Collection

  /** The index directory, the SQLite tables and the collections.json entry of the collection. */
  class DataRoot {
    var index: Option<IndexFile>
    var stagingIndex: Option<IndexFile>
    var preImport: Option<IndexFile>
    var live: Option<Table>
    var staging: Option<Table>
    var meta: Option<Meta>
    ghost var log: seq<Disk>

    constructor ()
      ensures Now() == EmptyDisk && log == []
    {
      index, stagingIndex, preImport := None, None, None;
      live, staging, meta := None, None, None;
      log := [];
    }

    function Now(): Disk
      reads this
    {
      Disk(index, stagingIndex, preImport, live, staging, meta)
    }

    // ---- files: unlink, rename and write are durable one by one ----

    method ReplaceIndex(file: IndexFile)
      modifies this
      ensures Now() == old(Now()).(index := Some(file)) && log == old(log) + [Now()]
    {
      index := Some(file);
      log := log + [Now()];
    }

    method WriteStagingIndex(file: IndexFile)
      modifies this
      ensures Now() == old(Now()).(stagingIndex := Some(file))
      ensures log == old(log) + [old(Now()).(stagingIndex := Some(TornFile)), Now()]
    {
      stagingIndex := Some(TornFile);
      log := log + [Now()];
      stagingIndex := Some(file);
      log := log + [Now()];
    }

    method UnlinkIndex()
      modifies this
      ensures Now() == old(Now()).(index := None) && log == old(log) + [Now()]
    {
      index := None;
      log := log + [Now()];
    }

    method UnlinkStagingIndex()
      modifies this
      ensures Now() == old(Now()).(stagingIndex := None) && log == old(log) + [Now()]
    {
      stagingIndex := None;
      log := log + [Now()];
    }

    method UnlinkPreImport()
      modifies this
      ensures Now() == old(Now()).(preImport := None) && log == old(log) + [Now()]
    {
      preImport := None;
      log := log + [Now()];
    }

    method IndexToPreImport()
      requires index.Some?
      modifies this
      ensures Now() == old(Now()).(preImport := old(index), index := None) && log == old(log) + [Now()]
    {
      preImport, index := index, None;
      log := log + [Now()];
    }

    method PreImportToIndex()
      requires preImport.Some?
      modifies this
      ensures Now() == old(Now()).(index := old(preImport), preImport := None) && log == old(log) + [Now()]
    {
      index, preImport := preImport, None;
      log := log + [Now()];
    }

    method StagingToIndex()
      requires stagingIndex.Some?
      modifies this
      ensures Now() == old(Now()).(index := old(stagingIndex), stagingIndex := None) && log == old(log) + [Now()]
    {
      index, stagingIndex := stagingIndex, None;
      log := log + [Now()];
    }

    // ---- scalar store ----

    method EnsureLiveTable()
      modifies this
      ensures Now() == EnsureTable(old(Now())) && log == old(log) + [Now()]
    {
      if live.None? { live := Some([]); }
      log := log + [Now()];
    }

    method DropTable()
      modifies this
      ensures Now() == old(Now()).(live := None) && log == old(log) + [Now()]
    {
      live := None;
      log := log + [Now()];
    }

    /** One transaction: the batch is visible as a whole, or the table is rolled back. */
    method InsertBatch(rows: seq<Row>) returns (ok: bool)
      requires live.Some?
      modifies this
      ensures ok <==> InsertAll(old(live).value, rows).Some?
      ensures ok ==> Now() == old(Now()).(live := InsertAll(old(live).value, rows)) && log == old(log) + [Now()]
      ensures !ok ==> Now() == old(Now()) && log == old(log)
    {
      var t := live.value;
      for i := 0 to |rows|
        invariant InsertAll(live.value, rows) == InsertAll(t, rows[i..])
        invariant Now() == old(Now()) && log == old(log)
      {
        var one := InsertOne(t, rows[i]);
        assert rows[i..][1..] == rows[i + 1..];
        if one.None? { return false; }
        t := one.value;
      }
      live := Some(t);
      log := log + [Now()];
      ok := true;
    }

    method RollbackStaging()
      modifies this
      ensures Now() == old(Now()).(staging := None) && log == old(log) + [Now()]
    {
      staging := None;
      log := log + [Now()];
    }

    /** DROP and CREATE commit on their own; the rows commit together, or not at all. */
    method ImportRowsToStaging(rows: seq<BundleRow>) returns (ok: bool)
      modifies this
      ensures ok <==> Load(rows).Some?
      ensures Now() == old(Now()).(staging := if ok then Load(rows) else Some([]))
      ensures log == old(log) + [old(Now()).(staging := None), old(Now()).(staging := Some([]))] + (if ok then [Now()] else [])
    {
      staging := None;
      log := log + [Now()];
      staging := Some([]);
      log := log + [Now()];
      var batch: seq<Row> := [];
      for i := 0 to |rows|
        invariant forall k :: 0 <= k < i ==> Loadable(rows[k])
        invariant batch == ToRows(rows[..i])
      {
        if !Loadable(rows[i]) { return false; }
        batch := batch + [ToRow(rows[i])];
        assert rows[..i + 1] == rows[..i] + [rows[i]];
      }
      assert rows[..|rows|] == rows;
      var t := InsertAll([], batch);
      if t.None? { return false; }
      staging := t;
      log := log + [Now()];
      ok := true;
    }

    /** DROP live and RENAME staging in one transaction. */
    method CommitStaging()
      requires staging.Some?
      modifies this
      ensures Now() == old(Now()).(live := old(staging), staging := None) && log == old(log) + [Now()]
    {
      live, staging := staging, None;
      log := log + [Now()];
    }

    function RowCount(): nat
      reads this
    {
      Count(Now())
    }

    // ---- metadata: written to a temporary file and renamed ----

    method PutMeta(m: Meta)
      modifies this
      ensures Now() == old(Now()).(meta := Some(m)) && log == old(log) + [Now()]
    {
      meta := Some(m);
      log := log + [Now()];
    }

    method DeleteMeta()
      modifies this
      ensures Now() == old(Now()).(meta := None) && log == old(log) + [Now()]
    {
      meta := None;
      log := log + [Now()];
    }
  }

  class HypervecServerEngine {
    const data: DataRoot
    var cached: Option<IndexFile>

    /** Starting the server runs recovery over whatever the disk holds. */
    constructor (root: DataRoot)
      modifies root
      ensures data == root && cached == None
      ensures root.Now() == Recover(old(root.Now())) && root.log == old(root.log) + RecoverWrites(old(root.Now()))
    {
      data := root;
      cached := None;
      new;
      RecoverInterruptedImports();
    }

    /** The call did exactly what `f` says. */
    twostate predicate Did(f: Effect, ok: bool)
      reads this, data
    {
      && ok == f.ok
      && data.log == old(data.log) + f.writes
      && data.Now() == Done(old(data.Now()), f.writes)
      && cached == f.cache
    }

    method RecoverInterruptedImports()
      modifies data
      ensures data.Now() == Recover(old(data.Now()))
      ensures data.log == old(data.log) + RecoverWrites(old(data.Now()))
    {
      if data.meta.None? { return; }
      var m := data.meta.value;
      if m.dataState != Importing && m.importTxn.None? { return; }
      var expected := if m.importTxn.Some? then Some(m.importTxn.value.total) else None;
      var switchDone := data.staging.None? && data.index.Some? && (expected.None? || data.RowCount() == expected.value);
      if switchDone {
        var v := if m.importTxn.Some? then m.importTxn.value.newDataVersion else m.dataVersion + 1;
        data.PutMeta(m.(version := m.version + 1,
                        dim := if m.importTxn.Some? then OrDim(m.importTxn.value.dim, m.dim) else m.dim,
                        total := expected.GetOr(m.total), dataState := Ready,
                        lastKnownTotal := if expected.Some? then expected else m.lastKnownTotal,
                        dataVersion := v, indexVersion := v, importTxn := None,
                        indexChecksum := Some(Sha256Index(data.index.value))));
        data.UnlinkStagingIndex();
        data.UnlinkPreImport();
        return;
      }
      data.RollbackStaging();
      data.UnlinkStagingIndex();
      var restored := if m.importTxn.Some? then m.importTxn.value.prevState else Ready;
      if data.preImport.Some? {
        data.PreImportToIndex();
        data.PutMeta(m.(dataState := restored, importTxn := None));
      } else if data.index.Some? {
        data.PutMeta(m.(dataState := restored, importTxn := None));
      } else {
        data.PutMeta(m.(dataState := Invalid, importTxn := None));
      }
    }

    method CreateCollection(name: string, schema: string) returns (ok: bool)
      modifies this, data
      ensures Did(CreateEffect(old(data.Now()), old(cached), name, schema), ok)
    {
      if data.meta.Some? { return false; }
      data.PutMeta(Meta(name, schema, 1, None, 0, None, Ready, None, 1, 0, None, None, None, None));
      data.EnsureLiveTable();
      ok := true;
    }

    method DropCollection() returns (ok: bool)
      modifies this, data
      ensures Did(DropEffect(old(data.Now())), ok)
    {
      data.DeleteMeta();
      cached := None;
      data.DropTable();
      data.UnlinkIndex();
      data.UnlinkStagingIndex();
      data.UnlinkPreImport();
      ok := true;
    }

    /** The loop over the request: false when a row has no flat vector of the collection's dimension. */
    static method BuildRows(rows: seq<NewRow>, dim0: Option<nat>, next: int)
      returns (ok: bool, dim: Option<nat>, batch: seq<Row>)
      ensures ok <==> CheckVectors(rows, dim0).Some?
      ensures ok ==> CheckVectors(rows, dim0).value == dim
      ensures ok ==> (forall k :: 0 <= k < |rows| ==> rows[k].vector.Flat?) && batch == Number(rows, next)
    {
      dim, batch := dim0, [];
      for i := 0 to |rows|
        invariant CheckVectors(rows, dim0) == CheckVectors(rows[i..], dim)
        invariant forall k :: 0 <= k < i ==> rows[k].vector.Flat?
        invariant batch == Number(rows[..i], next)
      {
        assert rows[i..][0] == rows[i] && rows[i..][1..] == rows[i + 1..];
        if !rows[i].vector.Flat? { return false, dim, batch; }
        var v := rows[i].vector.v;
        if dim.None? {
          dim := Some(|v|);
        } else if dim.value != |v| {
          return false, dim, batch;
        }
        batch := batch + [Row(next + i, rows[i].docId.GetOr(Str(next + i)), v, rows[i].payload)];
        assert rows[..i + 1] == rows[..i] + [rows[i]];
      }
      assert rows[..|rows|] == rows && rows[|rows|..] == [];
      ok := true;
    }

    method Insert(rows: seq<NewRow>) returns (ok: bool)
      modifies this, data
      ensures Did(InsertEffect(old(data.Now()), old(cached), rows), ok)
    {
      if data.meta.None? { return false; }
      var m := data.meta.value;
      data.EnsureLiveTable();
      var checked, dim, batch := BuildRows(rows, m.dim, NextRowId(data.live.value));
      if !checked { return false; }
      data.PutMeta(m.(dim := dim, dataVersion := m.dataVersion + 1));
      var inserted := data.InsertBatch(batch);
      if !inserted { return false; }
      data.PutMeta(data.meta.value.(total := data.RowCount()));
      cached := None;
      ok := true;
    }

    method Flush(build: int) returns (ok: bool)
      modifies this, data
      ensures Did(FlushEffect(old(data.Now()), old(cached), build), ok)
    {
      if data.meta.None? { return false; }
      var m := data.meta.value;
      if m.dim.None? { return false; }
      if data.live.None? { return false; }
      var t := data.live.value;
      var vectors: seq<Vector> := [];
      for i := 0 to |t|
        invariant forall k :: 0 <= k < i ==> |t[k].vector| == m.dim.value
        invariant vectors == Vectors(t[..i])
      {
        if |t[i].vector| != m.dim.value { return false; }
        vectors := vectors + [t[i].vector];
        assert t[..i + 1] == t[..i] + [t[i]];
      }
      assert t[..|t|] == t;
      if |vectors| * m.dim.value == 0 { return false; }
      var file := IndexFile(true, m.dim.value, vectors, build);
      data.ReplaceIndex(file);
      data.PutMeta(m.(version := m.version + 1, total := |vectors|, indexVersion := m.dataVersion,
                      indexChecksum := Some(Sha256Index(file))));
      cached := Some(file);
      ok := true;
    }

    method UploadIndex(source: Option<IndexFile>, version: Option<int>, checksum: Option<Checksum>) returns (ok: bool)
      modifies this, data
      ensures Did(UploadEffect(old(data.Now()), old(cached), source, version, checksum), ok)
    {
      if data.meta.None? { return false; }
      var m := data.meta.value;
      if version.Some? && version.value < m.version { return false; }
      if source.None? { return false; }
      if checksum.Some? && checksum.value != Sha256Index(source.value) { return false; }
      if !source.value.readable { return false; }
      data.ReplaceIndex(source.value);
      var wanted := if version.Some? then version.value else m.version + 1;
      data.PutMeta(m.(version := if wanted < m.version then m.version else wanted,
                      indexVersion := m.dataVersion, indexChecksum := Some(Sha256Index(source.value))));
      cached := source;
      ok := true;
    }

    method ExportCollectionBundle() returns (ok: bool, bundle: Option<BundleFile>)
      modifies this, data
      ensures Did(ExportEffect(old(data.Now()), old(cached)), ok)
      ensures bundle == ExportEffect(old(data.Now()), old(cached)).bundle
    {
      if data.meta.None? { return false, None; }
      var m := data.meta.value;
      if m.dataState == Purged { return false, None; }
      if m.dataState == Importing || m.dataState == Invalid { return false, None; }
      if data.index.None? { return false, None; }
      if m.indexVersion != m.dataVersion { return false, None; }
      if cached.None? {
        if !data.index.value.readable { return false, None; }
        cached := data.index;
      }
      var loaded := cached.value;
      var count := data.RowCount();
      if !(|loaded.labels| == count == m.total) { return false, None; }
      if m.dim.Some? && loaded.dim != m.dim.value { return false, None; }
      bundle := Some(MakeBundle(m, data.index.value, data.live.GetOr([])));
      data.PutMeta(m.(lastKnownTotal := Some(count), exportedDataVersion := Some(m.dataVersion),
                      exportedIndexVersion := Some(m.indexVersion), exportedIndexChecksum := m.indexChecksum));
      ok := true;
    }

    method ImportCollectionBundle(b: BundleFile) returns (ok: bool)
      modifies this, data
      ensures Did(ImportEffect(old(data.Now()), old(cached), b), ok)
    {
      var readable := ReadBundle(b);
      if !readable { return false; }
      if data.meta.None? { return false; }
      var m := data.meta.value;
      if b.manifest.name != m.name { return false; }
      if m.dim.Some? && b.manifest.dim.Some? && m.dim.value != b.manifest.dim.value { return false; }
      if b.manifest.schemaChecksum != Some(Sha256Schema(m.schema)) { return false; }
      var prepared := Prepare(m, b);
      if !prepared { return false; }
      Commit(m, b);
      cached := Some(b.index);
      ok := true;
    }

    /** Stages index and rows beside the live state, or sweeps what it staged. */
    method Prepare(m: Meta, b: BundleFile) returns (ok: bool)
      requires data.meta == Some(m)
      modifies data
      ensures ok <==> IndexMatches(b) && Load(b.rows).Some?
      ensures ok ==> data.log == old(data.log) + PrepareWrites(old(data.Now()), b, Load(b.rows).value)
      ensures ok ==> data.Now() == old(data.Now()).(stagingIndex := Some(b.index), staging := Load(b.rows))
      ensures !ok ==> data.log == old(data.log) + RejectedWrites(old(data.Now()), b)
      ensures !ok ==> data.Now() == Done(old(data.Now()), RejectedWrites(old(data.Now()), b))
    {
      data.WriteStagingIndex(b.index);
      if !IndexMatches(b) {
        SweepStaging(m);
        return false;
      }
      ok := data.ImportRowsToStaging(b.rows);
      if !ok {
        SweepStaging(m);
      }
    }

    /** The except branch of the prepare phase. */
    method SweepStaging(m: Meta)
      requires data.meta == Some(m)
      modifies data
      ensures data.log == old(data.log) + AbortWrites(old(data.Now()))
      ensures data.Now() == Done(old(data.Now()), AbortWrites(old(data.Now())))
    {
      data.UnlinkStagingIndex();
      data.RollbackStaging();
      if data.meta.value.dataState == Importing || data.meta.value.importTxn.Some? {
        data.PutMeta(data.meta.value.(dataState := m.dataState, importTxn := None));
      }
    }

    /** Commit-intent marker, then index, scalar table, metadata and clean-up, in that order. */
    method Commit(m: Meta, b: BundleFile)
      requires data.meta == Some(m) && data.stagingIndex == Some(b.index) && data.staging.Some?
      modifies data
      ensures data.log == old(data.log) + CommitWrites(old(data.Now()), m, b, old(data.staging).value)
      ensures data.Now() == Done(old(data.Now()), CommitWrites(old(data.Now()), m, b, old(data.staging).value))
    {
      var dim := OrDim(b.manifest.dim, m.dim);
      data.PutMeta(m.(dataState := Importing,
                      importTxn := Some(ImportTxn(m.dataVersion + 1, m.dataState, |b.rows|, dim))));
      if data.index.Some? {
        data.IndexToPreImport();
      }
      data.StagingToIndex();
      data.CommitStaging();
      data.PutMeta(m.(version := m.version + 1, dim := dim, total := |b.rows|, dataState := Ready,
                      lastKnownTotal := Some(|b.rows|), dataVersion := m.dataVersion + 1,
                      indexVersion := m.dataVersion + 1, importTxn := None,
                      indexChecksum := Some(Sha256Index(b.index))));
      data.UnlinkPreImport();
    }

    method PurgeCollectionData(requireExported: bool) returns (ok: bool)
      modifies this, data
      ensures Did(PurgeEffect(old(data.Now()), old(cached), requireExported), ok)
    {
      if data.meta.None? { return false; }
      var m := data.meta.value;
      if requireExported {
        var dataCovered := m.exportedDataVersion == Some(m.dataVersion);
        var indexCovered := m.exportedIndexVersion == Some(m.indexVersion) && m.exportedIndexChecksum
            == m.indexChecksum;
        if !(dataCovered && indexCovered) { return false; }
      }
      var count := data.RowCount();
      cached := None;
      data.UnlinkIndex();
      data.UnlinkStagingIndex();
      data.UnlinkPreImport();
      data.RollbackStaging();
      data.DropTable();
      data.PutMeta(m.(dataState := Purged, lastKnownTotal := Some(count), dataVersion := m.dataVersion + 1,
                      indexVersion := 0, indexChecksum := None, total := 0, exportedDataVersion := None,
                      exportedIndexVersion := None, exportedIndexChecksum := None));
      ok := true;
    }

    /** load_collection, and the first search after a restart. */
    method LoadCollection() returns (ok: bool)
      modifies this
      ensures Did(LoadEffect(old(data.Now()), old(cached)), ok)
    {
      if data.meta.None? || data.index.None? || !data.index.value.readable { return false; }
      cached := data.index;
      ok := true;
    }

    method CloseCollection() returns (ok: bool)
      modifies this
      ensures Did(CloseEffect(), ok)
    {
      cached := None;
      ok := true;
    }
  }
}
