/**
 When insert, flush and upload go through, and what then becomes of the client's rows: each row of a
 batch is stored under its own row id, and the next flush puts its vector under that label.
 */
module Ingest {
  import opened Tables
  import opened Bundles
  import opened Collection
  import opened ImportRecovery
  import opened PurgeSafety
  import opened BundleRoundTrip

  // -------------------------------------------------------------------------
  // insert
  // -------------------------------------------------------------------------

  /** All vectors are flat, of one length, and of the collection's dimension if it has one. */
  ghost predicate VectorsFit(data: seq<NewRow>, dim: Option<nat>) {
    && (forall i :: 0 <= i < |data| ==> data[i].vector.Flat?)
    && (forall i, j :: 0 <= i < j < |data| ==> |data[i].vector.v| == |data[j].vector.v|)
    && (dim.Some? ==> forall i :: 0 <= i < |data| ==> |data[i].vector.v| == dim.value)
  }

  lemma {:induction false} CheckVectorsIff(data: seq<NewRow>, dim: Option<nat>)
    ensures CheckVectors(data, dim).Some? <==> VectorsFit(data, dim)
    decreases |data|
  {
    if data != [] {
      if data[0].vector.Flat? {
        CheckVectorsIff(data[1..], Some(|data[0].vector.v|));
        FitTail(data, dim);
      }
    }
  }

  lemma FitTail(data: seq<NewRow>, dim: Option<nat>)
    requires data != [] && data[0].vector.Flat?
    ensures VectorsFit(data, dim) <==>
            (dim.Some? ==> dim.value == |data[0].vector.v|) && VectorsFit(data[1..], Some(|data[0].vector.v|))
  {
    var rest := data[1..];
    assert forall i :: 0 <= i < |rest| ==> rest[i] == data[i + 1];
    if VectorsFit(rest, Some(|data[0].vector.v|)) {
      forall i | 0 <= i < |data| ensures data[i].vector.Flat? && |data[i].vector.v| == |data[0].vector.v| {
        if i > 0 { assert rest[i - 1] == data[i]; }
      }
    }
    if VectorsFit(data, dim) {
      forall i | 0 <= i < |rest| ensures rest[i].vector.Flat? && |rest[i].vector.v| == |data[0].vector.v| {
        assert rest[i] == data[i + 1];
      }
    }
  }

  /** The id given with the row, else its row id in decimal. */
  function DocIdOf(row: NewRow, rowId: nat): string {
    if row.docId.Some? then row.docId.value else Str(rowId)
  }

  /** No id of the batch is in the table or twice in the batch. */
  ghost predicate IdsFree(t: Table, data: seq<NewRow>) {
    && (forall k, i :: 0 <= k < |t| && 0 <= i < |data| ==> t[k].docId != DocIdOf(data[i], |t| + i))
    && (forall i, j :: 0 <= i < j < |data| ==> DocIdOf(data[i], |t| + i) != DocIdOf(data[j], |t| + j))
  }

  lemma NextIsCount(t: Table)
    requires Labelled(t)
    ensures NextRowId(t) == |t|
  {
  }

  lemma NumberedRows(t: Table, data: seq<NewRow>, rows: seq<Row>)
    requires Labelled(t) && forall i :: 0 <= i < |data| ==> data[i].vector.Flat?
    requires rows == Number(data, |t|)
    ensures NoClash(t, rows) <==> IdsFree(t, data)
  {
    assert forall i :: 0 <= i < |rows| ==> rows[i].rowId == |t| + i && rows[i].docId == DocIdOf(data[i], |t| + i);
    if NoClash(t, rows) {
      forall k, i | 0 <= k < |t| && 0 <= i < |data| ensures t[k].docId != DocIdOf(data[i], |t| + i) {
        assert t[k] in t && !Clash(t[k], rows[i]);
      }
      forall i, j | 0 <= i < j < |data| ensures DocIdOf(data[i], |t| + i) != DocIdOf(data[j], |t| + j) {
        assert !Clash(rows[i], rows[j]);
      }
    }
    if IdsFree(t, data) {
      forall x, j | x in t && 0 <= j < |rows| ensures !Clash(x, rows[j]) {
        var k :| 0 <= k < |t| && t[k] == x;
      }
    }
  }

  /** MAIN: an insert goes through exactly when the collection exists, its vectors fit, and no id of
      the batch, given or made up from a row id, is taken. */
  lemma InsertSucceedsIff(d: Disk, cache: Option<IndexFile>, data: seq<NewRow>)
    requires TableOk(d)
    ensures InsertEffect(d, cache, data).ok <==>
            d.meta.Some? && VectorsFit(data, d.meta.value.dim) && IdsFree(Rows(d), data)
  {
    hide InsertAll, CheckVectors;
    if d.meta.Some? {
      CheckVectorsIff(data, d.meta.value.dim);
      if CheckVectors(data, d.meta.value.dim).Some? {
        CheckedVectors(data, d.meta.value.dim);
        NextIsCount(Rows(d));
        NumberedRows(Rows(d), data, Number(data, NextRowId(Rows(d))));
        InsertAllSucceeds(Rows(d), Number(data, NextRowId(Rows(d))));
      }
    }
  }

  /** r is what the client's row becomes at row id n. */
  predicate Stored(r: Row, row: NewRow, n: nat) {
    && r.rowId == n
    && row.vector == Flat(r.vector)
    && r.payload == row.payload
    && (row.docId.Some? ==> r.docId == row.docId.value)
    && (row.docId.None? ==> IsDecimal(r.docId, n))
  }

  /** MAIN: an insert that goes through adds the rows of the batch, each with its own vector, payload
      and id, behind the rows already there, under the next data version. */
  lemma InsertStoresBatch(d: Disk, cache: Option<IndexFile>, data: seq<NewRow>)
    requires TableOk(d) && InsertEffect(d, cache, data).ok
    ensures var e := Done(d, InsertEffect(d, cache, data).writes);
            && Count(e) == Count(d) + |data| && Rows(e) == Rows(d) + Rows(e)[Count(d)..]
            && (forall i :: 0 <= i < |data| ==> Stored(Rows(e)[Count(d) + i], data[i], Count(d) + i))
            && e.meta.Some? && e.meta.value.total == Count(e)
            && e.meta.value.dataVersion == d.meta.value.dataVersion + 1
  {
    hide InsertAll, CheckVectors, Str, IsDecimal;
    CheckedVectors(data, d.meta.value.dim);
    var t := Rows(d);
    var rows := Number(data, NextRowId(t));
    AppendLabelled(t, rows);
    forall i | 0 <= i < |data| ensures Stored((t + rows)[|t| + i], data[i], |t| + i) {
      assert (t + rows)[|t| + i] == rows[i];
      StrReadsBack(|t| + i);
    }
    assert (t + rows)[|t|..] == rows;
  }

  // -------------------------------------------------------------------------
  // flush, upload
  // -------------------------------------------------------------------------

  /** A flush goes through exactly when there are rows and they all have the collection's dimension. */
  lemma FlushSucceedsIff(d: Disk, cache: Option<IndexFile>, build: int)
    ensures FlushEffect(d, cache, build).ok <==>
            && d.meta.Some? && d.meta.value.dim.Some? && d.meta.value.dim.value > 0
            && Rows(d) != [] && AllDims(Rows(d), d.meta.value.dim.value)
  {
  }

  /** An upload goes through exactly when the file is there, can be read and is what the request
      says, and the version asked for is not older; the version then is the one asked for, or the next. */
  lemma UploadSucceedsIff(d: Disk, cache: Option<IndexFile>, source: Option<IndexFile>, version: Option<int>,
      checksum: Option<Checksum>)
    ensures var f := UploadEffect(d, cache, source, version, checksum);
            && (f.ok <==>
                && d.meta.Some? && source.Some? && source.value.readable
                && (version.Some? ==> d.meta.value.version <= version.value)
                && (checksum.Some? ==> checksum.value == Sha256Index(source.value)))
            && (f.ok ==>
                && Done(d, f.writes).index == source && f.cache == source
                && Done(d, f.writes).meta.Some?
                && Done(d, f.writes).meta.value.version == version.GetOr(d.meta.value.version + 1))
  {
  }

  /** A load goes through exactly when there is an index file that can be read, and then holds it. */
  lemma LoadSucceedsIff(d: Disk, cache: Option<IndexFile>)
    ensures var f := LoadEffect(d, cache);
            && (f.ok <==> d.meta.Some? && d.index.Some? && d.index.value.readable)
            && f.cache == if f.ok then d.index else cache
  {
  }

  /** With the in-memory index in step, an export goes through exactly when the collection is ready, its
      index is readable and fresh, and index, rows and metadata agree on the count, index and metadata
      on the dimension. */
  lemma ExportSucceedsIff(s: Server)
    requires CacheCoherent(s)
    ensures ExportEffect(s.disk, s.cache).ok <==>
            && s.disk.meta.Some? && s.disk.index.Some? && s.disk.index.value.readable
            && var m, file := s.disk.meta.value, s.disk.index.value;
               && m.dataState == Ready && m.indexVersion == m.dataVersion
               && |file.labels| == Count(s.disk) == m.total
               && (m.dim.Some? ==> file.dim == m.dim.value)
  {
  }

  // -------------------------------------------------------------------------
  // insert, flush, export
  // -------------------------------------------------------------------------

  /** MAIN: after an insert, the flush that follows puts the vector of row i of the batch under the
      label Count + i, and leaves the older rows' vectors under theirs. */
  lemma {:induction false} InsertThenFlush(s: Server, data: seq<NewRow>, build: int)
    requires TableOk(s.disk) && InsertEffect(s.disk, s.cache, data).ok
    requires FlushEffect(Step(s, Event(Insert(data), None)).disk, None, build).ok
    ensures var n := Count(s.disk);
            var s1 := Step(s, Event(Insert(data), None));
            var s2 := Step(s1, Event(Flush(build), None));
            && s2.disk.index.Some? && s2.cache == s2.disk.index && s2.disk.live == s1.disk.live
            && |s2.disk.index.value.labels| == n + |data|
            && (forall i :: 0 <= i < |data| ==> data[i].vector == Flat(s2.disk.index.value.labels[n + i]))
            && (forall k :: 0 <= k < n ==> s2.disk.index.value.labels[k] == Rows(s.disk)[k].vector)
  {
    hide InsertEffect, Stored;
    var n, s1 := Count(s.disk), Step(s, Event(Insert(data), None));
    InsertStoresBatch(s.disk, s.cache, data);
    forall i | 0 <= i < |data| ensures data[i].vector == Flat(Rows(s1.disk)[n + i].vector) {
      StoredVector(Rows(s1.disk)[n + i], data[i], n + i);
    }
    forall k | 0 <= k < n ensures Rows(s1.disk)[k].vector == Rows(s.disk)[k].vector {
      assert (Rows(s.disk) + Rows(s1.disk)[n..])[k] == Rows(s.disk)[k];
    }
    InsertDropsCache(s, data);
  }

  lemma StoredVector(r: Row, row: NewRow, n: nat)
    requires Stored(r, row, n)
    ensures row.vector == Flat(r.vector)
  {
  }

  lemma InsertDropsCache(s: Server, data: seq<NewRow>)
    requires InsertEffect(s.disk, s.cache, data).ok
    ensures Step(s, Event(Insert(data), None)).cache.None?
  {
  }

  /** After a flush, export goes through exactly when the collection is ready: a purge leaves it in a
      state no insert or flush ends, only an import. */
  lemma FlushThenExportIff(s: Server, build: int)
    requires FlushEffect(s.disk, s.cache, build).ok
    ensures var s1 := Step(s, Event(Flush(build), None));
            ExportEffect(s1.disk, s1.cache).ok <==> s.disk.meta.value.dataState == Ready
  {
  }

  /** A purge that goes through leaves no rows, no index and no side file, counts what it deleted, and
      has the index count as stale under the next data version. */
  lemma PurgeEmpties(d: Disk, cache: Option<IndexFile>, requireExported: bool)
    requires PurgeEffect(d, cache, requireExported).ok
    ensures var e := Done(d, PurgeEffect(d, cache, requireExported).writes);
            && e.index.None? && e.stagingIndex.None? && e.preImport.None? && e.staging.None? && e.live.None?
            && e.meta.Some? && e.meta.value.dataState == Purged
            && e.meta.value.total == 0 && e.meta.value.lastKnownTotal == Some(Count(d))
            && e.meta.value.dataVersion == d.meta.value.dataVersion + 1 && e.meta.value.indexVersion == 0
            && e.meta.value.indexChecksum.None? && e.meta.value.exportedDataVersion.None?
            && e.meta.value.exportedIndexVersion.None? && e.meta.value.exportedIndexChecksum.None?
            && !PurgeEffect(e, None, true).ok
  {
  }

  /** A bundle that is turned away leaves nothing staged. */
  lemma RejectedLeavesNothingStaged(d: Disk, cache: Option<IndexFile>, b: BundleFile)
    requires !Accepts(d, b) && !NeedsRecovery(d)
    ensures var f := ImportEffect(d, cache, b);
            Done(d, f.writes) == if f.writes == [] then d else d.(staging := None, stagingIndex := None)
  {
    hide Readable, Load;
  }

  ghost predicate PurgedState(s: Server) {
    s.disk.meta.Some? && s.disk.meta.value.dataState == Purged && s.disk.meta.value.importTxn.None?
  }

  lemma PurgedStaysPurged(s: Server, e: Event)
    requires PurgedState(s) && !e.op.Drop? && !e.op.Import?
    ensures PurgedState(Step(s, e))
  {
    hide InsertEffect, CheckVectors, InsertedTable, Readable, Load;
    var f := EffectOf(s, e.op);
    var stop := if e.crash.None? then |f.writes| else e.crash.value.stop;
    if e.op.Insert? { InsertStates(s.disk, s.cache, e.op.data, stop); }
    if e.crash.Some? { RecoverNothing(After(s.disk, f.writes, stop), e.crash.value.restarts); }
  }

  ghost function Steps(s: Server, events: seq<Event>): Server {
    if events == [] then s else Step(Steps(s, events[..|events| - 1]), events[|events| - 1])
  }

  /** MAIN: once purged, a collection exports nothing until it is dropped or a bundle is imported,
      whatever is inserted and flushed in between, with crashes anywhere. */
  lemma {:induction false} PurgedUntilImport(s: Server, events: seq<Event>)
    requires PurgedState(s) && forall i :: 0 <= i < |events| ==> !events[i].op.Drop? && !events[i].op.Import?
    ensures var r := Steps(s, events); PurgedState(r) && !ExportEffect(r.disk, r.cache).ok
  {
    hide Step;
    if events != [] {
      PurgedUntilImport(s, events[..|events| - 1]);
      PurgedStaysPurged(Steps(s, events[..|events| - 1]), events[|events| - 1]);
    }
  }

  /** A finished drop leaves nothing a collection of that name could inherit. */
  lemma DropLeavesNothing(d: Disk)
    ensures Done(d, DropEffect(d).writes) == EmptyDisk.(staging := d.staging)
  {
  }

  /** A finished import takes the bundle's dimension if it states one, and keeps the collection's if not. */
  lemma ImportSetsDimension(d: Disk, b: BundleFile)
    requires Accepts(d, b)
    ensures Imported(d, b).meta.Some?
    ensures var dim := Imported(d, b).meta.value.dim;
            if b.manifest.dim.Some? && b.manifest.dim.value > 0 then dim == b.manifest.dim else dim == d.meta.value.dim
  {
    ImportOutcome(d, b);
  }

  /** MAIN: a collection just created takes any non-empty batch of equally long vectors with different
      ids, and can then be flushed and exported. */
  lemma FirstBatch(name: string, schema: string, data: seq<NewRow>, build: int)
    requires data != [] && data[0].vector != Flat([])
    ensures var s := Run(Calls([], Create(name, schema)));
            var s1 := Step(s, Event(Insert(data), None));
            var s2 := Step(s1, Event(Flush(build), None));
            && Rows(s.disk) == [] && s.disk.meta.Some? && s.disk.meta.value.total == 0 && s.disk.meta.value.version == 1
            && (InsertEffect(s.disk, s.cache, data).ok <==> VectorsFit(data, None) && IdsFree([], data))
            && (InsertEffect(s.disk, s.cache, data).ok ==>
                  FlushEffect(s1.disk, s1.cache, build).ok && ExportEffect(s2.disk, s2.cache).ok)
  {
    hide InsertEffect, FlushEffect, ExportEffect, VectorsFit, IdsFree, Run, Calls, Step;
    var events := Calls([], Create(name, schema));
    TidyCalls([], Create(name, schema));
    RowsStayLabelled(events);
    AfterCreation(name, schema);
    InsertSucceedsIff(Run(events).disk, Run(events).cache, data);
    if InsertEffect(Run(events).disk, Run(events).cache, data).ok {
      InsertFlushExport(events, data, build);
    }
  }

  lemma AfterCreation(name: string, schema: string)
    ensures var s := Run(Calls([], Create(name, schema)));
            && Rows(s.disk) == [] && s.disk.meta.Some?
            && s.disk.meta.value.dim.None? && s.disk.meta.value.dataState == Ready
            && s.disk.meta.value.total == 0 && s.disk.meta.value.version == 1
  {
    hide Calls;
    assert Run([]) == Server(EmptyDisk, None, None);
  }

  /** MAIN: in a tidy run, a non-empty batch that was inserted can be flushed, and exported if the
      collection is ready; the bundle then holds each row of the batch, its vector under the same label. */
  lemma {:induction false} InsertFlushExport(events: seq<Event>, data: seq<NewRow>, build: int)
    requires forall i :: 0 <= i < |events| ==> Tidy(events[i])
    requires InsertEffect(Run(events).disk, Run(events).cache, data).ok
    requires data != [] && data[0].vector != Flat([])
    ensures var s := Run(events);
            var n := Count(s.disk);
            var s1 := Step(s, Event(Insert(data), None));
            var s2 := Step(s1, Event(Flush(build), None));
            var f := ExportEffect(s2.disk, s2.cache);
            && FlushEffect(s1.disk, s1.cache, build).ok
            && (f.ok <==> s.disk.meta.value.dataState == Ready)
            && (f.ok ==>
                f.bundle.Some? && Readable(f.bundle.value) && Holds(f.bundle.value, data, n))
  {
    hide InsertEffect, FlushEffect, ExportEffect, Run, Step, Stored, Readable, Tidy;
    var s := Run(events);
    var after := Calls(events, Insert(data));
    var flushed := Calls(after, Flush(build));
    RowsStayLabelled(events);
    TidyCalls(events, Insert(data));
    TidyCalls(after, Flush(build));
    DimsStayOk(after);
    InsertedState(s, data);
    FlushSucceedsIff(Run(after).disk, Run(after).cache, build);
    InsertThenFlush(s, data, build);
    FlushThenExportIff(Run(after), build);
    if ExportEffect(Run(flushed).disk, Run(flushed).cache).ok {
      ExportsPassTheLabelCheck(flushed);
      ExportedBatch(s, data, build);
      BundleIs(Run(flushed).disk, Run(flushed).cache);
    }
  }

  lemma TidyCalls(events: seq<Event>, op: Op)
    requires (forall i :: 0 <= i < |events| ==> Tidy(events[i])) && Tidy(Event(op, None))
    ensures var r := Calls(events, op); forall i :: 0 <= i < |r| ==> Tidy(r[i])
  {
  }

  lemma InsertedState(s: Server, data: seq<NewRow>)
    requires TableOk(s.disk) && InsertEffect(s.disk, s.cache, data).ok
    ensures var e := Step(s, Event(Insert(data), None));
            && e.cache.None? && e.disk.meta.Some? && e.disk.meta.value.dataState == s.disk.meta.value.dataState
            && (data != [] && data[0].vector != Flat([]) ==>
                  e.disk.meta.value.dim.Some? && e.disk.meta.value.dim.value > 0)
            && Count(e.disk) == Count(s.disk) + |data|
  {
    hide InsertAll, CheckVectors;
    CheckedVectors(data, s.disk.meta.value.dim);
    InsertStoresBatch(s.disk, s.cache, data);
  }

  /** What the bundle of an export says of the batch inserted at row n. */
  ghost predicate Holds(b: BundleFile, data: seq<NewRow>, n: nat) {
    && |b.rows| == |b.index.labels| == n + |data|
    && forall i :: 0 <= i < |data| ==> HoldsRow(b.rows[n + i], b.index.labels[n + i], data[i], n + i)
  }

  ghost predicate HoldsRow(r: BundleRow, labelled: Vector, row: NewRow, n: nat) {
    && r.rowId == IntId(n) && r.vector == row.vector == Flat(labelled) && r.payload == row.payload
    && (row.docId.Some? ==> r.docId == row.docId)
  }

  lemma BundleIs(d: Disk, cache: Option<IndexFile>)
    requires ExportEffect(d, cache).ok
    ensures var b := ExportEffect(d, cache).bundle;
            b.Some? && b.value.rows == FromRows(Rows(d)) && d.index == Some(b.value.index)
  {
  }

  lemma ExportedBatch(s: Server, data: seq<NewRow>, build: int)
    requires TableOk(s.disk) && InsertEffect(s.disk, s.cache, data).ok
    requires var s1 := Step(s, Event(Insert(data), None));
             FlushEffect(s1.disk, s1.cache, build).ok
    requires var s2 := Step(Step(s, Event(Insert(data), None)), Event(Flush(build), None));
             ExportEffect(s2.disk, s2.cache).ok
    ensures var s2 := Step(Step(s, Event(Insert(data), None)), Event(Flush(build), None));
            Holds(ExportEffect(s2.disk, s2.cache).bundle.value, data, Count(s.disk))
  {
    hide InsertEffect, FlushEffect, ExportEffect, Stored;
    var n, s1 := Count(s.disk), Step(s, Event(Insert(data), None));
    var s2 := Step(s1, Event(Flush(build), None));
    InsertStoresBatch(s.disk, s.cache, data);
    InsertedState(s, data);
    InsertThenFlush(s, data, build);
    BundleIs(s2.disk, s2.cache);
    var b := ExportEffect(s2.disk, s2.cache).bundle.value;
    var u := Rows(s1.disk);
    forall i | 0 <= i < |data| ensures HoldsRow(b.rows[n + i], b.index.labels[n + i], data[i], n + i) {
      assert Stored(u[n + i], data[i], n + i);
      StoredRow(u[n + i], data[i], n + i);
    }
  }

  lemma StoredRow(r: Row, row: NewRow, n: nat)
    requires Stored(r, row, n)
    ensures FromRow(r).rowId == IntId(n) && FromRow(r).vector == row.vector && FromRow(r).payload == row.payload
    ensures row.docId.Some? ==> FromRow(r).docId == row.docId
  {
  }

  // -------------------------------------------------------------------------
  // Versions
  // -------------------------------------------------------------------------

  /** How a call that goes through moves version, data version and index version: new rows or none make
      the index stale, a new index is fresh and raises the version, import does both. */
  ghost predicate Moved(op: Op, m: Meta, m': Meta) {
    match op
    case Insert(_) =>
      m'.version == m.version && m'.dataVersion == m.dataVersion + 1 && m'.indexVersion == m.indexVersion
    case Flush(_) =>
      m'.version == m.version + 1 && m'.dataVersion == m.dataVersion && m'.indexVersion == m.dataVersion
    case Upload(_, wanted, _) =>
      && m'.version == (if wanted.Some? then wanted.value else m.version + 1)
      && m'.dataVersion == m.dataVersion && m'.indexVersion == m.dataVersion
    case Import(_) =>
      m'.version == m.version + 1 && m'.dataVersion == m.dataVersion + 1 && m'.indexVersion == m'.dataVersion
    case Purge(_) =>
      m'.version == m.version && m'.dataVersion == m.dataVersion + 1 && m'.indexVersion == 0
    case _ =>
      m'.version == m.version && m'.dataVersion == m.dataVersion && m'.indexVersion == m.indexVersion
  }

  lemma VersionsMove(s: Server, op: Op)
    requires EffectOf(s, op).ok && !op.Create? && !op.Drop? && s.disk.meta.Some?
    ensures var r := Step(s, Event(op, None)); r.disk.meta.Some? && Moved(op, s.disk.meta.value, r.disk.meta.value)
  {
    hide InsertAll, CheckVectors, Readable;
    if op.Import? {
      hide ImportWrites;
      ImportEffectWrites(s.disk, s.cache, op.bundle);
      ImportOutcome(s.disk, op.bundle);
    }
  }
}
