/**
 Labels and rows agree over whole runs. An exported bundle passes the reader's checks, and export,
 purge, import brings the same rows and index back under a newer data version, exactly when the rows
 fit the dimension the metadata states.
 */
module BundleRoundTrip {
  import opened Tables
  import opened Collections
  import opened Bundles
  import opened Collection
  import opened ImportRecovery
  import opened PurgeSafety

  ghost predicate TableOk(d: Disk) {
    && !NeedsRecovery(d)
    && Labelled(Rows(d)) && DistinctDocs(Rows(d))
  }

  lemma {:induction false} RecoveryKeepsRows(c: Disk, restarts: seq<nat>)
    ensures RecoverWithCrashes(c, restarts).live == c.live
    decreases |restarts|
  {
    if restarts != [] {
      RecoveryKeepsRows(After(c, RecoverWrites(c), restarts[0]), restarts[1..]);
    }
  }

  lemma InsertedRows(d: Disk, cache: Option<IndexFile>, data: seq<NewRow>, stop: nat)
    requires TableOk(d)
    ensures var c := After(d, InsertEffect(d, cache, data).writes, stop);
            && TableOk(c)
            && Rows(d) <= Rows(c) && |Rows(c)| <= |Rows(d)| + |data|
            && (|Rows(c)| > |Rows(d)| ==> |Rows(c)| == |Rows(d)| + |data|)
  {
    hide InsertEffect, After, InsertedTable, CheckVectors;
    InsertStates(d, cache, data, stop);
    if d.meta.Some? && InsertedTable(d.meta.value, Rows(d), data).Some? {
      InsertAppends(d.meta.value, Rows(d), data);
    }
  }

  lemma InsertAppends(m: Meta, t: Table, data: seq<NewRow>)
    requires Labelled(t) && DistinctDocs(t) && InsertedTable(m, t, data).Some?
    ensures var u := InsertedTable(m, t, data).value;
            && Labelled(u) && DistinctDocs(u) && t <= u && |u| == |t| + |data|
            && CheckVectors(data, m.dim).Some?
            && (forall i :: |t| <= i < |u| ==> Some(|u[i].vector|) == CheckVectors(data, m.dim).value)
  {
    hide InsertAll, CheckVectors;
    CheckedVectors(data, m.dim);
    var rows := Number(data, NextRowId(t));
    InsertAllSound(t, rows);
    AppendLabelled(t, rows);
    forall i | |t| <= i < |t + rows| ensures Some(|(t + rows)[i].vector|) == CheckVectors(data, m.dim).value {
      assert (t + rows)[i] == rows[i - |t|];
    }
  }

  lemma ImportedRows(s: Server, b: BundleFile, stop: nat)
    requires TableOk(s.disk)
    ensures var c := After(s.disk, ImportEffect(s.disk, s.cache, b).writes, stop);
            && Labelled(Rows(c)) && DistinctDocs(Rows(c))
            && (NeedsRecovery(c) ==> Marked(s.disk, b, c) && stop < |ImportEffect(s.disk, s.cache, b).writes|)
  {
    if Accepts(s.disk, b) {
      assert ImportEffect(s.disk, s.cache, b).writes == ImportWrites(s.disk, b);
      CrashStates(s.disk, b, stop);
      ImportOutcome(s.disk, b);
      LoadedRowsAreLabelled(b.rows, b.manifest.total.value);
    } else {
      RejectedImportTouchesNothing(s.disk, s.cache, b, stop);
    }
  }

  lemma {:induction false} RecoveryLeavesNothingInFlight(c: Disk, restarts: seq<nat>)
    requires NeedsRecovery(c) ==> c.meta.value.importTxn.Some? && c.meta.value.importTxn.value.prevState != Importing
    ensures !NeedsRecovery(RecoverWithCrashes(c, restarts))
    decreases |restarts|
  {
    if restarts != [] {
      RecoveryLeavesNothingInFlight(After(c, RecoverWrites(c), restarts[0]), restarts[1..]);
    }
  }

  /** What the other operations can do to rows and dimension, at any of their writes. */
  lemma QuietWrites(s: Server, op: Op, stop: nat)
    requires !op.Import? && !op.Insert? && !NeedsRecovery(s.disk)
    ensures var c := After(s.disk, EffectOf(s, op).writes, stop);
            && !NeedsRecovery(c)
            && (Rows(c) == Rows(s.disk) || Rows(c) == [])
            && (c.meta.None? ==> s.disk.meta.None? || op.Drop?)
            && (op.Drop? && stop >= 5 ==> Rows(c) == [])
            && (c.meta.Some? ==>
                  || (s.disk.meta.Some? && c.meta.value.dim == s.disk.meta.value.dim)
                  || (s.disk.meta.None? && op.Create? && Rows(c) == Rows(s.disk)))
  {
    match op
    case Create(_, _) =>
    case Drop =>
    case Flush(_) =>
    case Upload(_, _, _) =>
    case LoadIndex =>
    case CloseIndex =>
    case Export =>
    case Purge(_) =>
  }

  lemma StepTableOk(s: Server, e: Event)
    requires TableOk(s.disk)
    ensures TableOk(Step(s, e).disk)
  {
    var f := EffectOf(s, e.op);
    var stop := if e.crash.None? then |f.writes| else e.crash.value.stop;
    var c := After(s.disk, f.writes, stop);
    match e.op {
      case Insert(data) => InsertedRows(s.disk, s.cache, data, stop);
      case Import(b) => ImportedRows(s, b, stop);
      case _ => QuietWrites(s, e.op, stop);
    }
    if e.crash.Some? {
      RecoveryKeepsRows(c, e.crash.value.restarts);
      RecoveryLeavesNothingInFlight(c, e.crash.value.restarts);
    }
  }

  /** MAIN: after any run, crashes anywhere, the row ids are 0..count-1 and no document id repeats. */
  lemma {:induction false} RowsStayLabelled(events: seq<Event>)
    ensures TableOk(Run(events).disk)
  {
    if events != [] {
      RowsStayLabelled(events[..|events| - 1]);
      StepTableOk(Run(events[..|events| - 1]), events[|events| - 1]);
    }
  }

  /** After a flush, label i of the index is the vector of the row whose row_id is i, for every row. */
  lemma FlushedLabelsAreRows(events: seq<Event>, build: int)
    requires FlushEffect(Run(events).disk, Run(events).cache, build).ok
    ensures var s := Step(Run(events), Event(Flush(build), None));
            && s.disk.index.Some? && s.disk.live.Some?
            && |s.disk.index.value.labels| == Count(s.disk) == s.disk.meta.value.total
            && s.disk.meta.value.indexVersion == s.disk.meta.value.dataVersion
            && forall i :: 0 <= i < Count(s.disk) ==>
                 Rows(s.disk)[i].rowId == i && s.disk.index.value.labels[i] == Rows(s.disk)[i].vector
  {
    RowsStayLabelled(events);
  }

  // -------------------------------------------------------------------------
  // Dimensions
  // -------------------------------------------------------------------------

  /** Every row has the dimension the metadata states, if it states one. */
  ghost predicate RowsFit(d: Disk) {
    d.meta.Some? && d.meta.value.dim.Some? ==> AllDims(Rows(d), d.meta.value.dim.value)
  }

  ghost predicate DimsOk(d: Disk) {
    && (d.meta.Some? && d.meta.value.dim.None? ==> Rows(d) == [])
    && RowsFit(d)
  }

  /** Enough for rows that fit: a drop runs to the end, and imported manifests state a positive dimension. */
  predicate Tidy(e: Event) {
    && (e.op.Drop? ==> e.crash.None?)
    && (e.op.Import? ==> e.op.bundle.manifest.dim.Some? && e.op.bundle.manifest.dim.value > 0)
  }

  lemma LoadedDims(b: BundleFile, dim: nat)
    requires Load(b.rows).Some?
    ensures AllDims(Load(b.rows).value, dim) <==>
        forall k :: 0 <= k < |b.rows| ==> VectorOk(b.rows[k].vector, Some(dim))
  {
    var rs := ToRows(b.rows);
    InsertAllSound([], rs);
    var t := Load(b.rows).value;
    if AllDims(t, dim) {
      forall k | 0 <= k < |b.rows| ensures VectorOk(b.rows[k].vector, Some(dim)) {
        assert rs[k] in multiset(t);
        assert rs[k] in t;
      }
    } else {
      var i :| 0 <= i < |t| && |t[i].vector| != dim;
      assert t[i] in multiset(t);
      assert t[i] in rs;
    }
  }

  ghost predicate MidDims(d: Disk, b: BundleFile, c: Disk) {
    || (DimsOk(c) && !NeedsRecovery(c))
    || (DimsOk(c) && Marked(d, b, c) && c.live == d.live)
    || NewRows(d, b, c)
  }

  lemma RecoveryKeepsDims(d: Disk, b: BundleFile, c: Disk, stop: nat)
    requires !NeedsRecovery(d) && DimsOk(d) && Accepts(d, b) && b.manifest.dim.Some? && b.manifest.dim.value > 0
    requires MidDims(d, b, c)
    ensures MidDims(d, b, After(c, RecoverWrites(c), stop))
    ensures DimsOk(Recover(c))
  {
    if DimsOk(c) && !NeedsRecovery(c) {
    } else if DimsOk(c) && Marked(d, b, c) && c.live == d.live {
      assert RolledBack(MarkedMeta(d.meta.value, b)) == d.meta.value;
    } else {
      LoadedCount(b);
      LoadedDims(b, b.manifest.dim.value);
    }
  }

  lemma {:induction false} RecoveryEndsWithDims(d: Disk, b: BundleFile, c: Disk, restarts: seq<nat>)
    requires !NeedsRecovery(d) && DimsOk(d) && Accepts(d, b) && b.manifest.dim.Some? && b.manifest.dim.value > 0
    requires MidDims(d, b, c)
    ensures DimsOk(RecoverWithCrashes(c, restarts))
    decreases |restarts|
  {
    RecoveryKeepsDims(d, b, c, if restarts == [] then 0 else restarts[0]);
    if restarts != [] {
      RecoveryEndsWithDims(d, b, After(c, RecoverWrites(c), restarts[0]), restarts[1..]);
    }
  }

  lemma InsertKeepsDims(d: Disk, cache: Option<IndexFile>, data: seq<NewRow>, stop: nat)
    requires TableOk(d) && DimsOk(d)
    requires d.meta.None? ==> Rows(d) == []
    ensures var c := After(d, InsertEffect(d, cache, data).writes, stop);
            DimsOk(c) && !NeedsRecovery(c) && (c.meta.None? ==> Rows(c) == [])
  {
    hide InsertEffect, After, InsertedTable, CheckVectors;
    InsertStates(d, cache, data, stop);
    if d.meta.Some? && CheckVectors(data, d.meta.value.dim).Some? {
      CheckedVectors(data, d.meta.value.dim);
      if InsertedTable(d.meta.value, Rows(d), data).Some? { InsertAppends(d.meta.value, Rows(d), data); }
    }
  }

  lemma ImportKeepsDims(s: Server, e: Event)
    requires e.op.Import? && TableOk(s.disk) && DimsOk(s.disk) && Tidy(e)
    ensures DimsOk(Step(s, e).disk)
  {
    var b := e.op.bundle;
    var f := EffectOf(s, e.op);
    var stop := if e.crash.None? then |f.writes| else e.crash.value.stop;
    var c := After(s.disk, f.writes, stop);
    if Accepts(s.disk, b) {
      assert f.writes == ImportWrites(s.disk, b);
      CrashStates(s.disk, b, stop);
      ImportOutcome(s.disk, b);
      LoadedDims(b, b.manifest.dim.value);
      if e.crash.Some? { RecoveryEndsWithDims(s.disk, b, c, e.crash.value.restarts); }
    } else {
      RejectedImportTouchesNothing(s.disk, s.cache, b, stop);
      if e.crash.Some? { RecoverNothing(c, e.crash.value.restarts); }
    }
  }

  lemma OtherWritesKeepDims(s: Server, e: Event, stop: nat)
    requires !e.op.Import? && !e.op.Insert? && TableOk(s.disk) && DimsOk(s.disk) && Tidy(e)
    requires s.disk.meta.None? ==> Rows(s.disk) == []
    requires e.op.Drop? ==> stop == |DropEffect(s.disk).writes|
    ensures var c := After(s.disk, EffectOf(s, e.op).writes, stop);
            DimsOk(c) && !NeedsRecovery(c) && (c.meta.None? ==> Rows(c) == [])
  {
    QuietWrites(s, e.op, stop);
    if s.disk.meta.None? && e.op.Create? {
      CreatedDims(s, e.op, stop);
    }
  }

  lemma CreatedDims(s: Server, op: Op, stop: nat)
    requires op.Create? && s.disk.meta.None?
    ensures var c := After(s.disk, EffectOf(s, op).writes, stop);
            c.meta.Some? ==> c.meta.value.dim.None?
  {
  }

  lemma StepKeepsDims(s: Server, e: Event)
    requires TableOk(s.disk) && DimsOk(s.disk) && Tidy(e)
    requires s.disk.meta.None? ==> Rows(s.disk) == []
    ensures DimsOk(Step(s, e).disk)
    ensures Step(s, e).disk.meta.None? ==> Rows(Step(s, e).disk) == []
  {
    var f := EffectOf(s, e.op);
    var stop := if e.crash.None? then |f.writes| else e.crash.value.stop;
    var c := After(s.disk, f.writes, stop);
    if e.op.Import? {
      ImportKeepsDims(s, e);
      ImportKeepsMeta(s, e.op.bundle, stop);
      if e.crash.Some? { MetaSurvives(c, e.crash.value.restarts); RecoveryKeepsRows(c, e.crash.value.restarts); }
    } else {
      if e.op.Insert? {
        InsertKeepsDims(s.disk, s.cache, e.op.data, stop);
      } else {
        OtherWritesKeepDims(s, e, stop);
      }
      if e.crash.Some? { RecoverNothing(c, e.crash.value.restarts); }
    }
  }

  lemma ImportKeepsMeta(s: Server, b: BundleFile, stop: nat)
    requires TableOk(s.disk)
    ensures var c := After(s.disk, ImportEffect(s.disk, s.cache, b).writes, stop);
            (c.meta.None? <==> s.disk.meta.None?) && (c.meta.None? ==> c == s.disk)
  {
    if Accepts(s.disk, b) {
      assert ImportEffect(s.disk, s.cache, b).writes == ImportWrites(s.disk, b);
      CrashStates(s.disk, b, stop);
      ImportOutcome(s.disk, b);
    } else {
      RejectedImportTouchesNothing(s.disk, s.cache, b, stop);
    }
  }

  lemma {:induction false} MetaSurvives(c: Disk, restarts: seq<nat>)
    ensures RecoverWithCrashes(c, restarts).meta.None? <==> c.meta.None?
    decreases |restarts|
  {
    if restarts != [] { MetaSurvives(After(c, RecoverWrites(c), restarts[0]), restarts[1..]); }
  }

  lemma {:induction false} DimsStayOk(events: seq<Event>)
    requires forall i :: 0 <= i < |events| ==> Tidy(events[i])
    ensures DimsOk(Run(events).disk) && (Run(events).disk.meta.None? ==> Rows(Run(events).disk) == [])
  {
    if events != [] {
      var before := events[..|events| - 1];
      DimsStayOk(before);
      RowsStayLabelled(before);
      StepKeepsDims(Run(before), events[|events| - 1]);
    }
  }

  // -------------------------------------------------------------------------
  // Round trip
  // -------------------------------------------------------------------------

  /** An exported bundle always loads; it passes read_bundle exactly when the rows fit the stated dimension. */
  lemma ExportReadableIff(d: Disk, cache: Option<IndexFile>)
    requires TableOk(d) && ExportEffect(d, cache).ok
    ensures var b := ExportEffect(d, cache).bundle.value;
            && Load(b.rows) == Some(Rows(d))
            && (Readable(b) <==> RowsFit(d))
  {
    hide Load;
    LoadInvertsExport(Rows(d));
    SequentialIdsResolve(ExportEffect(d, cache).bundle.value.rows);
    if d.meta.value.dim.Some? { ExportedVectorsOk(Rows(d), d.meta.value.dim.value); }
  }

  lemma SequentialIdsResolve(rows: seq<BundleRow>)
    requires forall k :: 0 <= k < |rows| ==> rows[k].rowId == IntId(k)
    ensures LabelsResolve(rows, |rows|)
  {
    forall i | i in Upto(|rows|) ensures i in Ids(rows, |rows|) {
      assert rows[i].rowId.id == i;
    }
    FullCoverResolves(rows, |rows|);
  }

  lemma ExportedVectorsOk(t: Table, dim: nat)
    ensures (forall k :: 0 <= k < |t| ==> VectorOk(FromRows(t)[k].vector, Some(dim))) <==> AllDims(t, dim)
  {
    forall k | 0 <= k < |t| ensures VectorOk(FromRows(t)[k].vector, Some(dim)) <==> |t[k].vector| == dim {
    }
  }

  /** MAIN: whatever the run, a bundle it exports is accepted by read_bundle exactly when the rows fit
      the dimension the metadata states; export itself compares the index with both, never the rows. */
  lemma ExportsReadableIff(events: seq<Event>)
    requires ExportEffect(Run(events).disk, Run(events).cache).ok
    ensures Readable(ExportEffect(Run(events).disk, Run(events).cache).bundle.value) <==> RowsFit(Run(events).disk)
  {
    RowsStayLabelled(events);
    ExportReadableIff(Run(events).disk, Run(events).cache);
  }

  /** In a tidy run the rows fit, so every bundle it exports is accepted by read_bundle. */
  lemma {:induction false} ExportsPassTheLabelCheck(events: seq<Event>)
    requires forall i :: 0 <= i < |events| ==> Tidy(events[i])
    requires ExportEffect(Run(events).disk, Run(events).cache).ok
    ensures Readable(ExportEffect(Run(events).disk, Run(events).cache).bundle.value)
  {
    hide Run, ExportEffect, Readable, Tidy;
    ExportsReadableIff(events);
    DimsStayOk(events);
  }

  /** The cached index is the index file, so the counts export compares are those of the file it packs. */
  ghost predicate CacheCoherent(s: Server) {
    s.cache.Some? ==> s.cache == s.disk.index && s.cache.value.readable
  }

  lemma StepKeepsCache(s: Server, e: Event)
    requires CacheCoherent(s) && TableOk(s.disk)
    ensures CacheCoherent(Step(s, e))
  {
    hide InsertAll, CheckVectors, Readable;
    match e.op
    case Import(b) =>
      var f := EffectOf(s, e.op);
      if Accepts(s.disk, b) {
        assert f.writes == ImportWrites(s.disk, b);
        ImportOutcome(s.disk, b);
      } else {
        RejectedImportTouchesNothing(s.disk, s.cache, b, |f.writes|);
      }
    case Insert(_) =>
    case _ =>
  }

  lemma {:induction false} CacheStaysCoherent(events: seq<Event>)
    ensures CacheCoherent(Run(events))
  {
    if events != [] {
      CacheStaysCoherent(events[..|events| - 1]);
      RowsStayLabelled(events[..|events| - 1]);
      StepKeepsCache(Run(events[..|events| - 1]), events[|events| - 1]);
    }
  }

  /** The state right after an export, and after the purge the export then allows. */
  ghost function Exported(s: Server): Server {
    Step(s, Event(Export, None))
  }

  ghost function ExportedAndPurged(s: Server): Server {
    Step(Exported(s), Event(Purge(true), None))
  }

  ghost function Reimported(s: Server): Server
    requires ExportEffect(s.disk, s.cache).ok
  {
    Step(ExportedAndPurged(s), Event(Import(ExportEffect(s.disk, s.cache).bundle.value), None))
  }

  /** Rows and index bytes are the old ones, under a fresh index and a strictly newer data version. */
  ghost predicate Restored(s: Server, r: Server) {
    && s.disk.meta.Some? && r.disk.meta.Some?
    && r.disk.index == s.disk.index && r.cache == s.disk.index
    && r.disk.live == Some(Rows(s.disk))
    && r.disk.meta.value.total == Count(s.disk)
    && r.disk.meta.value.dataState == Ready
    && r.disk.meta.value.indexVersion == r.disk.meta.value.dataVersion
    && r.disk.meta.value.dataVersion == s.disk.meta.value.dataVersion + 2
  }

  ghost predicate Emptied(s: Server) {
    s.disk.index.None? && s.disk.live.None?
  }

  /** MAIN: right after an export, in any run, the exported-only purge is allowed. The bundle then
      imports back, with the rows and index bytes exported, exactly when the rows fit the stated
      dimension; when they do not, the purged collection stays empty. */
  lemma {:induction false} ExportPurgeImportIff(events: seq<Event>)
    requires ExportEffect(Run(events).disk, Run(events).cache).ok
    ensures var s := Run(events);
            && EffectOf(Exported(s), Purge(true)).ok && Emptied(ExportedAndPurged(s))
            && (RowsFit(s.disk) <==>
                EffectOf(ExportedAndPurged(s), Import(ExportEffect(s.disk, s.cache).bundle.value)).ok)
            && (RowsFit(s.disk) ==> Restored(s, Reimported(s)))
            && (!RowsFit(s.disk) ==> Emptied(Reimported(s)))
  {
    RowsStayLabelled(events);
    CacheStaysCoherent(events);
    RoundTripIff(Run(events));
  }

  lemma RoundTripIff(s: Server)
    requires TableOk(s.disk) && CacheCoherent(s) && ExportEffect(s.disk, s.cache).ok
    ensures EffectOf(Exported(s), Purge(true)).ok && Emptied(ExportedAndPurged(s))
    ensures EffectOf(ExportedAndPurged(s), Import(ExportEffect(s.disk, s.cache).bundle.value)).ok <==> RowsFit(s.disk)
    ensures RowsFit(s.disk) ==> Restored(s, Reimported(s))
    ensures !RowsFit(s.disk) ==> Emptied(Reimported(s))
  {
    hide Load, Readable, RowsFit;
    ExportReadableIff(s.disk, s.cache);
    var b := ExportEffect(s.disk, s.cache).bundle.value;
    var s2 := ExportedAndPurged(s);
    PurgedAccepts(s);
    if RowsFit(s.disk) {
      ImportOutcome(s2.disk, b);
      assert EffectOf(s2, Import(b)).writes == ImportWrites(s2.disk, b);
    } else {
      RejectedImportTouchesNothing(s2.disk, s2.cache, b, |EffectOf(s2, Import(b)).writes|);
    }
  }

  lemma PurgedAccepts(s: Server)
    requires TableOk(s.disk) && CacheCoherent(s) && ExportEffect(s.disk, s.cache).ok
    ensures var b := ExportEffect(s.disk, s.cache).bundle.value;
            var s2 := ExportedAndPurged(s);
            && (Accepts(s2.disk, b) <==> Readable(b) && Load(b.rows).Some?)
            && s2.disk.meta.Some? && s2.disk.meta.value.dataVersion == s.disk.meta.value.dataVersion + 1
            && !NeedsRecovery(s2.disk)
            && Emptied(s2) && EffectOf(Exported(s), Purge(true)).ok
  {
    hide Load, Readable;
  }

  /** In a tidy run the round trip completes. */
  lemma {:induction false} ExportPurgeImport(events: seq<Event>)
    requires forall i :: 0 <= i < |events| ==> Tidy(events[i])
    requires ExportEffect(Run(events).disk, Run(events).cache).ok
    ensures var s := Run(events);
            && EffectOf(Exported(s), Purge(true)).ok && Emptied(ExportedAndPurged(s))
            && EffectOf(ExportedAndPurged(s), Import(ExportEffect(s.disk, s.cache).bundle.value)).ok
            && Restored(s, Reimported(s))
  {
    DimsStayOk(events);
    ExportPurgeImportIff(events);
  }

  // -------------------------------------------------------------------------
  // Rows that do not fit
  // -------------------------------------------------------------------------

  /** After an import, export looks at the index alone, and the rows fit only if the bundle's vectors have
      the dimension the collection then states; a manifest with a dimension guarantees both, one without
      leaves them to the collection's own. */
  lemma ImportThenExport(d: Disk, b: BundleFile)
    requires Accepts(d, b)
    ensures var e := Imported(d, b);
            var dim := OrDim(b.manifest.dim, d.meta.value.dim);
            && (ExportEffect(e, Some(b.index)).ok <==> (dim.Some? ==> b.index.dim == dim.value))
            && (RowsFit(e) <==> forall k :: 0 <= k < |b.rows| ==> VectorOk(b.rows[k].vector, dim))
            && (b.manifest.dim.Some? && b.manifest.dim.value > 0 ==> ExportEffect(e, Some(b.index)).ok && RowsFit(e))
  {
    ImportOutcome(d, b);
    LoadedCount(b);
    var dim := OrDim(b.manifest.dim, d.meta.value.dim);
    if dim.Some? { LoadedDims(b, dim.value); }
  }

  /** One row of a collection named c, schema s, with the given vector and no dimension in the manifest. */
  function DimlessBundle(vector: Vector, dim: nat): BundleFile {
    var file := IndexFile(true, dim, [vector], 0);
    var rows := [BundleRow(IntId(0), Some("0"), Flat(vector), "")];
    BundleFile(
      Manifest(BUNDLE_FORMAT, "c", Some(1), None, Some(Sha256Index(file)), Some(Sha256Rows(rows)),
               Some(Sha256Schema("s")), IMPLICIT_SEQUENTIAL),
      file, rows)
  }

  lemma DimlessBundleLoads(vector: Vector, dim: nat)
    ensures var b := DimlessBundle(vector, dim);
            && Readable(b) && IndexMatches(b)
            && Load(b.rows) == Some([Row(0, "0", vector, "")])
  {
    var b := DimlessBundle(vector, dim);
    var t := [Row(0, "0", vector, "")];
    assert FromRows(t) == b.rows;
    LoadInvertsExport(t);
    SequentialIdsResolve(b.rows);
  }

  ghost function Calls(events: seq<Event>, op: Op): (r: seq<Event>)
    ensures Run(r) == Step(Run(events), Event(op, None))
  {
    var r := events + [Event(op, None)];
    assert r[..|r| - 1] == events;
    r
  }

  function OneRow(vector: Vector): Op {
    Insert([NewRow(None, Flat(vector), "")])
  }

  lemma FirstInsert(d: Disk, cache: Option<IndexFile>, vector: Vector)
    requires d.meta.Some? && d.meta.value.dim.None? && Rows(d) == []
    ensures var f := InsertEffect(d, cache, OneRow(vector).data);
            && f.ok && f.cache.None?
            && Done(d, f.writes).meta == Some(d.meta.value.(dim := Some(|vector|), total := 1,
                dataVersion := d.meta.value.dataVersion + 1))
  {
    var data := OneRow(vector).data;
    assert data[1..] == [];
    assert CheckVectors(data, None) == Some(Some(|vector|));
    var rows := Number(data, 0);
    assert NextRowId(Rows(d)) == 0;
    assert rows == [Row(0, Str(0), vector, "")];
    assert rows[1..] == [];
    assert InsertAll([], rows) == Some(rows);
  }

  /** A run without any crash: create, insert one row, import a bundle without a dimension in its
      manifest whose vector is longer than its index says. */
  ghost function MisfitCalls(short: Vector, long: Vector): seq<Event> {
    Calls(Calls(Calls([], Create("c", "s")), OneRow(short)), Import(DimlessBundle(long, |short|)))
  }

  lemma AfterOneRow(vector: Vector)
    ensures Run(Calls(Calls([], Create("c", "s")), OneRow(vector))).disk.meta
            == Some(NewMeta("c", "s").(dim := Some(|vector|), total := 1, dataVersion := 2))
  {
    hide InsertEffect, Run, Calls, Done;
    AfterCreate();
    var s := Run(Calls([], Create("c", "s")));
    FirstInsert(s.disk, s.cache, vector);
  }

  lemma AfterCreate()
    ensures var s := Run(Calls([], Create("c", "s")));
            s.disk == EmptyDisk.(meta := Some(NewMeta("c", "s")), live := Some([])) && s.cache.None?
  {
    hide Calls;
    assert Run([]) == Server(EmptyDisk, None, None);
  }

  lemma MisfitExports(short: Vector, long: Vector)
    requires |short| != |long|
    ensures var s := Run(MisfitCalls(short, long)); ExportEffect(s.disk, s.cache).ok && !RowsFit(s.disk)
  {
    hide Load, Readable, Run, Calls, ImportWrites;
    var b := DimlessBundle(long, |short|);
    DimlessBundleLoads(long, |short|);
    AfterOneRow(short);
    var s := Run(Calls(Calls([], Create("c", "s")), OneRow(short)));
    assert Accepts(s.disk, b);
    ImportThenExport(s.disk, b);
    ImportEffectWrites(s.disk, s.cache, b);
    assert b.rows[0].vector == Flat(long);
  }

  /** The failing input: that run exports a bundle read_bundle rejects, the exported-only purge is
      allowed right after, and the bundle cannot be imported back. */
  lemma MisfitRun(short: Vector, long: Vector)
    requires |short| != |long|
    ensures var s := Run(MisfitCalls(short, long));
            && ExportEffect(s.disk, s.cache).ok
            && !Readable(ExportEffect(s.disk, s.cache).bundle.value)
            && EffectOf(Exported(s), Purge(true)).ok
            && Emptied(Reimported(s))
  {
    MisfitExports(short, long);
    ExportsReadableIff(MisfitCalls(short, long));
    ExportPurgeImportIff(MisfitCalls(short, long));
  }

  /** The other way to rows that do not fit: a drop that stops after its first write keeps the table,
      and the collection created next, which states no dimension, inherits the rows. */
  lemma InheritedRows(s: Server, restarts: seq<nat>, name: string, schema: string)
    requires TableOk(s.disk)
    ensures var s1 := Step(s, Event(Drop, Some(Crash(1, restarts))));
            var s2 := Step(s1, Event(Create(name, schema), None));
            && EffectOf(s1, Create(name, schema)).ok
            && s2.disk.meta == Some(NewMeta(name, schema)) && Rows(s2.disk) == Rows(s.disk)
  {
    RecoverNothing(After(s.disk, DropEffect(s.disk).writes, 1), restarts);
  }

  /** The insert that then fixes the dimension does not look at them. */
  lemma {:induction false} FirstDimensionFitsIff(d: Disk, cache: Option<IndexFile>, data: seq<NewRow>)
    requires TableOk(d) && InsertEffect(d, cache, data).ok && d.meta.value.dim.None? && data != []
    ensures CheckVectors(data, None).Some?
    ensures RowsFit(Done(d, InsertEffect(d, cache, data).writes)) <==> AllDims(Rows(d), |data[0].vector.v|)
  {
    hide InsertAll, CheckVectors;
    CheckedVectors(data, None);
    var rows := Number(data, NextRowId(Rows(d)));
    AppendLabelled(Rows(d), rows);
    assert AllDims(rows, |data[0].vector.v|);
    AppendDims(Rows(d), rows, |data[0].vector.v|);
  }

  lemma AppendDims(t: Table, u: Table, dim: nat)
    requires AllDims(u, dim)
    ensures AllDims(t + u, dim) <==> AllDims(t, dim)
  {
    if AllDims(t + u, dim) {
      forall i | 0 <= i < |t| ensures |t[i].vector| == dim {
        assert t[i] == (t + u)[i];
      }
    }
  }
}
