/**
 What it means that an index is fresh, that is, that index_version equals data_version: over whole
 runs, its labels are the vectors of the rows, so a bundle that export packs agrees with itself.
 */
module Freshness {
  import opened Tables
  import opened Bundles
  import opened Collection
  import opened ImportRecovery
  import opened PurgeSafety
  import opened BundleRoundTrip

  /** Label i is the vector of row i, for every row. */
  ghost predicate Current(d: Disk) {
    d.index.Some? && d.index.value.labels == Vectors(Rows(d))
  }

  ghost predicate FreshIsCurrent(d: Disk) {
    && !NeedsRecovery(d)
    && (d.meta.Some? ==>
          && d.meta.value.dataVersion >= 1 && d.meta.value.indexVersion <= d.meta.value.dataVersion
          && (d.meta.value.indexVersion == d.meta.value.dataVersion ==> Current(d)))
  }

  /** The bundle's index labels its own rows. */
  ghost predicate SelfConsistent(b: BundleFile) {
    Load(b.rows).Some? ==> b.index.labels == Vectors(Load(b.rows).value)
  }

  /** What the server cannot check: uploaded and imported indexes belong to the rows they come with.
      And the crashes it does not recover from: inside a purge before its metadata write, and inside an
      import that does not start safely or whose row count is the old one. */
  ghost predicate Faithful(s: Server, e: Event) {
    match e.op
    case Upload(source, _, _) => source.Some? ==> source.value.labels == Vectors(Rows(s.disk))
    case Purge(_) => e.crash.Some? ==> e.crash.value.stop == 0 || e.crash.value.stop >= 6
    case Import(b) =>
      && SelfConsistent(b)
      && (e.crash.Some? && Accepts(s.disk, b) ==> SafeStart(s.disk) && Count(s.disk) != |b.rows|)
    case _ => true
  }

  ghost predicate FaithfulRun(events: seq<Event>) {
    events != [] ==>
      FaithfulRun(events[..|events| - 1]) && Faithful(Run(events[..|events| - 1]), events[|events| - 1])
  }

  lemma InsertStaysFresh(d: Disk, cache: Option<IndexFile>, data: seq<NewRow>, stop: nat)
    requires FreshIsCurrent(d)
    ensures FreshIsCurrent(After(d, InsertEffect(d, cache, data).writes, stop))
  {
    hide InsertEffect, After, InsertedTable, CheckVectors;
    InsertStates(d, cache, data, stop);
  }

  lemma RebuildStaysFresh(s: Server, e: Event, stop: nat)
    requires (e.op.Flush? || e.op.Upload?) && FreshIsCurrent(s.disk) && Faithful(s, e)
    ensures FreshIsCurrent(After(s.disk, EffectOf(s, e.op).writes, stop))
  {
  }

  lemma PurgeStaysFresh(s: Server, e: Event, stop: nat)
    requires e.op.Purge? && FreshIsCurrent(s.disk) && (stop == 0 || stop >= 6)
    ensures FreshIsCurrent(After(s.disk, EffectOf(s, e.op).writes, stop))
  {
  }

  lemma OtherStaysFresh(s: Server, op: Op, stop: nat)
    requires op.Create? || op.Drop? || op.LoadIndex? || op.CloseIndex? || op.Export?
    requires FreshIsCurrent(s.disk)
    ensures FreshIsCurrent(After(s.disk, EffectOf(s, op).writes, stop))
  {
  }

  lemma SameCore(d: Disk, c: Disk)
    requires CoreOf(c) == CoreOf(d) && FreshIsCurrent(d)
    ensures FreshIsCurrent(c)
  {
  }

  lemma ImportedIsFresh(d: Disk, b: BundleFile)
    requires FreshIsCurrent(d) && Accepts(d, b) && SelfConsistent(b)
    ensures FreshIsCurrent(Imported(d, b))
  {
    hide ImportWrites;
    ImportOutcome(d, b);
  }

  lemma ImportStaysFresh(s: Server, e: Event)
    requires e.op.Import? && FreshIsCurrent(s.disk) && Faithful(s, e)
    ensures FreshIsCurrent(Step(s, e).disk)
  {
    hide ImportWrites, Load, Readable, After, RecoverWrites, Recover, FreshIsCurrent;
    var b := e.op.bundle;
    var f := EffectOf(s, e.op);
    var stop := if e.crash.None? then |f.writes| else e.crash.value.stop;
    var c := After(s.disk, f.writes, stop);
    NothingInFlight(s.disk);
    if Accepts(s.disk, b) {
      ImportEffectWrites(s.disk, s.cache, b);
      ImportedIsFresh(s.disk, b);
      if e.crash.Some? {
        CrashedImport(s.disk, b, stop, e.crash.value.restarts);
      }
    } else {
      RejectedImportTouchesNothing(s.disk, s.cache, b, stop);
      SameCore(s.disk, c);
      NothingInFlight(c);
      if e.crash.Some? { RecoverNothing(c, e.crash.value.restarts); }
    }
  }

  lemma NothingInFlight(d: Disk)
    requires FreshIsCurrent(d)
    ensures !NeedsRecovery(d)
  {
  }

  /** All or nothing, however often recovery is cut short. */
  lemma CrashedImport(d: Disk, b: BundleFile, stop: nat, restarts: seq<nat>)
    requires FreshIsCurrent(d) && Accepts(d, b) && SelfConsistent(b) && SafeStart(d) && Count(d) != |b.rows|
    ensures FreshIsCurrent(RecoverWithCrashes(After(d, ImportWrites(d, b), stop), restarts))
  {
    hide ImportWrites, Load, Readable, After, RecoverWrites, Recover, FreshIsCurrent, RecoverWithCrashes;
    NothingInFlight(d);
    AtomicFromSafeStart(d, b, stop);
    CrashIsOnTheWay(d, b, stop);
    ConvergesFrom(d, b, After(d, ImportWrites(d, b), stop), restarts, CoreOf(CrashAndRecover(d, b, stop)));
    ImportedIsFresh(d, b);
    var r := RecoverWithCrashes(After(d, ImportWrites(d, b), stop), restarts);
    if CoreOf(r) == CoreOf(d) { SameCore(d, r); } else { SameCore(Imported(d, b), r); }
  }

  lemma StepStaysFresh(s: Server, e: Event)
    requires FreshIsCurrent(s.disk) && Faithful(s, e)
    ensures FreshIsCurrent(Step(s, e).disk)
  {
    hide FreshIsCurrent, After, InsertEffect, FlushEffect, UploadEffect, PurgeEffect;
    if e.op.Import? {
      ImportStaysFresh(s, e);
    } else {
      var f := EffectOf(s, e.op);
      var stop := if e.crash.None? then |f.writes| else e.crash.value.stop;
      if e.op.Insert? {
        InsertStaysFresh(s.disk, s.cache, e.op.data, stop);
      } else if e.op.Flush? || e.op.Upload? {
        RebuildStaysFresh(s, e, stop);
      } else if e.op.Purge? {
        PurgeWrites(s, e.op.requireExported);
        PurgeStaysFresh(s, e, stop);
      } else {
        OtherStaysFresh(s, e.op, stop);
      }
      var c := After(s.disk, f.writes, stop);
      NothingInFlight(c);
      if e.crash.Some? { RecoverNothing(c, e.crash.value.restarts); }
    }
  }

  lemma PurgeWrites(s: Server, requireExported: bool)
    ensures var f := PurgeEffect(s.disk, s.cache, requireExported); f.writes == [] || |f.writes| == 6
  {
  }

  /** MAIN: after a faithful run, crashes included, an index that counts as fresh labels every row with
      its vector. */
  lemma {:induction false} FreshIndexIsCurrent(events: seq<Event>)
    requires FaithfulRun(events)
    ensures FreshIsCurrent(Run(events).disk)
  {
    hide FreshIsCurrent, Step, Faithful;
    if events == [] {
      NothingThere();
    } else {
      FreshIndexIsCurrent(events[..|events| - 1]);
      StepStaysFresh(Run(events[..|events| - 1]), events[|events| - 1]);
    }
  }

  lemma NothingThere()
    ensures FreshIsCurrent(EmptyDisk)
  {
  }

  /** MAIN: hence in every bundle such a run exports, label i of the index is the vector of row i. */
  lemma {:induction false} ExportsAgreeWithThemselves(events: seq<Event>, i: nat)
    requires FaithfulRun(events) && ExportEffect(Run(events).disk, Run(events).cache).ok
    requires i < |ExportEffect(Run(events).disk, Run(events).cache).bundle.value.rows|
    ensures var b := ExportEffect(Run(events).disk, Run(events).cache).bundle.value;
            && |b.index.labels| == |b.rows|
            && b.rows[i].rowId == IntId(i) && b.rows[i].vector == Flat(b.index.labels[i])
  {
    hide Run;
    FreshIndexIsCurrent(events);
    RowsStayLabelled(events);
  }
}
