/**
 Whole runs of one collection: any sequence of calls, any of them cut short at any
 durable write and followed by restarts that may themselves be cut short. The version protocol
 never lets purge_collection_data(require_exported=True) delete rows the last export lacks.
 */
module PurgeSafety {
  import opened Tables
  import opened Bundles
  import opened Collection
  import opened ImportRecovery

  datatype Op =
    | Create(name: string, schema: string)
    | Drop
    | Insert(data: seq<NewRow>)
    | Flush(build: int)
    | Upload(source: Option<IndexFile>, version: Option<int>, checksum: Option<Checksum>)
    | LoadIndex
    | CloseIndex
    | Export
    | Import(bundle: BundleFile)
    | Purge(requireExported: bool)

  /** The process stops after `stop` writes; `restarts` are the recoveries cut short before one finishes. */
  datatype Crash = Crash(stop: nat, restarts: seq<nat>)

  datatype Event = Event(op: Op, crash: Option<Crash>)

  /** `exported` is the most recent bundle the server recorded as exported. */
  datatype Server = Server(disk: Disk, cache: Option<IndexFile>, exported: Option<BundleFile>)

  ghost function EffectOf(s: Server, op: Op): Effect {
    match op
    case Create(name, schema) => CreateEffect(s.disk, s.cache, name, schema)
    case Drop => DropEffect(s.disk)
    case Insert(data) => InsertEffect(s.disk, s.cache, data)
    case Flush(build) => FlushEffect(s.disk, s.cache, build)
    case Upload(source, version, checksum) => UploadEffect(s.disk, s.cache, source, version, checksum)
    case LoadIndex => LoadEffect(s.disk, s.cache)
    case CloseIndex => CloseEffect()
    case Export => ExportEffect(s.disk, s.cache)
    case Import(b) => ImportEffect(s.disk, s.cache, b)
    case Purge(requireExported) => PurgeEffect(s.disk, s.cache, requireExported)
  }

  ghost function Step(s: Server, e: Event): Server {
    var f := EffectOf(s, e.op);
    if e.crash.None? then
      Server(Done(s.disk, f.writes), f.cache, if f.bundle.Some? then f.bundle else s.exported)
    else
      var stop := e.crash.value.stop;
      Server(RecoverWithCrashes(After(s.disk, f.writes, stop), e.crash.value.restarts), None,
             if f.bundle.Some? && stop >= |f.writes| then f.bundle else s.exported)
  }

  ghost function Run(events: seq<Event>): Server {
    if events == [] then Server(EmptyDisk, None, None)
    else Step(Run(events[..|events| - 1]), events[|events| - 1])
  }

  // -------------------------------------------------------------------------
  // Rows: every crash point
  // -------------------------------------------------------------------------

  /** An export that matches the current data version holds every live row. Rows can be fewer
      (none) only because an interrupted purge already dropped the table. */
  ghost predicate RowsCovered(d: Disk, exported: Option<BundleFile>) {
    && !NeedsRecovery(d)
    && (d.meta.Some? ==>
          var m := d.meta.value;
          && (m.exportedDataVersion.Some? ==> m.exportedDataVersion.value <= m.dataVersion)
          && (m.exportedDataVersion == Some(m.dataVersion) ==>
                exported.Some? && (Rows(d) == [] || exported.value.rows == FromRows(Rows(d)))))
  }

  lemma {:induction false} RecoverNothing(c: Disk, restarts: seq<nat>)
    requires !NeedsRecovery(c)
    ensures RecoverWithCrashes(c, restarts) == c
    decreases |restarts|
  {
    if restarts != [] {
      RecoverNothing(c, restarts[1..]);
    }
  }

  /** What a crashed import can look like to the row invariant, before or during recovery. */
  ghost predicate MidImport(d: Disk, b: BundleFile, exported: Option<BundleFile>, c: Disk) {
    || RowsCovered(c, exported)
    || (Marked(d, b, c) && c.live == d.live)
    || NewRows(d, b, c)
  }

  lemma RecoveryKeepsMidImport(d: Disk, b: BundleFile, exported: Option<BundleFile>, c: Disk, stop: nat)
    requires RowsCovered(d, exported) && Accepts(d, b) && MidImport(d, b, exported, c)
    ensures MidImport(d, b, exported, After(c, RecoverWrites(c), stop))
    ensures RowsCovered(Recover(c), exported)
  {
    hide Recover, RecoverWrites, After, Marked, NewRows, Accepts;
    if RowsCovered(c, exported) {
      QuietRecovery(c, stop);
    } else if Marked(d, b, c) && c.live == d.live {
      RollsBack(d, b, exported, c, stop);
    } else {
      Finishes(d, b, exported, c, stop);
    }
  }

  lemma QuietRecovery(c: Disk, stop: nat)
    requires !NeedsRecovery(c)
    ensures After(c, RecoverWrites(c), stop) == c && Recover(c) == c
  {
  }

  lemma RollsBack(d: Disk, b: BundleFile, exported: Option<BundleFile>, c: Disk, stop: nat)
    requires RowsCovered(d, exported) && Accepts(d, b) && Marked(d, b, c) && c.live == d.live
    ensures MidImport(d, b, exported, After(c, RecoverWrites(c), stop)) && RowsCovered(Recover(c), exported)
  {
    assert RolledBack(MarkedMeta(d.meta.value, b)) == d.meta.value;
  }

  lemma Finishes(d: Disk, b: BundleFile, exported: Option<BundleFile>, c: Disk, stop: nat)
    requires RowsCovered(d, exported) && Accepts(d, b) && NewRows(d, b, c)
    ensures MidImport(d, b, exported, After(c, RecoverWrites(c), stop)) && RowsCovered(Recover(c), exported)
  {
    LoadedCount(b);
  }

  lemma {:induction false} RecoveryEndsCovered(d: Disk, b: BundleFile, exported: Option<BundleFile>, c: Disk,
      restarts: seq<nat>)
    requires RowsCovered(d, exported) && Accepts(d, b) && MidImport(d, b, exported, c)
    ensures RowsCovered(RecoverWithCrashes(c, restarts), exported)
    decreases |restarts|
  {
    RecoveryKeepsMidImport(d, b, exported, c, if restarts == [] then 0 else restarts[0]);
    if restarts != [] {
      RecoveryEndsCovered(d, b, exported, After(c, RecoverWrites(c), restarts[0]), restarts[1..]);
    }
  }

  /** A bundle that is turned away leaves index, rows, metadata and .pre-import as they were. */
  lemma RejectedImportTouchesNothing(d: Disk, cache: Option<IndexFile>, b: BundleFile, stop: nat)
    requires !Accepts(d, b) && !NeedsRecovery(d)
    ensures var f := ImportEffect(d, cache, b);
            !f.ok && f.cache == cache && Untouched(d, After(d, f.writes, stop))
  {
  }

  lemma AcceptedImportCrash(d: Disk, b: BundleFile, exported: Option<BundleFile>, cache: Option<IndexFile>, stop: nat)
    requires RowsCovered(d, exported) && Accepts(d, b)
    ensures MidImport(d, b, exported, After(d, ImportEffect(d, cache, b).writes, stop))
  {
    assert ImportEffect(d, cache, b).writes == ImportWrites(d, b);
    CrashStates(d, b, stop);
    ImportOutcome(d, b);
  }

  lemma ImportStepCovered(s: Server, e: Event)
    requires e.op.Import? && RowsCovered(s.disk, s.exported)
    ensures RowsCovered(Step(s, e).disk, Step(s, e).exported)
  {
    var b := e.op.bundle;
    var f := EffectOf(s, e.op);
    var stop := if e.crash.None? then |f.writes| else e.crash.value.stop;
    var c := After(s.disk, f.writes, stop);
    if Accepts(s.disk, b) {
      AcceptedImportCrash(s.disk, b, s.exported, s.cache, stop);
      if e.crash.None? {
        assert f.writes == ImportWrites(s.disk, b);
        ImportOutcome(s.disk, b);
      } else {
        RecoveryEndsCovered(s.disk, b, s.exported, c, e.crash.value.restarts);
      }
    } else {
      RejectedImportTouchesNothing(s.disk, s.cache, b, stop);
      if e.crash.Some? { RecoverNothing(c, e.crash.value.restarts); }
    }
  }

  /** Each durable state of each other operation keeps the invariant on its own. */
  lemma WritesCovered(s: Server, op: Op, stop: nat)
    requires !op.Import? && RowsCovered(s.disk, s.exported)
    ensures var f := EffectOf(s, op);
            RowsCovered(After(s.disk, f.writes, stop),
                        if f.bundle.Some? && stop >= |f.writes| then f.bundle else s.exported)
  {
    hide EffectOf, After, RowsCovered;
    if op.Insert? {
      InsertWritesCovered(s, op, stop);
    } else if op.Flush? || op.Upload? {
      IndexWritesCovered(s, op, stop);
    } else {
      OtherWritesCovered(s, op, stop);
    }
  }

  lemma InsertWritesCovered(s: Server, op: Op, stop: nat)
    requires op.Insert? && RowsCovered(s.disk, s.exported)
    ensures var f := EffectOf(s, op); f.bundle.None? && RowsCovered(After(s.disk, f.writes, stop), s.exported)
  {
    hide InsertEffect, After, InsertedTable, CheckVectors;
    InsertStates(s.disk, s.cache, op.data, stop);
  }

  lemma IndexWritesCovered(s: Server, op: Op, stop: nat)
    requires (op.Flush? || op.Upload?) && RowsCovered(s.disk, s.exported)
    ensures var f := EffectOf(s, op); f.bundle.None? && RowsCovered(After(s.disk, f.writes, stop), s.exported)
  {
  }

  lemma OtherWritesCovered(s: Server, op: Op, stop: nat)
    requires !op.Import? && !op.Insert? && !op.Flush? && !op.Upload? && RowsCovered(s.disk, s.exported)
    ensures var f := EffectOf(s, op);
            RowsCovered(After(s.disk, f.writes, stop),
                        if f.bundle.Some? && stop >= |f.writes| then f.bundle else s.exported)
  {
  }

  lemma StepCovered(s: Server, e: Event)
    requires RowsCovered(s.disk, s.exported)
    ensures RowsCovered(Step(s, e).disk, Step(s, e).exported)
  {
    if e.op.Import? {
      ImportStepCovered(s, e);
    } else {
      var f := EffectOf(s, e.op);
      var stop := if e.crash.None? then |f.writes| else e.crash.value.stop;
      WritesCovered(s, e.op, stop);
      if e.crash.Some? { RecoverNothing(After(s.disk, f.writes, stop), e.crash.value.restarts); }
    }
  }

  lemma {:induction false} RunCovered(events: seq<Event>)
    ensures RowsCovered(Run(events).disk, Run(events).exported)
  {
    if events != [] {
      RunCovered(events[..|events| - 1]);
      StepCovered(Run(events[..|events| - 1]), events[|events| - 1]);
    }
  }

  /** MAIN: after any run, crashes anywhere, a purge that requires an export is allowed only when
      every live row is in the most recently exported bundle. */
  lemma PurgeNeverLosesRows(events: seq<Event>)
    ensures var s := Run(events);
            PurgeEffect(s.disk, s.cache, true).ok ==>
              s.exported.Some? && (Rows(s.disk) == [] || s.exported.value.rows == FromRows(Rows(s.disk)))
  {
    RunCovered(events);
  }

  // -------------------------------------------------------------------------
  // Rows and index: which crashes break the gate
  // -------------------------------------------------------------------------

  ghost predicate IndexTracked(d: Disk, exported: Option<BundleFile>) {
    && !NeedsRecovery(d)
    && (d.meta.Some? ==> MetaTracks(d.meta.value, d, exported))
  }

  ghost predicate MetaTracks(m: Meta, d: Disk, exported: Option<BundleFile>) {
    && m.dataVersion >= 1
    && (m.indexChecksum.None? ==> m.indexVersion == 0)
    && (m.indexChecksum.Some? ==> d.index.Some? && m.indexChecksum.value == Sha256Index(d.index.value))
    && (m.exportedDataVersion.Some? ==> m.exportedDataVersion.value <= m.dataVersion)
    && (m.exportedIndexVersion.Some? ==> m.exportedDataVersion.Some?)
    && (m.exportedDataVersion == Some(m.dataVersion) ==>
          && exported.Some?
          && exported.value.rows == FromRows(Rows(d))
          && m.exportedIndexChecksum == Some(Sha256Index(exported.value.index)))
  }

  /** A restart was cut short in the middle of its roll-back. */
  predicate CutShort(restarts: seq<nat>)
    decreases |restarts|
  {
    restarts != [] && if restarts[0] == 0 then CutShort(restarts[1..]) else restarts[0] < 4
  }

  /** Recovery would bring back a .pre-import file that is not the index. */
  predicate StalePreImport(d: Disk) {
    d.preImport.Some? && d.preImport != d.index
  }

  /** The crashes that leave metadata and index (or rows) out of step: between the two writes of a
      rebuild that changed the index, between the first deletion and the metadata write of a purge,
      and at the marker of an import over a stale .pre-import file, unless restarts cut short in
      their roll-back are misled by equal row counts and finish the import instead. */
  ghost predicate Torn(s: Server, e: Event) {
    e.crash.Some? && s.disk.meta.Some? &&
    var m := s.disk.meta.value;
    var f := EffectOf(s, e.op);
    var stop := e.crash.value.stop;
    match e.op
    case Flush(_) => f.ok && stop == 1 && m.indexChecksum.Some? && f.cache != s.disk.index
    case Upload(_, _, _) => f.ok && stop == 1 && m.indexChecksum.Some? && f.cache != s.disk.index
    case Purge(_) =>
      && f.ok && 1 <= stop <= 5
      && (m.indexChecksum.Some? || (stop == 5 && m.exportedDataVersion == Some(m.dataVersion) && Rows(s.disk) != []))
    case Import(b) =>
      && Accepts(s.disk, b) && stop == 6 && m.indexChecksum.Some? && StalePreImport(s.disk)
      && (Count(s.disk) != |b.rows| || !CutShort(e.crash.value.restarts))
    case _ => false
  }

  // ---- imports --------------------------------------------------------------

  /** Recovery will take the switch for finished, rightly or not. */
  ghost predicate LooksSwitched(d: Disk, b: BundleFile, c: Disk) {
    Marked(d, b, c) && c.staging.None? && c.index.Some? && Count(c) == |b.rows|
  }

  /** Rolling back will leave this index. */
  function Fallback(c: Disk): Option<IndexFile> {
    if c.preImport.Some? then c.preImport else c.index
  }

  ghost predicate RollsBackTo(d: Disk, b: BundleFile, c: Disk, index: Option<IndexFile>) {
    Marked(d, b, c) && c.live == d.live && Fallback(c) == index
  }

  /** A crashed import that every further recovery turns into a tracked state. */
  ghost predicate MidImportTracked(d: Disk, b: BundleFile, exported: Option<BundleFile>, c: Disk) {
    || IndexTracked(c, exported)
    || LooksSwitched(d, b, c)
    || RollsBackTo(d, b, c, d.index)
    || (d.meta.Some? && d.meta.value.indexChecksum.None? && RollsBackTo(d, b, c, Fallback(c)))
  }

  lemma SwitchedEndsTracked(d: Disk, b: BundleFile, exported: Option<BundleFile>, c: Disk, stop: nat)
    requires IndexTracked(d, exported) && LooksSwitched(d, b, c)
    ensures MidImportTracked(d, b, exported, After(c, RecoverWrites(c), stop)) && IndexTracked(Recover(c), exported)
  {
  }

  lemma RolledBackEndsTracked(d: Disk, b: BundleFile, exported: Option<BundleFile>, c: Disk, stop: nat)
    requires IndexTracked(d, exported) && d.meta.Some? && !LooksSwitched(d, b, c) && RollsBackTo(d, b, c, Fallback(c))
    requires d.meta.value.indexChecksum.None? || Fallback(c) == d.index
    ensures MidImportTracked(d, b, exported, After(c, RecoverWrites(c), stop)) && IndexTracked(Recover(c), exported)
  {
    assert RolledBack(MarkedMeta(d.meta.value, b)) == d.meta.value;
  }

  lemma RecoveryKeepsMidImportTracked(d: Disk, b: BundleFile, exported: Option<BundleFile>, c: Disk, stop: nat)
    requires IndexTracked(d, exported) && d.meta.Some? && MidImportTracked(d, b, exported, c)
    ensures MidImportTracked(d, b, exported, After(c, RecoverWrites(c), stop)) && IndexTracked(Recover(c), exported)
  {
    hide Recover, RecoverWrites, After, Marked, MetaTracks;
    if LooksSwitched(d, b, c) {
      SwitchedEndsTracked(d, b, exported, c, stop);
    } else if RollsBackTo(d, b, c, Fallback(c)) && (d.meta.value.indexChecksum.None? || Fallback(c) == d.index) {
      RolledBackEndsTracked(d, b, exported, c, stop);
    } else {
      QuietRecovery(c, stop);
    }
  }

  lemma {:induction false} MidImportEndsTracked(d: Disk, b: BundleFile, exported: Option<BundleFile>, c: Disk,
      restarts: seq<nat>)
    requires IndexTracked(d, exported) && d.meta.Some? && MidImportTracked(d, b, exported, c)
    ensures IndexTracked(RecoverWithCrashes(c, restarts), exported)
    decreases |restarts|
  {
    hide Recover, RecoverWrites, After, MidImportTracked, IndexTracked;
    RecoveryKeepsMidImportTracked(d, b, exported, c, if restarts == [] then 0 else restarts[0]);
    if restarts != [] {
      MidImportEndsTracked(d, b, exported, After(c, RecoverWrites(c), restarts[0]), restarts[1..]);
    }
  }

  /** Past the marker, the old index is set aside or already replaced for good. */
  lemma PastTheMarker(d: Disk, b: BundleFile, stop: nat)
    requires Accepts(d, b) && d.index.Some? && stop > 6
    ensures var c := After(d, ImportWrites(d, b), stop);
            (c.live == d.live && Marked(d, b, c) ==> c.preImport == d.index || NewRows(d, b, c))
  {
    var commit := CommitWrites(d, d.meta.value, b, Load(b.rows).value);
    var writes := ImportWrites(d, b);
    assert writes == PrepareWrites(d, b, Load(b.rows).value) + commit;
    assert |commit| == 6 && writes[|writes| - 1] == commit[5];
    if stop < 11 { assert writes[stop - 1] == commit[stop - 6]; }
  }

  lemma CrashedImportTracked(d: Disk, b: BundleFile, exported: Option<BundleFile>, stop: nat)
    requires IndexTracked(d, exported) && Accepts(d, b)
    requires !(stop == 6 && d.meta.value.indexChecksum.Some? && StalePreImport(d))
    ensures MidImportTracked(d, b, exported, After(d, ImportWrites(d, b), stop))
  {
    hide ImportWrites, After;
    var c := After(d, ImportWrites(d, b), stop);
    CrashStates(d, b, stop);
    ImportOutcome(d, b);
    if NewRows(d, b, c) {
      LoadedCount(b);
    } else if OldRows(d, b, c) && c.staging.Some? && d.meta.value.indexChecksum.Some? {
      if stop == 6 { CrashAtMarker(d, b); }
      else if stop > 6 { PastTheMarker(d, b, stop); }
      else { BeforeTheMarker(d, b, stop); }
    }
  }

  lemma BeforeTheMarker(d: Disk, b: BundleFile, stop: nat)
    requires Accepts(d, b) && stop < 6
    ensures After(d, ImportWrites(d, b), stop).meta == d.meta
  {
  }

  /** The stale file is the index now, under the old metadata. */
  ghost predicate StaleIn(d: Disk, c: Disk) {
    !NeedsRecovery(c) && c.meta == d.meta && c.live == d.live && c.index == d.preImport
  }

  lemma StaleRollBack(d: Disk, b: BundleFile, c: Disk, stop: nat)
    requires Quiescent(d) && d.preImport.Some? && RollsBackTo(d, b, c, d.preImport) && c.index.Some?
    requires c.staging.Some? || Count(d) != |b.rows|
    ensures StaleIn(d, Recover(c))
    ensures var c1 := After(c, RecoverWrites(c), stop);
            && (StaleIn(d, c1) || (RollsBackTo(d, b, c1, d.preImport) && c1.index.Some?))
            && (stop == 0 ==> c1 == c)
            && (stop >= 4 ==> StaleIn(d, c1))
            && (0 < stop < 4 && c.preImport.Some? ==> RollsBackTo(d, b, c1, d.preImport) && c1.staging.None?)
  {
    assert RolledBack(MarkedMeta(d.meta.value, b)) == d.meta.value;
  }

  lemma {:induction false} StaleEnds(d: Disk, b: BundleFile, c: Disk, restarts: seq<nat>)
    requires Quiescent(d) && d.preImport.Some?
    requires StaleIn(d, c) || (RollsBackTo(d, b, c, d.preImport) && c.index.Some? && Count(d) != |b.rows|)
    ensures StaleIn(d, RecoverWithCrashes(c, restarts))
    decreases |restarts|
  {
    hide Recover, RecoverWrites, After;
    var stop := if restarts == [] then 0 else restarts[0];
    if StaleIn(d, c) { QuietRecovery(c, stop); } else { StaleRollBack(d, b, c, stop); }
    if restarts != [] {
      StaleEnds(d, b, After(c, RecoverWrites(c), stop), restarts[1..]);
    }
  }

  /** At the marker over a stale file: rolling back brings the stale file in under the old metadata;
      only restarts cut short with equal counts roll forward instead. */
  lemma {:induction false} StaleMarker(d: Disk, b: BundleFile, exported: Option<BundleFile>, c: Disk,
      restarts: seq<nat>)
    requires IndexTracked(d, exported) && Accepts(d, b) && d.index.Some? && StalePreImport(d)
    requires c == After(d, ImportWrites(d, b), 6)
    ensures var r := RecoverWithCrashes(c, restarts);
            if Count(d) != |b.rows| || !CutShort(restarts) then StaleIn(d, r) else IndexTracked(r, exported)
    decreases |restarts|
  {
    hide ImportWrites, Load, Readable, MetaTracks, Recover, RecoverWrites, After;
    CrashAtMarker(d, b);
    if restarts == [] {
      StaleRollBack(d, b, c, 0);
    } else {
      StaleRollBack(d, b, c, restarts[0]);
      var c1 := After(c, RecoverWrites(c), restarts[0]);
      if restarts[0] == 0 {
        StaleMarker(d, b, exported, c, restarts[1..]);
      } else if Count(d) != |b.rows| || !CutShort(restarts) {
        StaleEnds(d, b, c1, restarts[1..]);
      } else {
        MidImportEndsTracked(d, b, exported, c1, restarts[1..]);
      }
    }
  }

  lemma ImportUntorn(s: Server, e: Event)
    requires e.op.Import? && IndexTracked(s.disk, s.exported) && !Torn(s, e)
    ensures IndexTracked(Step(s, e).disk, Step(s, e).exported)
  {
    hide ImportWrites, Load, Readable, After, Recover, RecoverWrites;
    var b := e.op.bundle;
    var f := EffectOf(s, e.op);
    var stop := if e.crash.None? then |f.writes| else e.crash.value.stop;
    var c := After(s.disk, f.writes, stop);
    if Accepts(s.disk, b) {
      ImportEffectWrites(s.disk, s.cache, b);
      if e.crash.None? {
        FinishedImportTracked(s.disk, b, s.exported);
      } else if stop == 6 && s.disk.meta.value.indexChecksum.Some? && StalePreImport(s.disk) {
        StaleMarker(s.disk, b, s.exported, c, e.crash.value.restarts);
      } else {
        CrashedImportTracked(s.disk, b, s.exported, stop);
        MidImportEndsTracked(s.disk, b, s.exported, c, e.crash.value.restarts);
      }
    } else {
      RejectedImportTracked(s, b, stop);
      if e.crash.Some? { RecoverNothing(c, e.crash.value.restarts); }
    }
  }

  lemma ImportEffectWrites(d: Disk, cache: Option<IndexFile>, b: BundleFile)
    requires Accepts(d, b)
    ensures ImportEffect(d, cache, b).writes == ImportWrites(d, b) && ImportEffect(d, cache, b).bundle.None?
  {
  }

  lemma FinishedImportTracked(d: Disk, b: BundleFile, exported: Option<BundleFile>)
    requires IndexTracked(d, exported) && Accepts(d, b)
    ensures IndexTracked(Done(d, ImportWrites(d, b)), exported)
  {
    hide ImportWrites;
    ImportOutcome(d, b);
  }

  lemma RejectedImportTracked(s: Server, b: BundleFile, stop: nat)
    requires IndexTracked(s.disk, s.exported) && !Accepts(s.disk, b)
    ensures var f := ImportEffect(s.disk, s.cache, b);
            f.bundle.None? && IndexTracked(After(s.disk, f.writes, stop), s.exported)
  {
    hide After;
    RejectedImportTouchesNothing(s.disk, s.cache, b, stop);
  }

  // ---- the other calls ------------------------------------------------------

  lemma InsertTracked(d: Disk, cache: Option<IndexFile>, data: seq<NewRow>, exported: Option<BundleFile>, stop: nat)
    requires IndexTracked(d, exported)
    ensures IndexTracked(After(d, InsertEffect(d, cache, data).writes, stop), exported)
  {
    hide InsertEffect, After, InsertedTable, CheckVectors;
    InsertStates(d, cache, data, stop);
  }

  lemma ExportTracked(d: Disk, cache: Option<IndexFile>, exported: Option<BundleFile>, stop: nat)
    requires IndexTracked(d, exported)
    ensures var f := ExportEffect(d, cache);
            IndexTracked(After(d, f.writes, stop), if f.bundle.Some? && stop >= |f.writes| then f.bundle else exported)
  {
  }

  /** A rebuild is out of step exactly between its two writes, and only with another index. */
  lemma RebuildTrackedIff(d: Disk, f: Effect, exported: Option<BundleFile>, stop: nat)
    requires IndexTracked(d, exported)
    requires || (exists cache, build :: f == FlushEffect(d, cache, build))
             || (exists cache, source, version, checksum :: f == UploadEffect(d, cache, source, version, checksum))
    ensures f.bundle.None?
    ensures IndexTracked(After(d, f.writes, stop), exported)
            <==> !(f.ok && stop == 1 && d.meta.value.indexChecksum.Some? && f.cache != d.index)
    ensures f.ok ==> After(d, f.writes, 1) == d.(index := f.cache) && f.cache.Some?
  {
  }

  lemma PurgeTrackedIff(d: Disk, cache: Option<IndexFile>, requireExported: bool, exported: Option<BundleFile>,
      stop: nat)
    requires IndexTracked(d, exported)
    ensures var f := PurgeEffect(d, cache, requireExported);
            && f.bundle.None?
            && (IndexTracked(After(d, f.writes, stop), exported) <==>
                !(f.ok && 1 <= stop <= 5
                  && (|| d.meta.value.indexChecksum.Some?
                      || (&& stop == 5 && d.meta.value.exportedDataVersion == Some(d.meta.value.dataVersion)
                          && Rows(d) != []))))
            && (f.ok && 1 <= stop <= 5 ==> var c := After(d, f.writes, stop); c.meta == d.meta && c.index.None?)
  {
  }

  /** Up to the restarts, which find nothing to do. */
  lemma WritesTrackedIff(s: Server, e: Event, stop: nat)
    requires !e.op.Import? && IndexTracked(s.disk, s.exported)
    requires stop == if e.crash.None? then |EffectOf(s, e.op).writes| else e.crash.value.stop
    ensures var f := EffectOf(s, e.op);
            var exported := if f.bundle.Some? && stop >= |f.writes| then f.bundle else s.exported;
            IndexTracked(After(s.disk, f.writes, stop), exported) <==> !Torn(s, e)
  {
    hide IndexTracked, After;
    match e.op {
      case Insert(data) => InsertTracked(s.disk, s.cache, data, s.exported, stop);
      case Export => ExportTracked(s.disk, s.cache, s.exported, stop);
      case Flush(build) => RebuildTrackedIff(s.disk, FlushEffect(s.disk, s.cache, build), s.exported, stop);
      case Upload(source, version, checksum) =>
        RebuildTrackedIff(s.disk, UploadEffect(s.disk, s.cache, source, version, checksum), s.exported, stop);
      case Purge(requireExported) => PurgeTrackedIff(s.disk, s.cache, requireExported, s.exported, stop);
      case _ => OtherTracked(s, e.op, stop);
    }
  }

  lemma OtherTracked(s: Server, op: Op, stop: nat)
    requires op.Create? || op.Drop? || op.LoadIndex? || op.CloseIndex?
    requires IndexTracked(s.disk, s.exported)
    ensures var f := EffectOf(s, op); f.bundle.None? && IndexTracked(After(s.disk, f.writes, stop), s.exported)
  {
  }

  /** MAIN: from a state whose metadata track rows, index and export, one call, finished or cut short
      and recovered, leads to such a state again exactly when it is no torn crash. */
  lemma StepTrackedIff(s: Server, e: Event)
    requires IndexTracked(s.disk, s.exported)
    ensures IndexTracked(Step(s, e).disk, Step(s, e).exported) <==> !Torn(s, e)
  {
    if e.op.Import? {
      if Torn(s, e) { TornImport(s, e); } else { ImportUntorn(s, e); }
    } else {
      var f := EffectOf(s, e.op);
      var stop := if e.crash.None? then |f.writes| else e.crash.value.stop;
      WritesTrackedIff(s, e, stop);
      WritesCovered(s, e.op, stop);
      if e.crash.Some? { RecoverNothing(After(s.disk, f.writes, stop), e.crash.value.restarts); }
    }
  }

  lemma TornImport(s: Server, e: Event)
    requires IndexTracked(s.disk, s.exported) && Torn(s, e) && e.op.Import?
    ensures StaleIn(s.disk, Step(s, e).disk) && Step(s, e).exported == s.exported
    ensures !IndexTracked(Step(s, e).disk, s.exported)
  {
    hide ImportWrites, Load, Readable, After, Recover, RecoverWrites;
    ImportEffectWrites(s.disk, s.cache, e.op.bundle);
    StaleMarker(s.disk, e.op.bundle, s.exported, After(s.disk, EffectOf(s, e.op).writes, 6), e.crash.value.restarts);
  }

  ghost predicate UntornRun(events: seq<Event>) {
    events != [] ==>
      UntornRun(events[..|events| - 1]) && !Torn(Run(events[..|events| - 1]), events[|events| - 1])
  }

  lemma {:induction false} RunTracked(events: seq<Event>)
    requires UntornRun(events)
    ensures IndexTracked(Run(events).disk, Run(events).exported)
  {
    if events != [] {
      RunTracked(events[..|events| - 1]);
      StepTrackedIff(Run(events[..|events| - 1]), events[|events| - 1]);
    }
  }

  /** purge_collection_data(require_exported=True) would go through. */
  ghost predicate GateOpen(s: Server) {
    PurgeEffect(s.disk, s.cache, true).ok
  }

  /** The last export holds the rows and the index bytes on disk. */
  ghost predicate ExportHolds(s: Server) {
    && s.exported.Some?
    && s.exported.value.rows == FromRows(Rows(s.disk))
    && s.disk.index == Some(s.exported.value.index)
  }

  /** MAIN: in every run without a torn crash an allowed purge deletes rows and index bytes that are
      exactly those of the most recently exported bundle. */
  lemma PurgeCoversRowsAndIndex(events: seq<Event>)
    requires UntornRun(events)
    ensures GateOpen(Run(events)) ==> ExportHolds(Run(events))
  {
    RunTracked(events);
  }

  // -------------------------------------------------------------------------
  // Where the gate does not hold
  // -------------------------------------------------------------------------

  lemma TornKeepsTheGate(s: Server, e: Event)
    requires IndexTracked(s.disk, s.exported) && GateOpen(s) && Torn(s, e)
    ensures var r := Step(s, e);
            r.disk.meta == s.disk.meta && r.exported == s.exported && r.disk.index != s.disk.index
  {
    if e.op.Import? {
      TornImport(s, e);
    } else {
      var f := EffectOf(s, e.op);
      var c := After(s.disk, f.writes, e.crash.value.stop);
      match e.op {
        case Flush(build) => RebuildTrackedIff(s.disk, FlushEffect(s.disk, s.cache, build), s.exported, 1);
        case Upload(source, version, checksum) =>
          RebuildTrackedIff(s.disk, UploadEffect(s.disk, s.cache, source, version, checksum), s.exported, 1);
        case Purge(requireExported) => PurgeTrackedIff(s.disk, s.cache, requireExported, s.exported,
            e.crash.value.stop);
      }
      RecoverNothing(c, e.crash.value.restarts);
    }
  }

  /** MAIN: once the gate is open, one call leaves it open over rows or an index the last export does
      not hold exactly when it is a torn crash. */
  lemma GateBreaksIff(s: Server, e: Event)
    requires IndexTracked(s.disk, s.exported) && GateOpen(s)
    ensures ExportHolds(s)
    ensures GateOpen(Step(s, e)) && !ExportHolds(Step(s, e)) <==> Torn(s, e)
  {
    hide Step, Torn;
    StepTrackedIff(s, e);
    if Torn(s, e) { TornKeepsTheGate(s, e); }
  }

  /** A stop between a rebuild's index write and its metadata write leaves an exported collection
      purgeable; the index then on disk is the exported one exactly when the rebuild reproduced it. */
  lemma FlushCrashAtTheGate(s: Server, build: int, restarts: seq<nat>)
    requires IndexTracked(s.disk, s.exported) && GateOpen(s) && FlushEffect(s.disk, s.cache, build).ok
    ensures var r := Step(s, Event(Flush(build), Some(Crash(1, restarts))));
            && GateOpen(r) && r.exported == s.exported && r.disk.live == s.disk.live
            && (ExportHolds(r) <==> FlushEffect(s.disk, s.cache, build).cache == s.disk.index)
  {
    RebuildTrackedIff(s.disk, FlushEffect(s.disk, s.cache, build), s.exported, 1);
    RecoverNothing(After(s.disk, FlushEffect(s.disk, s.cache, build).writes, 1), restarts);
  }

  /** The same for an upload and the file it brings. */
  lemma UploadCrashAtTheGate(s: Server, source: Option<IndexFile>, version: Option<int>, checksum: Option<Checksum>,
      restarts: seq<nat>)
    requires IndexTracked(s.disk, s.exported) && GateOpen(s)
    requires UploadEffect(s.disk, s.cache, source, version, checksum).ok
    ensures var r := Step(s, Event(Upload(source, version, checksum), Some(Crash(1, restarts))));
            && GateOpen(r) && r.exported == s.exported && r.disk.live == s.disk.live
            && (ExportHolds(r) <==> source == s.disk.index)
  {
    RebuildTrackedIff(s.disk, UploadEffect(s.disk, s.cache, source, version, checksum), s.exported, 1);
    RecoverNothing(After(s.disk, UploadEffect(s.disk, s.cache, source, version, checksum).writes, 1), restarts);
  }

  /** A stop at an import's marker over a .pre-import file: one whole recovery makes that file the
      index, and the gate stays open; the export holds it exactly when it was the index already. */
  lemma MarkerCrashAtTheGate(s: Server, b: BundleFile)
    requires IndexTracked(s.disk, s.exported) && GateOpen(s) && Accepts(s.disk, b) && s.disk.preImport.Some?
    ensures var r := Step(s, Event(Import(b), Some(Crash(6, []))));
            && GateOpen(r) && r.exported == s.exported && r.disk.live == s.disk.live
            && (ExportHolds(r) <==> s.disk.preImport == s.disk.index)
  {
    hide ImportWrites, Load, Readable, After, RecoverWrites;
    ImportEffectWrites(s.disk, s.cache, b);
    CrashAtMarker(s.disk, b);
    StaleRollBack(s.disk, b, After(s.disk, ImportWrites(s.disk, b), 6), 0);
  }

  /** Without the restart, an import stopped between its table swap and its metadata write keeps the
      old export valid: the gate then lets a purge delete the imported rows, which the old export
      holds exactly when they are the rows it was taken from. */
  lemma UnrecoveredSwitchAtTheGate(s: Server, b: BundleFile)
    requires IndexTracked(s.disk, s.exported) && PurgeEffect(s.disk, s.cache, true).ok
    requires Accepts(s.disk, b) && s.disk.index.Some?
    ensures var c := After(s.disk, ImportWrites(s.disk, b), 9);
            && NeedsRecovery(c) && PurgeEffect(c, s.cache, true).ok
            && (s.exported.value.rows == FromRows(Rows(c)) <==> Load(b.rows) == Some(Rows(s.disk)))
  {
    var t := Load(b.rows).value;
    assert ImportWrites(s.disk, b)[8] == CommitWrites(s.disk, s.disk.meta.value, b, t)[3];
    if FromRows(t) == FromRows(Rows(s.disk)) { FromRowsInjective(t, Rows(s.disk)); }
  }

  lemma FromRowsInjective(t: Table, u: Table)
    requires FromRows(t) == FromRows(u)
    ensures t == u
  {
    assert |FromRows(t)| == |FromRows(u)|;
    forall i | 0 <= i < |t| ensures t[i] == u[i] {
      assert FromRow(t[i]) == FromRows(t)[i] == FromRows(u)[i] == FromRow(u[i]);
    }
  }
}
