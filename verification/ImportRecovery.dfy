/**
 Import against a process that stops: when it is atomic, and when interrupted recovery still converges.
 Both are stated as exact conditions on the state the import starts from.
 */
module ImportRecovery {
  import opened Tables
  import opened Bundles
  import opened Collection

  /** What a client can observe: index bytes, rows, and every metadata field. */
  datatype Core = Core(index: Option<IndexFile>, live: Option<Table>, meta: Option<Meta>)

  function CoreOf(d: Disk): Core {
    Core(d.index, d.live, d.meta)
  }

  ghost function ImportWrites(d: Disk, b: BundleFile): seq<Disk> {
    ImportEffect(d, None, b).writes
  }

  ghost function Imported(d: Disk, b: BundleFile): Disk {
    Done(d, ImportWrites(d, b))
  }

  ghost predicate Quiescent(d: Disk) {
    d.meta.Some? && !NeedsRecovery(d)
  }

  /** The process stops after `stop` writes of the import, then one complete recovery. */
  ghost function CrashAndRecover(d: Disk, b: BundleFile, stop: nat): Disk {
    Recover(After(d, ImportWrites(d, b), stop))
  }

  ghost predicate AllOrNothing(d: Disk, b: BundleFile, c: Disk) {
    CoreOf(c) == CoreOf(d) || CoreOf(c) == CoreOf(Imported(d, b))
  }

  /** The state an import needs: a live index, and no left-over .pre-import file that differs from it. */
  predicate SafeStart(d: Disk) {
    d.index.Some? && (d.preImport.None? || d.preImport == d.index)
  }

  /** A finished import shows exactly the bundle, one data version on, with a fresh index. */
  lemma ImportOutcome(d: Disk, b: BundleFile)
    requires Accepts(d, b)
    ensures var e := Imported(d, b);
            && e.index == Some(b.index) && e.live == Load(b.rows) && e.preImport.None? && e.staging.None?
            && e.stagingIndex.None? && e.meta == Some(ImportedMeta(d.meta.value, b))
  {
  }

  // -------------------------------------------------------------------------
  // Where a crash can leave the collection
  // -------------------------------------------------------------------------

  ghost predicate Untouched(d: Disk, c: Disk) {
    CoreOf(c) == CoreOf(d) && c.preImport == d.preImport
  }

  ghost predicate Marked(d: Disk, b: BundleFile, c: Disk) {
    d.meta.Some? && c.meta == Some(MarkedMeta(d.meta.value, b))
  }

  /** Marked, live rows still the old ones. */
  ghost predicate OldRows(d: Disk, b: BundleFile, c: Disk) {
    && Marked(d, b, c)
    && c.live == d.live
    && (|| (c.index == d.index && (c.preImport == d.preImport || c.preImport.None?))
        || (d.index.Some? && c.preImport == d.index)
        || (d.index.None? && c.index == Some(b.index) && c.preImport == d.preImport))
  }

  /** Marked, both swaps done. */
  ghost predicate NewRows(d: Disk, b: BundleFile, c: Disk) {
    && Marked(d, b, c)
    && c.index == Some(b.index)
    && c.live == Load(b.rows) && c.live.Some?
    && c.staging.None?
  }

  ghost predicate Finished(d: Disk, b: BundleFile, c: Disk) {
    CoreOf(c) == CoreOf(Imported(d, b))
  }

  lemma CrashStates(d: Disk, b: BundleFile, stop: nat)
    requires Accepts(d, b)
    ensures var c := After(d, ImportWrites(d, b), stop);
            || Untouched(d, c)
            || (OldRows(d, b, c) && c.staging.Some?)
            || NewRows(d, b, c)
            || Finished(d, b, c)
  {
    ImportOutcome(d, b);
    var m := d.meta.value;
    var t := Load(b.rows).value;
    var prepared := PrepareWrites(d, b, t);
    var commit := CommitWrites(d, m, b, t);
    assert ImportWrites(d, b) == prepared + commit;
    if stop == 0 {
    } else if stop <= 5 {
      assert After(d, ImportWrites(d, b), stop) == prepared[stop - 1];
    } else {
      var at := if stop - 6 < |commit| then stop - 6 else |commit| - 1;
      assert After(d, ImportWrites(d, b), stop) == commit[at];
    }
  }

  lemma LoadedCount(b: BundleFile)
    requires Load(b.rows).Some?
    ensures |Load(b.rows).value| == |b.rows|
  {
    InsertAllSound([], ToRows(b.rows));
  }

  lemma RecoverNewRows(d: Disk, b: BundleFile, c: Disk)
    requires Accepts(d, b) && NewRows(d, b, c)
    ensures Finished(d, b, Recover(c))
  {
    LoadedCount(b);
    ImportOutcome(d, b);
  }

  /** Recovery that sees the old rows, and is not misled about the row count, restores them. */
  lemma RecoverOldRows(d: Disk, b: BundleFile, c: Disk)
    requires Quiescent(d) && SafeStart(d) && OldRows(d, b, c)
    requires c.staging.Some? || Count(d) != |b.rows|
    ensures CoreOf(Recover(c)) == CoreOf(d)
  {
    assert RolledBack(MarkedMeta(d.meta.value, b)) == d.meta.value;
  }

  // -------------------------------------------------------------------------
  // Atomicity
  // -------------------------------------------------------------------------

  lemma AtomicFromSafeStart(d: Disk, b: BundleFile, stop: nat)
    requires Quiescent(d) && Accepts(d, b) && SafeStart(d)
    ensures AllOrNothing(d, b, CrashAndRecover(d, b, stop))
  {
    CrashStates(d, b, stop);
    ImportOutcome(d, b);
    var c := After(d, ImportWrites(d, b), stop);
    if Untouched(d, c) {
    } else if OldRows(d, b, c) && c.staging.Some? {
      RecoverOldRows(d, b, c);
    } else if NewRows(d, b, c) {
      RecoverNewRows(d, b, c);
    }
  }

  /** Stopping right after the commit-intent marker. */
  lemma CrashAtMarker(d: Disk, b: BundleFile)
    requires Quiescent(d) && Accepts(d, b)
    ensures var c := After(d, ImportWrites(d, b), 6);
            && c == d.(stagingIndex := Some(b.index), staging := Load(b.rows),
                meta := Some(MarkedMeta(d.meta.value, b)))
    ensures var r := CrashAndRecover(d, b, 6);
            && r.index == (if d.preImport.Some? then d.preImport else d.index)
            && r.live == d.live
            && r.meta.Some? && r.meta.value.dataVersion == d.meta.value.dataVersion
            && (r.index.None? ==> r.meta.value.dataState == Invalid)
  {
    var t := Load(b.rows).value;
    assert ImportWrites(d, b)[5] == CommitWrites(d, d.meta.value, b, t)[0];
  }

  /** Without an index to set aside, stopping after the index swap keeps the new index. */
  lemma CrashAfterSwapWithoutIndex(d: Disk, b: BundleFile)
    requires Quiescent(d) && Accepts(d, b) && d.index.None? && d.preImport.None?
    ensures var c := After(d, ImportWrites(d, b), 7);
            c == d.(index := Some(b.index), stagingIndex := None, staging := Load(b.rows),
                meta := Some(MarkedMeta(d.meta.value, b)))
    ensures var r := CrashAndRecover(d, b, 7);
            r.index == Some(b.index) && r.live == d.live && r.meta == d.meta
  {
    var m := d.meta.value;
    var t := Load(b.rows).value;
    assert ImportWrites(d, b)[6] == CommitWrites(d, m, b, t)[1];
    assert RolledBack(MarkedMeta(m, b)) == m;
  }

  lemma NotAtomicOtherwise(d: Disk, b: BundleFile)
    requires Quiescent(d) && Accepts(d, b) && !SafeStart(d)
    ensures !AllOrNothing(d, b, CrashAndRecover(d, b, if d.index.None? && d.preImport.None? then 7 else 6))
  {
    ImportOutcome(d, b);
    CrashAtMarker(d, b);
    if d.index.None? && d.preImport.None? {
      CrashAfterSwapWithoutIndex(d, b);
    }
  }

  /** MAIN: an import stopped after any of its writes is all-or-nothing, including every
      metadata field, exactly when it starts from a live index without a differing .pre-import file. */
  lemma ImportAtomicIff(d: Disk, b: BundleFile)
    requires Quiescent(d) && Accepts(d, b)
    ensures (forall stop: nat :: AllOrNothing(d, b, CrashAndRecover(d, b, stop))) <==> SafeStart(d)
  {
    if SafeStart(d) {
      forall stop: nat ensures AllOrNothing(d, b, CrashAndRecover(d, b, stop)) {
        AtomicFromSafeStart(d, b, stop);
      }
    } else {
      NotAtomicOtherwise(d, b);
    }
  }

  // -------------------------------------------------------------------------
  // Interrupted recovery
  // -------------------------------------------------------------------------

  /** Any state a chain of crashes can reach on the way to the outcome `goal`. */
  ghost predicate OnTheWay(d: Disk, b: BundleFile, c: Disk, goal: Core) {
    || (Quiescent(c) && CoreOf(c) == goal)
    || (NewRows(d, b, c) && goal == CoreOf(Imported(d, b)))
    || (Marked(d, b, c) && c.live == d.live && goal == CoreOf(Recover(c)))
  }

  /** With the old rows live, every write of a recovery leaves the rest of that recovery to do. */
  lemma RollBackResumes(d: Disk, b: BundleFile, c: Disk, stop: nat)
    requires Quiescent(d) && Count(d) != |b.rows| && Marked(d, b, c) && c.live == d.live
    ensures OnTheWay(d, b, After(c, RecoverWrites(c), stop), CoreOf(Recover(c)))
  {
    assert RolledBack(MarkedMeta(d.meta.value, b)) == d.meta.value;
  }

  lemma RecoveryStaysOnTheWay(d: Disk, b: BundleFile, c: Disk, stop: nat, goal: Core)
    requires Quiescent(d) && Accepts(d, b) && Count(d) != |b.rows|
    requires OnTheWay(d, b, c, goal)
    ensures OnTheWay(d, b, After(c, RecoverWrites(c), stop), goal)
    ensures CoreOf(Recover(c)) == goal
  {
    if Marked(d, b, c) && c.live == d.live && goal == CoreOf(Recover(c)) {
      RollBackResumes(d, b, c, stop);
    } else if NewRows(d, b, c) && goal == CoreOf(Imported(d, b)) {
      RecoverNewRows(d, b, c);
      LoadedCount(b);
      ImportOutcome(d, b);
    }
  }

  lemma {:induction false} ConvergesFrom(d: Disk, b: BundleFile, c: Disk, stops: seq<nat>, goal: Core)
    requires Quiescent(d) && Accepts(d, b) && Count(d) != |b.rows|
    requires OnTheWay(d, b, c, goal)
    ensures CoreOf(RecoverWithCrashes(c, stops)) == goal
    decreases |stops|
  {
    RecoveryStaysOnTheWay(d, b, c, if stops == [] then 0 else stops[0], goal);
    if stops != [] {
      ConvergesFrom(d, b, After(c, RecoverWrites(c), stops[0]), stops[1..], goal);
    }
  }

  lemma CrashIsOnTheWay(d: Disk, b: BundleFile, stop: nat)
    requires Quiescent(d) && Accepts(d, b)
    ensures OnTheWay(d, b, After(d, ImportWrites(d, b), stop), CoreOf(CrashAndRecover(d, b, stop)))
  {
    var c := After(d, ImportWrites(d, b), stop);
    CrashStates(d, b, stop);
    ImportOutcome(d, b);
    if NewRows(d, b, c) {
      RecoverNewRows(d, b, c);
    }
  }

  /** After which write of the import, and after which write of the first recovery, equal row counts
      mislead the second one: as soon as an index is in place and the staging table is gone. */
  function MisledAfter(d: Disk): (nat, nat) {
    if d.index.Some? then (6, 1)
    else if d.preImport.Some? then (6, 3)
    else (7, 1)
  }

  /** Equal row counts: a recovery cut short after dropping the staging table makes the next one take
      the unfinished switch for a finished one, and announce a new data version over the old rows. */
  lemma EqualCountsMislead(d: Disk, b: BundleFile)
    requires Quiescent(d) && Accepts(d, b) && Count(d) == |b.rows|
    ensures var (stop, k) := MisledAfter(d);
            var c := After(d, ImportWrites(d, b), stop);
            var once := Recover(c);
            var twice := RecoverWithCrashes(c, [k]);
            && once.live == twice.live == d.live
            && once.meta == d.meta
            && twice.meta.Some? && twice.meta.value.dataVersion == d.meta.value.dataVersion + 1
            && twice.meta.value.dataState == Ready
  {
    hide ImportWrites, Load;
    var (stop, k) := MisledAfter(d);
    if stop == 6 { CrashAtMarker(d, b); } else { CrashAfterSwapWithoutIndex(d, b); }
    var c := After(d, ImportWrites(d, b), stop);
    assert RolledBack(MarkedMeta(d.meta.value, b)) == d.meta.value;
    var c1 := After(c, RecoverWrites(c), k);
    assert c1.staging.None? && c1.index.Some? && c1.live == d.live && c1.meta == c.meta;
    assert [k][1..] == [];
    assert RecoverWithCrashes(c, [k]) == Recover(c1);
  }

  /** MAIN: however often recovery is itself cut short, it reaches the outcome of an uninterrupted
      recovery, for every crash point of the import, exactly when the row counts differ. */
  lemma RecoveryConvergesIff(d: Disk, b: BundleFile)
    requires Quiescent(d) && Accepts(d, b)
    ensures (forall stop: nat, stops: seq<nat> ::
               CoreOf(RecoverWithCrashes(After(d, ImportWrites(d, b), stop), stops)) == CoreOf(CrashAndRecover(d, b,
                   stop)))
            <==> Count(d) != |b.rows|
  {
    if Count(d) != |b.rows| {
      forall stop: nat, stops: seq<nat>
        ensures CoreOf(RecoverWithCrashes(After(d, ImportWrites(d, b), stop), stops))
                == CoreOf(CrashAndRecover(d, b, stop))
      {
        CrashIsOnTheWay(d, b, stop);
        ConvergesFrom(d, b, After(d, ImportWrites(d, b), stop), stops, CoreOf(CrashAndRecover(d, b, stop)));
      }
    } else {
      EqualCountsMislead(d, b);
      var (stop, k) := MisledAfter(d);
      var c := After(d, ImportWrites(d, b), stop);
      assert CoreOf(RecoverWithCrashes(c, [k])) != CoreOf(CrashAndRecover(d, b, stop));
    }
  }

  /** Stopping just before the last clean-up of an import. */
  lemma BeforeLastCleanUp(d: Disk, b: BundleFile)
    requires Quiescent(d) && Accepts(d, b) && SafeStart(d)
    ensures var r := CrashAndRecover(d, b, 10);
            CoreOf(r) == CoreOf(Imported(d, b)) && Quiescent(r) && r.preImport == d.index
  {
    ImportOutcome(d, b);
    assert ImportWrites(d, b)[9] == CommitWrites(d, d.meta.value, b, Load(b.rows).value)[4];
  }

  /** The left-over file arises by itself: stopping just before an import's last clean-up
      leaves the finished import in place, and the next import no longer starts safely when the
      bundle's index differs from the one it replaced. */
  lemma FinishedImportMayLeavePreImport(d: Disk, b: BundleFile)
    requires Quiescent(d) && Accepts(d, b) && SafeStart(d) && d.index != Some(b.index)
    ensures var r := CrashAndRecover(d, b, 10);
            CoreOf(r) == CoreOf(Imported(d, b)) && Quiescent(r) && r.preImport == d.index && !SafeStart(r)
  {
    BeforeLastCleanUp(d, b);
    ImportOutcome(d, b);
  }

  // -------------------------------------------------------------------------
  // The next import
  // -------------------------------------------------------------------------

  /** Recovery that finds an unfinished import leaves none of its files and tables behind. */
  lemma RecoveryCleansUp(c: Disk)
    requires NeedsRecovery(c)
    ensures Recover(c).staging.None? && Recover(c).stagingIndex.None? && Recover(c).preImport.None?
  {
  }

  lemma {:induction false} SafeAgain(d: Disk, b: BundleFile, stop: nat)
    requires Quiescent(d) && Accepts(d, b) && SafeStart(d) && stop != 10
    ensures Quiescent(CrashAndRecover(d, b, stop)) && SafeStart(CrashAndRecover(d, b, stop))
  {
    hide ImportWrites, Load;
    CrashStates(d, b, stop);
    ImportOutcome(d, b);
    var c := After(d, ImportWrites(d, b), stop);
    if 6 <= stop < 10 {
      StillMarked(d, b, stop);
      RecoveryCleansUp(c);
      if OldRows(d, b, c) && c.staging.Some? {
        RecoverOldRows(d, b, c);
      } else {
        RecoverNewRows(d, b, c);
      }
    } else {
      NoCleanUpLeft(d, b, stop);
    }
  }

  /** From the marker to the metadata write the import is marked unfinished. */
  lemma StillMarked(d: Disk, b: BundleFile, stop: nat)
    requires Quiescent(d) && Accepts(d, b) && d.index.Some? && 6 <= stop < 10
    ensures NeedsRecovery(After(d, ImportWrites(d, b), stop))
  {
    var commit := CommitWrites(d, d.meta.value, b, Load(b.rows).value);
    assert ImportWrites(d, b)[stop - 1] == commit[stop - 6];
  }

  /** Before the marker and after the last clean-up there is nothing to recover. */
  lemma NoCleanUpLeft(d: Disk, b: BundleFile, stop: nat)
    requires Quiescent(d) && Accepts(d, b) && d.index.Some? && (stop < 6 || stop > 10)
    ensures var c := After(d, ImportWrites(d, b), stop);
            Untouched(d, c) || (c == Imported(d, b) && c.preImport.None?)
  {
    var t := Load(b.rows).value;
    var prepared, commit := PrepareWrites(d, b, t), CommitWrites(d, d.meta.value, b, t);
    var writes := ImportWrites(d, b);
    assert writes == prepared + commit && |writes| == 11;
    if stop > 10 {
      assert writes[10] == commit[5];
    } else if stop > 0 {
      assert writes[stop - 1] == prepared[stop - 1];
    }
  }

  /** MAIN: an import that starts safely and is cut short and recovered leaves a safe start for the
      next one, except just before its last clean-up when it brought another index. */
  lemma {:induction false} NextImportSafeIff(d: Disk, b: BundleFile, stop: nat)
    requires Quiescent(d) && Accepts(d, b) && SafeStart(d)
    ensures Quiescent(CrashAndRecover(d, b, stop))
    ensures SafeStart(CrashAndRecover(d, b, stop)) <==> stop != 10 || d.index == Some(b.index)
  {
    if stop != 10 {
      SafeAgain(d, b, stop);
    } else {
      BeforeLastCleanUp(d, b);
    }
  }

  datatype Attempt = Attempt(bundle: BundleFile, stop: nat)

  /** Imports one after the other, each cut short and recovered. */
  ghost function Attempts(d: Disk, attempts: seq<Attempt>): Disk {
    if attempts == [] then d
    else
      var last := attempts[|attempts| - 1];
      CrashAndRecover(Attempts(d, attempts[..|attempts| - 1]), last.bundle, last.stop)
  }

  /** A bundle that is turned away changes nothing a client sees, and no .pre-import file. */
  lemma RejectedCrash(d: Disk, b: BundleFile, stop: nat)
    requires Quiescent(d) && !Accepts(d, b)
    ensures Untouched(d, CrashAndRecover(d, b, stop))
  {
  }

  /** MAIN: over any sequence of imports, accepted or not, each cut short anywhere but just before its
      last clean-up, every single one is all-or-nothing. */
  lemma {:induction false} EveryImportAtomic(d: Disk, attempts: seq<Attempt>, next: Attempt)
    requires Quiescent(d) && SafeStart(d) && forall i :: 0 <= i < |attempts| ==> attempts[i].stop != 10
    ensures var before := Attempts(d, attempts);
            && Quiescent(before) && SafeStart(before)
            && CoreOf(Attempts(d, attempts + [next])) in
                 if Accepts(before, next.bundle) then {CoreOf(before), CoreOf(Imported(before, next.bundle))}
                 else {CoreOf(before)}
  {
    hide CrashAndRecover, Accepts, SafeStart, Imported;
    SafeAttempts(d, attempts);
    var before := Attempts(d, attempts);
    assert (attempts + [next])[..|attempts + [next]| - 1] == attempts;
    if Accepts(before, next.bundle) {
      AtomicFromSafeStart(before, next.bundle, next.stop);
    } else {
      RejectedCrash(before, next.bundle, next.stop);
    }
  }

  lemma {:induction false} SafeAttempts(d: Disk, attempts: seq<Attempt>)
    requires Quiescent(d) && SafeStart(d) && forall i :: 0 <= i < |attempts| ==> attempts[i].stop != 10
    ensures Quiescent(Attempts(d, attempts)) && SafeStart(Attempts(d, attempts))
  {
    hide CrashAndRecover, Accepts;
    if attempts != [] {
      var front, last := attempts[..|attempts| - 1], attempts[|attempts| - 1];
      SafeAttempts(d, front);
      var before := Attempts(d, front);
      if Accepts(before, last.bundle) {
        NextImportSafeIff(before, last.bundle, last.stop);
      } else {
        RejectedCrash(before, last.bundle, last.stop);
      }
    }
  }
}
