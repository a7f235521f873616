/**
 The data version over whole runs: it never goes back while the collection exists, and it moves
 whenever the rows change, at every crash point but one.
 */
module VersionProtocol {
  import opened Tables
  import opened Bundles
  import opened Collection
  import opened ImportRecovery
  import opened PurgeSafety

  /** From d to c the collection stays, its versions do not go back, and different rows have a greater
      data version. */
  ghost predicate Forward(d: Disk, c: Disk) {
    d.meta.Some? ==>
      && c.meta.Some?
      && c.meta.value.dataVersion >= d.meta.value.dataVersion
      && c.meta.value.version >= d.meta.value.version
      && (Rows(c) != Rows(d) ==> c.meta.value.dataVersion > d.meta.value.dataVersion)
  }

  /** The two ways out: a drop that removes the metadata, and a purge that stops after dropping a table
      with rows and before writing its metadata. */
  ghost predicate Breaks(s: Server, e: Event) {
    && s.disk.meta.Some?
    && (|| (e.op.Drop? && (e.crash.Some? ==> e.crash.value.stop > 0))
        || (e.op.Purge? && EffectOf(s, e.op).ok && e.crash.Some? && e.crash.value.stop == 5 && Rows(s.disk) != []))
  }

  /** What a crashed import can look like to the versions, before or during recovery. */
  ghost predicate MidSwitch(d: Disk, b: BundleFile, c: Disk) {
    || (!NeedsRecovery(c) && c.meta.Some? && Forward(d, c))
    || (Marked(d, b, c) && c.live == d.live)
    || NewRows(d, b, c)
  }

  lemma RecoveryMovesForward(d: Disk, b: BundleFile, c: Disk, stop: nat)
    requires Quiescent(d) && Accepts(d, b) && MidSwitch(d, b, c)
    ensures MidSwitch(d, b, After(c, RecoverWrites(c), stop))
    ensures Forward(d, Recover(c)) && Recover(c).meta.Some?
  {
    hide Recover, RecoverWrites, After, Marked, NewRows, Accepts, Forward;
    if !NeedsRecovery(c) && c.meta.Some? && Forward(d, c) {
      QuietRecovery(c, stop);
    } else if Marked(d, b, c) && c.live == d.live {
      OldRowsForward(d, b, c, stop);
    } else {
      NewRowsForward(d, b, c, stop);
    }
  }

  lemma OldRowsForward(d: Disk, b: BundleFile, c: Disk, stop: nat)
    requires Quiescent(d) && Accepts(d, b) && Marked(d, b, c) && c.live == d.live
    ensures MidSwitch(d, b, After(c, RecoverWrites(c), stop)) && Forward(d, Recover(c)) && Recover(c).meta.Some?
  {
    assert RolledBack(MarkedMeta(d.meta.value, b)) == d.meta.value;
  }

  lemma NewRowsForward(d: Disk, b: BundleFile, c: Disk, stop: nat)
    requires Quiescent(d) && Accepts(d, b) && NewRows(d, b, c)
    ensures MidSwitch(d, b, After(c, RecoverWrites(c), stop)) && Forward(d, Recover(c)) && Recover(c).meta.Some?
  {
    LoadedCount(b);
  }

  lemma {:induction false} RecoveryEndsForward(d: Disk, b: BundleFile, c: Disk, restarts: seq<nat>)
    requires Quiescent(d) && Accepts(d, b) && MidSwitch(d, b, c)
    ensures Forward(d, RecoverWithCrashes(c, restarts))
    decreases |restarts|
  {
    RecoveryMovesForward(d, b, c, if restarts == [] then 0 else restarts[0]);
    if restarts != [] {
      RecoveryEndsForward(d, b, After(c, RecoverWrites(c), restarts[0]), restarts[1..]);
    }
  }

  lemma ImportForward(s: Server, e: Event)
    requires e.op.Import? && RowsCovered(s.disk, s.exported)
    ensures Forward(s.disk, Step(s, e).disk)
  {
    var b := e.op.bundle;
    var f := EffectOf(s, e.op);
    var stop := if e.crash.None? then |f.writes| else e.crash.value.stop;
    var c := After(s.disk, f.writes, stop);
    if Accepts(s.disk, b) {
      assert f.writes == ImportWrites(s.disk, b);
      ImportOutcome(s.disk, b);
      CrashStates(s.disk, b, stop);
      if e.crash.Some? { RecoveryEndsForward(s.disk, b, c, e.crash.value.restarts); }
    } else {
      RejectedImportTouchesNothing(s.disk, s.cache, b, stop);
      if e.crash.Some? { RecoverNothing(c, e.crash.value.restarts); }
    }
  }

  lemma InsertForward(d: Disk, cache: Option<IndexFile>, data: seq<NewRow>, stop: nat)
    ensures Forward(d, After(d, InsertEffect(d, cache, data).writes, stop))
  {
    hide InsertEffect, After, InsertedTable, CheckVectors;
    InsertStates(d, cache, data, stop);
  }

  lemma OtherForward(s: Server, op: Op, stop: nat)
    requires !op.Import? && !op.Insert? && !op.Drop? && !op.Purge?
    ensures Forward(s.disk, After(s.disk, EffectOf(s, op).writes, stop))
  {
  }

  lemma PurgeForward(d: Disk, cache: Option<IndexFile>, requireExported: bool, stop: nat)
    ensures var f := PurgeEffect(d, cache, requireExported);
            Forward(d, After(d, f.writes, stop)) <==> !(d.meta.Some? && f.ok && stop == 5 && Rows(d) != [])
  {
  }

  lemma DropForward(d: Disk, stop: nat)
    ensures Forward(d, After(d, DropEffect(d).writes, stop)) <==> d.meta.None? || stop == 0
  {
  }

  /** Exactly then: one call, finished or cut short and recovered, moves forward unless it breaks. */
  lemma StepForwardIff(s: Server, e: Event)
    requires RowsCovered(s.disk, s.exported)
    ensures Forward(s.disk, Step(s, e).disk) <==> !Breaks(s, e)
  {
    hide Forward, After, RowsCovered, RecoverWithCrashes;
    if e.op.Import? {
      ImportForward(s, e);
    } else {
      var f := EffectOf(s, e.op);
      var stop := if e.crash.None? then |f.writes| else e.crash.value.stop;
      if e.op.Insert? {
        InsertForward(s.disk, s.cache, e.op.data, stop);
      } else if e.op.Purge? {
        PurgeForward(s.disk, s.cache, e.op.requireExported, stop);
      } else if e.op.Drop? {
        DropForward(s.disk, stop);
      } else {
        OtherForward(s, e.op, stop);
      }
      if e.crash.Some? {
        QuietAfter(s, e.op, stop);
        RecoverNothing(After(s.disk, f.writes, stop), e.crash.value.restarts);
      }
    }
  }

  lemma QuietAfter(s: Server, op: Op, stop: nat)
    requires !op.Import? && RowsCovered(s.disk, s.exported)
    ensures !NeedsRecovery(After(s.disk, EffectOf(s, op).writes, stop))
  {
    hide EffectOf, After;
    WritesCovered(s, op, stop);
  }

  lemma ForwardSame(d: Disk)
    ensures Forward(d, d)
  {
  }

  lemma ForwardTwice(a: Disk, b: Disk, c: Disk)
    requires Forward(a, b) && Forward(b, c)
    ensures Forward(a, c)
  {
  }

  lemma RunForward(events: seq<Event>, e: Event)
    requires !Breaks(Run(events), e)
    ensures Forward(Run(events).disk, Run(events + [e]).disk)
  {
    hide Forward, Step, RowsCovered, Breaks;
    assert (events + [e])[..|events + [e]| - 1] == events;
    RunCovered(events);
    StepForwardIff(Run(events), e);
  }

  /** MAIN: between any two points of a run, however many crashes lie between them, the data version
      does not go back, and if it is the same, so are the rows, unless a call in between breaks. */
  lemma {:induction false} SameVersionSameRows(events: seq<Event>, more: seq<Event>)
    requires forall i :: 0 <= i < |more| ==> !Breaks(Run(events + more[..i]), more[i])
    ensures Forward(Run(events).disk, Run(events + more).disk)
    decreases |more|
  {
    hide Forward, Step, Run, After, Breaks;
    if more == [] {
      ForwardSame(Run(events).disk);
      assert events + more == events;
    } else {
      var front, last := more[..|more| - 1], more[|more| - 1];
      forall i | 0 <= i < |front| ensures !Breaks(Run(events + front[..i]), front[i]) {
        assert front[..i] == more[..i];
      }
      SameVersionSameRows(events, front);
      RunForward(events + front, last);
      assert events + front + [last] == events + more;
      ForwardTwice(Run(events).disk, Run(events + front).disk, Run(events + more).disk);
    }
  }
}
