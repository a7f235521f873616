/**
 Imports one after the other: exactly when an import that was cut short, with restarts cut short in
 turn, leaves the next one a safe start.
 */
module ImportChains {
  import opened Tables
  import opened Bundles
  import opened Collection
  import opened ImportRecovery
  import opened PurgeSafety

  /** The first restart that writes anything stops after a roll-forward's metadata, before its clean-up. */
  predicate CutBeforeCleanUp(restarts: seq<nat>)
    decreases |restarts|
  {
    restarts != [] && if restarts[0] == 0 then CutBeforeCleanUp(restarts[1..]) else restarts[0] < 3
  }

  /** The first restart that writes anything only drops what was staged, and a later one, misled, stops
      before its clean-up. */
  predicate MisledAndCut(restarts: seq<nat>)
    decreases |restarts|
  {
    restarts != [] &&
      if restarts[0] == 0 then MisledAndCut(restarts[1..]) else restarts[0] < 3 && CutBeforeCleanUp(restarts[1..])
  }

  /** Both the old index and the bundle's are left, and no recovery will touch them again. */
  predicate LeavesBehind(d: Disk, b: BundleFile, stop: nat, restarts: seq<nat>) {
    d.index != Some(b.index) &&
    (|| stop == 10
     || (stop == 9 && CutBeforeCleanUp(restarts))
     || (stop == 8 && Count(d) == |b.rows| && MisledAndCut(restarts)))
  }

  lemma RecoveryKeepsSafe(c: Disk, stop: nat)
    requires SafeStart(c)
    ensures SafeStart(After(c, RecoverWrites(c), stop)) && SafeStart(Recover(c))
  {
  }

  lemma {:induction false} SafeStays(c: Disk, restarts: seq<nat>)
    requires SafeStart(c)
    ensures SafeStart(RecoverWithCrashes(c, restarts))
    decreases |restarts|
  {
    hide After, Recover, RecoverWrites, SafeStart;
    RecoveryKeepsSafe(c, if restarts == [] then 0 else restarts[0]);
    if restarts != [] { SafeStays(After(c, RecoverWrites(c), restarts[0]), restarts[1..]); }
  }

  // ---- rolling forward ------------------------------------------------------

  lemma ForwardOnce(d: Disk, b: BundleFile, c: Disk, stop: nat)
    requires d.meta.Some? && LooksSwitched(d, b, c)
    ensures var c1 := After(c, RecoverWrites(c), stop);
            && c1.index == c.index
            && (stop == 0 ==> c1 == c)
            && (stop > 0 ==> !NeedsRecovery(c1) && c1.preImport == if stop < 3 then c.preImport else None)
    ensures !NeedsRecovery(Recover(c)) && Recover(c).index == c.index && Recover(c).preImport.None?
  {
  }

  lemma {:induction false} ForwardChain(d: Disk, b: BundleFile, c: Disk, restarts: seq<nat>)
    requires d.meta.Some? && LooksSwitched(d, b, c)
    ensures var r := RecoverWithCrashes(c, restarts);
            r.index == c.index && r.preImport == if CutBeforeCleanUp(restarts) then c.preImport else None
    decreases |restarts|
  {
    hide After, Recover, RecoverWrites, LooksSwitched;
    ForwardOnce(d, b, c, if restarts == [] then 0 else restarts[0]);
    if restarts != [] {
      var c1 := After(c, RecoverWrites(c), restarts[0]);
      if restarts[0] == 0 {
        ForwardChain(d, b, c, restarts[1..]);
      } else {
        RecoverNothing(c1, restarts[1..]);
      }
    }
  }

  // ---- rolling back ---------------------------------------------------------

  /** The old index lies aside, and recovery will not take the switch for finished. */
  ghost predicate Aside(d: Disk, b: BundleFile, c: Disk) {
    && Marked(d, b, c) && d.index.Some? && c.preImport == d.index
    && (c.staging.Some? || c.index.None? || Count(c) != |b.rows|)
  }

  lemma BackOnce(d: Disk, b: BundleFile, c: Disk, stop: nat)
    requires Aside(d, b, c)
    ensures var c1 := After(c, RecoverWrites(c), stop);
            && (stop == 0 ==> c1 == c)
            && (stop >= 3 ==> SafeStart(c1))
            && (0 < stop < 3 ==> Marked(d, b, c1) && c1.preImport == d.index && c1.staging.None? && c1.index == c.index
                                 && c1.live == c.live)
    ensures SafeStart(Recover(c))
  {
  }

  lemma {:induction false} BackChain(d: Disk, b: BundleFile, c: Disk, restarts: seq<nat>)
    requires Aside(d, b, c)
    ensures var r := RecoverWithCrashes(c, restarts);
            if c.staging.Some? && c.index.Some? && Count(c) == |b.rows| && MisledAndCut(restarts)
            then r.index == c.index && r.preImport == d.index
            else SafeStart(r)
    decreases |restarts|
  {
    hide After, Recover, RecoverWrites, Marked, SafeStart;
    BackOnce(d, b, c, if restarts == [] then 0 else restarts[0]);
    if restarts != [] {
      var c1, rest := After(c, RecoverWrites(c), restarts[0]), restarts[1..];
      if restarts[0] == 0 {
        BackChain(d, b, c, rest);
      } else if restarts[0] >= 3 {
        SafeStays(c1, rest);
      } else if c1.index.None? || Count(c1) != |b.rows| {
        BackChain(d, b, c1, rest);
      } else {
        MarkedMeans(d, b, c1);
        ForwardChain(d, b, c1, rest);
        if !CutBeforeCleanUp(rest) { NoFileIsSafe(RecoverWithCrashes(c1, rest)); }
      }
    }
  }

  lemma MarkedMeans(d: Disk, b: BundleFile, c: Disk)
    requires Marked(d, b, c) && c.staging.None? && c.index.Some? && Count(c) == |b.rows|
    ensures d.meta.Some? && LooksSwitched(d, b, c)
  {
  }

  lemma NoFileIsSafe(c: Disk)
    requires c.index.Some? && c.preImport.None?
    ensures SafeStart(c)
  {
  }

  // ---- every crash point ----------------------------------------------------

  /** The states of an import over a live index, write by write. */
  lemma CrashPoint(d: Disk, b: BundleFile, stop: nat)
    requires Quiescent(d) && Accepts(d, b) && SafeStart(d)
    ensures var c := After(d, ImportWrites(d, b), stop);
            && (stop <= 6 || stop > 10 ==> SafeStart(c))
            && (7 <= stop <= 8 ==> Aside(d, b, c) && c.live == d.live && c.staging.Some?)
            && (stop == 7 ==> c.index.None?)
            && (stop >= 8 ==> c.index == Some(b.index))
            && (stop == 9 ==> LooksSwitched(d, b, c) && c.preImport == d.index)
            && (stop == 10 ==> !NeedsRecovery(c) && c.preImport == d.index)
  {
    LoadedCount(b);
    var t := Load(b.rows).value;
    var prepared, commit := PrepareWrites(d, b, t), CommitWrites(d, d.meta.value, b, t);
    var writes := ImportWrites(d, b);
    assert writes == prepared + commit && |writes| == 11;
    if 0 < stop <= 5 {
      assert writes[stop - 1] == prepared[stop - 1];
    } else if 5 < stop <= 11 {
      assert writes[stop - 1] == commit[stop - 6];
    } else if stop > 11 {
      assert writes[10] == commit[5];
    }
  }

  /** MAIN: an import that starts safely leaves a safe start, wherever it is cut short and however often
      recovery is, except in three cases: it stopped before its own last clean-up; its roll-forward did;
      or, with equal row counts, a roll-back cut short misled the next recovery, which then did. */
  lemma SafeAgainIff(d: Disk, b: BundleFile, stop: nat, restarts: seq<nat>)
    requires Quiescent(d) && Accepts(d, b) && SafeStart(d)
    ensures var r := RecoverWithCrashes(After(d, ImportWrites(d, b), stop), restarts);
            SafeStart(r) <==> !LeavesBehind(d, b, stop, restarts)
  {
    hide ImportWrites, After, Recover, RecoverWrites, Accepts, LooksSwitched, Marked;
    CrashPoint(d, b, stop);
    var c := After(d, ImportWrites(d, b), stop);
    if stop <= 6 || stop > 10 {
      SafeStays(c, restarts);
    } else if stop <= 8 {
      BackChain(d, b, c, restarts);
    } else if stop == 9 {
      ForwardChain(d, b, c, restarts);
    } else {
      RecoverNothing(c, restarts);
    }
  }
}
