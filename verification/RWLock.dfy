/**
 The writer-preferred reader/writer lock as a monitor shared by any set of threads.

 Between two points where a thread holds the condition's mutex the code runs alone, so an
 interleaving is a sequence of critical sections: entering acquire_read or acquire_write, waking
 from wait() and testing the loop condition again, and the two releases. A waiting thread is
 `parked` until notify_all makes it `woken`; only a woken thread can test its condition again.
 */
module RWLocks {

  type Thread = nat

  /** The three fields, and where each thread stands. Of the waiting threads, those in `parked`
      have not been notified since they last tested their condition. */
  datatype Lock = Lock(
    readers: int, writersWaiting: int, writerActive: bool,
    reading: set<Thread>, writing: set<Thread>,
    waitingReaders: set<Thread>, waitingWriters: set<Thread>, parked: set<Thread>)

  const Fresh := Lock(0, 0, false, {}, {}, {}, {}, {})

  datatype Action =
    | AcquireRead(t: Thread)
    | WakeReader(t: Thread)
    | ReleaseRead(t: Thread)
    | AcquireWrite(t: Thread)
    | WakeWriter(t: Thread)
    | ReleaseWrite(t: Thread)

  predicate ReaderBlocked(s: Lock) {
    s.writerActive || s.writersWaiting > 0
  }

  predicate WriterBlocked(s: Lock) {
    s.writerActive || s.readers > 0
  }

  predicate Idle(s: Lock, t: Thread) {
    t !in s.reading && t !in s.writing && t !in s.waitingReaders && t !in s.waitingWriters
  }

  function NotifyAll(s: Lock): Lock {
    s.(parked := {})
  }

  predicate Enabled(s: Lock, a: Action) {
    match a
    case AcquireRead(t) => Idle(s, t)
    case WakeReader(t) => t in s.waitingReaders && t !in s.parked
    case ReleaseRead(t) => t in s.reading
    case AcquireWrite(t) => Idle(s, t)
    case WakeWriter(t) => t in s.waitingWriters && t !in s.parked
    case ReleaseWrite(t) => t in s.writing
  }

  /** The test at the head of acquire_read's loop: park in wait(), or leave the loop and enter. */
  function TestRead(s: Lock, t: Thread): Lock {
    if ReaderBlocked(s) then s.(waitingReaders := s.waitingReaders + {t}, parked := s.parked + {t})
    else s.(readers := s.readers + 1, reading := s.reading + {t}, waitingReaders := s.waitingReaders - {t})
  }

  /** The same for acquire_write, whose thread is already counted as waiting. */
  function TestWrite(s: Lock, t: Thread): Lock {
    if WriterBlocked(s) then s.(parked := s.parked + {t})
    else s.(writerActive := true, writersWaiting := s.writersWaiting - 1,
            writing := s.writing + {t}, waitingWriters := s.waitingWriters - {t})
  }

  function Announce(s: Lock, t: Thread): Lock {
    s.(writersWaiting := s.writersWaiting + 1, waitingWriters := s.waitingWriters + {t})
  }

  function Next(s: Lock, a: Action): Lock {
    match a
    case AcquireRead(t) => TestRead(s, t)
    case WakeReader(t) => TestRead(s, t)
    case ReleaseRead(t) =>
      var s1 := s.(readers := s.readers - 1, reading := s.reading - {t});
      if s1.readers == 0 then NotifyAll(s1) else s1
    case AcquireWrite(t) => TestWrite(Announce(s, t), t)
    case WakeWriter(t) => TestWrite(s, t)
    case ReleaseWrite(t) => NotifyAll(s.(writerActive := false, writing := s.writing - {t}))
  }

  ghost predicate Schedule(actions: seq<Action>) {
    actions != [] ==>
      Schedule(actions[..|actions| - 1]) && Enabled(After(actions[..|actions| - 1]), actions[|actions| - 1])
  }

  function After(actions: seq<Action>): Lock {
    if actions == [] then Fresh else Next(After(actions[..|actions| - 1]), actions[|actions| - 1])
  }

  // -------------------------------------------------------------------------
  // The invariant
  // -------------------------------------------------------------------------

  /** The counters count the threads they stand for. */
  ghost predicate Counted(s: Lock) {
    && s.readers == |s.reading|
    && s.writersWaiting == |s.waitingWriters|
    && (s.writerActive <==> s.writing != {})
  }

  /** No thread is in two places, and only waiting threads are parked. */
  ghost predicate Placed(s: Lock) {
    && s.reading !! s.writing && s.reading !! s.waitingReaders && s.reading !! s.waitingWriters
    && s.writing !! s.waitingReaders && s.writing !! s.waitingWriters && s.waitingReaders !! s.waitingWriters
    && s.parked <= s.waitingReaders + s.waitingWriters
  }

  ghost predicate Exclusive(s: Lock) {
    && |s.writing| <= 1
    && (s.writing != {} ==> s.reading == {})
  }

  /** A thread that has not been notified would still find its condition true: no lost wake-up. */
  ghost predicate NoLostWakeup(s: Lock) {
    && (s.parked * s.waitingReaders != {} ==> ReaderBlocked(s))
    && (s.parked * s.waitingWriters != {} ==> WriterBlocked(s))
  }

  ghost predicate Inv(s: Lock) {
    Counted(s) && Placed(s) && Exclusive(s) && NoLostWakeup(s)
  }

  lemma TestReadPlaced(s: Lock, t: Thread)
    requires Placed(s) && (Idle(s, t) || (t in s.waitingReaders && t !in s.parked))
    ensures Placed(TestRead(s, t)) && t !in s.reading
  {
  }

  lemma TestReadInv(s: Lock, t: Thread)
    requires Inv(s) && (Idle(s, t) || (t in s.waitingReaders && t !in s.parked))
    ensures Inv(TestRead(s, t))
    ensures var s' := TestRead(s, t);
            && (t in s'.reading <==> !ReaderBlocked(s))
            && (t in s'.reading ==> s'.writing == {} && s'.waitingWriters == {})
  {
    var s' := TestRead(s, t);
    TestReadPlaced(s, t);
    if ReaderBlocked(s) {
      assert s'.parked * s'.waitingWriters <= s.parked * s.waitingWriters;
    } else {
      assert s'.parked * s'.waitingReaders <= s.parked * s.waitingReaders;
    }
  }

  lemma AnnounceInv(s: Lock, t: Thread)
    requires Inv(s) && Idle(s, t)
    ensures Inv(Announce(s, t)) && t !in s.parked
  {
    assert s.parked * (s.waitingWriters + {t}) == s.parked * s.waitingWriters;
  }

  lemma TestWriteInv(s: Lock, t: Thread)
    requires Inv(s) && t in s.waitingWriters && t !in s.parked
    ensures Inv(TestWrite(s, t))
    ensures var s' := TestWrite(s, t);
            && (t in s'.writing <==> !WriterBlocked(s))
            && (t in s'.writing ==> s'.writing == {t} && s'.reading == {})
  {
    var s' := TestWrite(s, t);
    if WriterBlocked(s) {
      assert s'.parked * s'.waitingReaders == s.parked * s.waitingReaders;
    } else {
      assert s'.writing == {t};
      assert s'.parked * s'.waitingWriters == s.parked * s.waitingWriters;
    }
  }

  lemma ReleaseReadInv(s: Lock, t: Thread)
    requires Inv(s) && t in s.reading
    ensures var s' := Next(s, ReleaseRead(t));
            Inv(s') && (s'.reading == {} ==> s'.parked == {})
  {
    var s' := Next(s, ReleaseRead(t));
    assert s'.reading == s.reading - {t} && |s.reading - {t}| == |s.reading| - 1;
    assert Placed(s');
    if s'.readers == 0 {
      assert s'.parked == {};
    } else {
      assert s'.parked == s.parked;
    }
  }

  lemma ReleaseWriteInv(s: Lock, t: Thread)
    requires Inv(s) && t in s.writing
    ensures var s' := Next(s, ReleaseWrite(t));
            Inv(s') && s'.writing == {} && s'.parked == {}
  {
    SingletonGone(s.writing, t);
  }

  lemma SingletonGone(s: set<Thread>, t: Thread)
    requires t in s && |s| <= 1
    ensures s - {t} == {}
  {
    assert |s - {t}| == |s| - 1;
  }

  lemma NextInv(s: Lock, a: Action)
    requires Inv(s) && Enabled(s, a)
    ensures Inv(Next(s, a))
  {
    match a
    case AcquireRead(t) => TestReadInv(s, t);
    case WakeReader(t) => TestReadInv(s, t);
    case ReleaseRead(t) => ReleaseReadInv(s, t);
    case AcquireWrite(t) => AnnounceInv(s, t); TestWriteInv(Announce(s, t), t);
    case WakeWriter(t) => TestWriteInv(s, t);
    case ReleaseWrite(t) => ReleaseWriteInv(s, t);
  }

  lemma {:induction false} InvAlways(actions: seq<Action>)
    requires Schedule(actions)
    ensures Inv(After(actions))
  {
    if actions != [] {
      InvAlways(actions[..|actions| - 1]);
      NextInv(After(actions[..|actions| - 1]), actions[|actions| - 1]);
    }
  }

  // -------------------------------------------------------------------------
  // What every schedule keeps
  // -------------------------------------------------------------------------

  /** MAIN: at most one writer, and never together with a reader; the fields say who holds the lock. */
  lemma MutualExclusion(actions: seq<Action>)
    requires Schedule(actions)
    ensures var s := After(actions);
            && (forall t, u :: t in s.writing && u in s.writing ==> t == u)
            && (s.writing == {} || s.reading == {})
            && (s.writerActive <==> s.writing != {}) && s.readers == |s.reading|
  {
    InvAlways(actions);
    var s := After(actions);
    forall t, u | t in s.writing && u in s.writing ensures t == u {
      SingletonGone(s.writing, t);
      assert u !in s.writing - {t};
    }
  }

  /** MAIN: a thread that enters as a reader finds no writer active and none waiting. */
  lemma WritersComeFirst(actions: seq<Action>, a: Action)
    requires Schedule(actions + [a])
    ensures var s := After(actions);
            After(actions + [a]).reading > s.reading ==> s.writing == {} && s.waitingWriters == {}
  {
    assert (actions + [a])[..|actions|] == actions;
    InvAlways(actions);
  }

  /** MAIN: nobody is stranded. When the lock is free and somebody waits for it, some notified
      thread is about to test its condition, and enters. */
  lemma FreeLockIsTaken(actions: seq<Action>)
    requires Schedule(actions)
    requires var s := After(actions); s.reading == {} && s.writing == {} && s.waitingReaders + s.waitingWriters != {}
    ensures var s := After(actions);
            exists a: Action :: (a.WakeReader? || a.WakeWriter?) && Enabled(s, a) &&
                                (a.t in Next(s, a).reading || a.t in Next(s, a).writing)
  {
    InvAlways(actions);
    var s := After(actions);
    if s.waitingWriters != {} {
      var t :| t in s.waitingWriters;
      assert t !in s.parked * s.waitingWriters;
      assert t in Next(s, WakeWriter(t)).writing && Enabled(s, WakeWriter(t));
    } else {
      var t :| t in s.waitingReaders;
      assert t !in s.parked * s.waitingReaders;
      assert t in Next(s, WakeReader(t)).reading && Enabled(s, WakeReader(t));
    }
  }

  // -------------------------------------------------------------------------
  // An exception inside wait()
  // -------------------------------------------------------------------------

  /** acquire_write left by an exception: its finally block lowers the count and notifies nobody. */
  function AbandonWrite(s: Lock, t: Thread): Lock {
    s.(writersWaiting := s.writersWaiting - 1, waitingWriters := s.waitingWriters - {t}, parked := s.parked - {t})
  }

  /** A writer that gives up loses a wake-up exactly when a reader is parked, no writer is active and
      it was the last waiting writer. */
  lemma AbandonedWriteIff(s: Lock, t: Thread)
    requires Inv(s) && t in s.waitingWriters
    ensures NoLostWakeup(AbandonWrite(s, t)) <==>
              s.parked * s.waitingReaders == {} || s.writing != {} || s.waitingWriters != {t}
  {
    var s' := AbandonWrite(s, t);
    assert t !in s.waitingReaders;
    assert s'.parked * s'.waitingReaders == s.parked * s.waitingReaders;
    assert s'.parked * s'.waitingWriters <= s.parked * s.waitingWriters;
    LastWriter(s, t);
  }

  lemma LastWriter(s: Lock, t: Thread)
    requires s.writersWaiting == |s.waitingWriters| && t in s.waitingWriters
    ensures s.writersWaiting == 1 <==> s.waitingWriters == {t}
  {
    assert |s.waitingWriters - {t}| == |s.waitingWriters| - 1;
    if s.writersWaiting == 1 { assert s.waitingWriters == (s.waitingWriters - {t}) + {t}; }
  }

  /** And the reader that lost it can face a lock nobody holds. */
  lemma AbandonedWriteCanStrand()
    ensures var actions := [AcquireRead(1), AcquireWrite(2), ReleaseRead(1), AcquireRead(3)];
            Schedule(actions)
            && var s := AbandonWrite(After(actions), 2);
               s.reading == {} && s.writing == {} && s.waitingWriters == {} && s.waitingReaders == s.parked == {3}
  {
    var a1 := [AcquireRead(1)];
    var a2 := [AcquireRead(1), AcquireWrite(2)];
    var a3 := [AcquireRead(1), AcquireWrite(2), ReleaseRead(1)];
    var a4 := [AcquireRead(1), AcquireWrite(2), ReleaseRead(1), AcquireRead(3)];
    assert a1[..0] == [] && a2[..1] == a1 && a3[..2] == a2 && a4[..3] == a3;
    assert After(a1) == Lock(1, 0, false, {1}, {}, {}, {}, {});
    assert After(a2) == Lock(1, 1, false, {1}, {}, {}, {2}, {2});
    assert After(a3) == Lock(0, 1, false, {}, {}, {}, {2}, {});
    assert After(a4) == Lock(0, 1, false, {}, {}, {3}, {2}, {3});
  }

  // -------------------------------------------------------------------------
  // The object
  // -------------------------------------------------------------------------

  lemma Extend(actions: seq<Action>, a: Action)
    requires Schedule(actions) && Enabled(After(actions), a)
    ensures Schedule(actions + [a]) && After(actions + [a]) == Next(After(actions), a)
  {
    assert (actions + [a])[..|actions|] == actions;
  }

  /** RWLock with its three fields. The ghost history is the interleaving so far; every method is
      one critical section and adds one action to it, so the lemmas above hold of the object. */
  class RWLock {
    var readers: int
    var writersWaiting: int
    var writerActive: bool
    ghost var history: seq<Action>

    ghost predicate Valid()
      reads this
    {
      && Schedule(history)
      && var s := After(history);
         s.readers == readers && s.writersWaiting == writersWaiting && s.writerActive == writerActive
    }

    constructor ()
      ensures Valid() && history == []
    {
      readers, writersWaiting, writerActive := 0, 0, false;
      history := [];
    }

    /** acquire_read up to its first wait(): `entered` is false when the thread parks there. */
    method AcquireRead(ghost t: Thread) returns (entered: bool)
      requires Valid() && Enabled(After(history), Action.AcquireRead(t))
      modifies this
      ensures Valid() && history == old(history) + [Action.AcquireRead(t)]
      ensures entered <==> t in After(history).reading
    {
      Extend(history, Action.AcquireRead(t));
      history := history + [Action.AcquireRead(t)];
      entered := !(writerActive || writersWaiting > 0);
      if entered { readers := readers + 1; }
    }

    /** acquire_read from a notified wait() to the next one or to the end. */
    method RetryRead(ghost t: Thread) returns (entered: bool)
      requires Valid() && Enabled(After(history), WakeReader(t))
      modifies this
      ensures Valid() && history == old(history) + [WakeReader(t)]
      ensures entered <==> t in After(history).reading
    {
      InvAlways(history);
      Extend(history, WakeReader(t));
      history := history + [WakeReader(t)];
      entered := !(writerActive || writersWaiting > 0);
      if entered { readers := readers + 1; }
    }

    method ReleaseRead(ghost t: Thread)
      requires Valid() && Enabled(After(history), Action.ReleaseRead(t))
      modifies this
      ensures Valid() && history == old(history) + [Action.ReleaseRead(t)]
      ensures readers == 0 ==> After(history).parked == {}
    {
      Extend(history, Action.ReleaseRead(t));
      history := history + [Action.ReleaseRead(t)];
      readers := readers - 1;
    }

    /** acquire_write up to its first wait(). */
    method AcquireWrite(ghost t: Thread) returns (entered: bool)
      requires Valid() && Enabled(After(history), Action.AcquireWrite(t))
      modifies this
      ensures Valid() && history == old(history) + [Action.AcquireWrite(t)]
      ensures entered <==> t in After(history).writing
    {
      Extend(history, Action.AcquireWrite(t));
      history := history + [Action.AcquireWrite(t)];
      writersWaiting := writersWaiting + 1;
      entered := !(writerActive || readers > 0);
      if entered {
        writerActive := true;
        writersWaiting := writersWaiting - 1;
      }
    }

    /** acquire_write from a notified wait() to the next one or to the end. */
    method RetryWrite(ghost t: Thread) returns (entered: bool)
      requires Valid() && Enabled(After(history), WakeWriter(t))
      modifies this
      ensures Valid() && history == old(history) + [WakeWriter(t)]
      ensures entered <==> t in After(history).writing
    {
      InvAlways(history);
      Extend(history, WakeWriter(t));
      history := history + [WakeWriter(t)];
      entered := !(writerActive || readers > 0);
      if entered {
        writerActive := true;
        writersWaiting := writersWaiting - 1;
      }
    }

    method ReleaseWrite(ghost t: Thread)
      requires Valid() && Enabled(After(history), Action.ReleaseWrite(t))
      modifies this
      ensures Valid() && history == old(history) + [Action.ReleaseWrite(t)]
      ensures After(history).parked == {}
    {
      Extend(history, Action.ReleaseWrite(t));
      history := history + [Action.ReleaseWrite(t)];
      writerActive := false;
    }
  }
}
