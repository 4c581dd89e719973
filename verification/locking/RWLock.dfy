/** pynfs/nfs4.1/locking.py, `_RWLock`: a monitor with readers, writers, upgrade and downgrade. Any number
    of threads interleave at the points where the code waits on its condition. */
module RWLock {

  type Thread = nat

  /** The counters of the lock, and whether its inner write lock is taken. */
  datatype Lock = Lock(writeCount: int, readCount: int, readLock: int, writeHeld: bool)

  /** Where a thread stands. A waiting writer is in the first or, once the readers were gone, the second
      of its two loops; a waiting thread runs again only after it has been notified. */
  datatype Standing =
    | Idle
    | WaitRead(notified: bool)
    | HoldRead
    | WaitWrite(second: bool, notified: bool)
    | HoldWrite

  datatype System = System(lock: Lock, threads: map<Thread, Standing>)

  // ----- the pieces of code between two waits -----

  function Init(): Lock {
    Lock(0, 0, 0, false)
  }

  /** One test of the loop in _acquire_read. */
  function TestRead(l: Lock): (Lock, Standing) {
    if l.writeCount > 0 then (l, WaitRead(false)) else (l.(readLock := l.readLock + 1), HoldRead)
  }

  /** The tests of the loops in _acquire_write, from the first or from the second one on. */
  function TestWrite(l: Lock, second: bool): (Lock, Standing) {
    if !second && l.readLock > 0 then (l, WaitWrite(false, false))
    else if l.writeHeld then (l, WaitWrite(true, false))
    else (l.(writeHeld := true), HoldWrite)
  }

  function WantRead(l: Lock): Lock {
    l.(readCount := l.readCount + 1)
  }

  function WantWrite(l: Lock): Lock {
    l.(writeCount := l.writeCount + 1)
  }

  function DropRead(l: Lock): Lock {
    l.(readCount := l.readCount - 1, readLock := l.readLock - 1)
  }

  function DropWrite(l: Lock): Lock {
    l.(writeCount := l.writeCount - 1, writeHeld := false)
  }

  function NotifyAll(threads: map<Thread, Standing>): map<Thread, Standing> {
    map t | t in threads ::
      match threads[t]
      case WaitRead(_) => WaitRead(true)
      case WaitWrite(second, _) => WaitWrite(second, true)
      case other => other
  }

  // ----- steps of one thread -----

  datatype Event = Acquire(t: Thread) | AcquireWrite(t: Thread) | Release(t: Thread)
                 | Upgrade(t: Thread) | Downgrade(t: Thread) | Resume(t: Thread)

  /** Callers release what they hold, upgrade a read lock, downgrade a write lock. */
  predicate Enabled(sys: System, ev: Event) {
    && ev.t in sys.threads
    && match ev
       case Acquire(t) => sys.threads[t].Idle?
       case AcquireWrite(t) => sys.threads[t].Idle?
       case Release(t) => sys.threads[t].HoldRead? || sys.threads[t].HoldWrite?
       case Upgrade(t) => sys.threads[t].HoldRead?
       case Downgrade(t) => sys.threads[t].HoldWrite?
       case Resume(t) => (sys.threads[t].WaitRead? || sys.threads[t].WaitWrite?) && sys.threads[t].notified
  }

  function Put(sys: System, t: Thread, to: (Lock, Standing)): System {
    System(to.0, sys.threads[t := to.1])
  }

  /** release looks only at the reader count to decide which kind to release; a read release notifies
      when it was the last. */
  function ReleaseStep(sys: System, t: Thread): System {
    if sys.lock.readLock != 0 then
      var l := DropRead(sys.lock);
      System(l, (if l.readLock == 0 then NotifyAll(sys.threads) else sys.threads)[t := Idle])
    else System(DropWrite(sys.lock), NotifyAll(sys.threads)[t := Idle])
  }

  function Next(sys: System, ev: Event): System
    requires Enabled(sys, ev)
  {
    match ev
    case Acquire(t) => Put(sys, t, TestRead(WantRead(sys.lock)))
    case AcquireWrite(t) => Put(sys, t, TestWrite(WantWrite(sys.lock), false))
    case Release(t) => ReleaseStep(sys, t)
    case Upgrade(t) => Put(sys, t, TestWrite(WantWrite(DropRead(sys.lock)), false))
    case Downgrade(t) => Put(System(sys.lock, NotifyAll(sys.threads)), t, TestRead(WantRead(DropWrite(sys.lock))))
    case Resume(t) =>
      if sys.threads[t].WaitRead? then Put(sys, t, TestRead(sys.lock)) else Put(sys, t, TestWrite(sys.lock, sys.threads[t].second))
  }

  // ----- the invariant -----

  function Readers(threads: map<Thread, Standing>): set<Thread> {
    set t | t in threads && threads[t].HoldRead?
  }

  function WantingReaders(threads: map<Thread, Standing>): set<Thread> {
    set t | t in threads && (threads[t].HoldRead? || threads[t].WaitRead?)
  }

  function Writers(threads: map<Thread, Standing>): set<Thread> {
    set t | t in threads && threads[t].HoldWrite?
  }

  function WantingWriters(threads: map<Thread, Standing>): set<Thread> {
    set t | t in threads && (threads[t].HoldWrite? || threads[t].WaitWrite?)
  }

  /** The counters count what their comments say. */
  ghost predicate Counted(sys: System) {
    sys.lock == Counts(sys.threads) && |Writers(sys.threads)| <= 1
  }

  /** A held write lock leaves no reader, and neither does a writer past its first loop. */
  ghost predicate Excluding(sys: System) {
    && (sys.lock.writeHeld ==> sys.lock.readLock == 0)
    && forall t | t in sys.threads && sys.threads[t].WaitWrite? && sys.threads[t].second :: sys.lock.readLock == 0
  }

  /** Whoever waits without a notification has a reason to: somebody will notify it. */
  ghost predicate Waiting(sys: System) {
    forall t | t in sys.threads ::
      match sys.threads[t]
      case WaitRead(notified) => notified || sys.lock.writeCount > 0
      case WaitWrite(second, notified) => notified || sys.lock.writeHeld || (!second && sys.lock.readLock > 0)
      case _ => true
  }

  ghost predicate Inv(sys: System) {
    Counted(sys) && Excluding(sys) && Waiting(sys)
  }

  // ----- counting when one thread moves -----

  /** What one thread's standing contributes to the counters. */
  function Share(s: Standing): Lock {
    Lock(if s.HoldWrite? || s.WaitWrite? then 1 else 0, if s.HoldRead? || s.WaitRead? then 1 else 0,
         if s.HoldRead? then 1 else 0, s.HoldWrite?)
  }

  function Counts(threads: map<Thread, Standing>): Lock {
    Lock(|WantingWriters(threads)|, |WantingReaders(threads)|, |Readers(threads)|, Writers(threads) != {})
  }

  lemma Moved(threads: map<Thread, Standing>, t: Thread, s: Standing)
    requires t in threads && |Writers(threads)| <= 1 && (s.HoldWrite? ==> Writers(threads) <= {t})
    ensures var c, c' := Counts(threads), Counts(threads[t := s]);
            && c'.writeCount == c.writeCount - Share(threads[t]).writeCount + Share(s).writeCount
            && c'.readCount == c.readCount - Share(threads[t]).readCount + Share(s).readCount
            && c'.readLock == c.readLock - Share(threads[t]).readLock + Share(s).readLock
            && c'.writeHeld == (s.HoldWrite? || (c.writeHeld && !threads[t].HoldWrite?))
    ensures |Writers(threads[t := s])| <= 1
  {
    hide Readers, WantingReaders, Writers, WantingWriters, Changed;
    MovedSets(threads, t, s);
    Standings(threads, t);
    Joined(Readers(threads), t, s.HoldRead?);
    Joined(WantingReaders(threads), t, s.HoldRead? || s.WaitRead?);
    Joined(WantingWriters(threads), t, s.HoldWrite? || s.WaitWrite?);
    OnlyOne(Writers(threads), t, s.HoldWrite?);
  }

  /** The one writer leaves, or one takes its place. */
  lemma OnlyOne(writers: set<Thread>, t: Thread, joins: bool)
    requires |writers| <= 1 && (joins ==> writers <= {t})
    ensures |Changed(writers, t, joins)| <= 1
    ensures Changed(writers, t, joins) != {} <==> joins || (writers != {} && t !in writers)
  {
    if t in writers {
      Member(writers, t);
      assert writers - {t} == {};
    } else if joins {
      assert writers + {t} == {t};
    } else {
      assert writers - {t} == writers;
    }
  }

  lemma MovedSets(threads: map<Thread, Standing>, t: Thread, s: Standing)
    requires t in threads
    ensures Readers(threads[t := s]) == Changed(Readers(threads), t, s.HoldRead?)
    ensures WantingReaders(threads[t := s]) == Changed(WantingReaders(threads), t, s.HoldRead? || s.WaitRead?)
    ensures Writers(threads[t := s]) == Changed(Writers(threads), t, s.HoldWrite?)
    ensures WantingWriters(threads[t := s]) == Changed(WantingWriters(threads), t, s.HoldWrite? || s.WaitWrite?)
  {
  }

  function Changed(members: set<Thread>, t: Thread, joins: bool): set<Thread> {
    if joins then members + {t} else members - {t}
  }

  /** A set that one thread joins or leaves. */
  lemma Joined(before: set<Thread>, t: Thread, joins: bool)
    ensures |Changed(before, t, joins)| == |before| - (if t in before then 1 else 0) + (if joins then 1 else 0)
  {
    if joins && t in before {
      assert Changed(before, t, joins) == before;
    }
    if !joins && t !in before {
      assert Changed(before, t, joins) == before;
    }
  }

  lemma NotifiedSame(threads: map<Thread, Standing>)
    ensures Readers(NotifyAll(threads)) == Readers(threads) && Writers(NotifyAll(threads)) == Writers(threads)
    ensures WantingReaders(NotifyAll(threads)) == WantingReaders(threads)
    ensures WantingWriters(NotifyAll(threads)) == WantingWriters(threads)
    ensures Counts(NotifyAll(threads)) == Counts(threads)
    ensures forall t | t in threads :: t in NotifyAll(threads) && Share(NotifyAll(threads)[t]) == Share(threads[t])
  {
  }

  lemma Member(s: set<Thread>, t: Thread)
    requires t in s
    ensures |s| >= 1 && |s - {t}| == |s| - 1
  {
  }

  /** release is called by a holder: the reader count tells which kind it holds, and never goes negative. */
  lemma ReleasePicksTheHeldKind(sys: System, t: Thread)
    requires Inv(sys) && t in sys.threads
    ensures sys.threads[t].HoldRead? ==> sys.lock.readLock > 0
    ensures sys.threads[t].HoldWrite? ==> sys.lock.readLock == 0 && sys.lock.writeHeld
  {
    if sys.threads[t].HoldRead? {
      Member(Readers(sys.threads), t);
    }
    if sys.threads[t].HoldWrite? {
      Member(Writers(sys.threads), t);
    }
  }

  /** No writer counted means no writer wanting or having the lock. */
  lemma NoWriterWants(sys: System)
    requires Counted(sys) && sys.lock.writeCount <= 0
    ensures !sys.lock.writeHeld
    ensures forall t | t in sys.threads :: !sys.threads[t].WaitWrite? && !sys.threads[t].HoldWrite?
  {
    assert WantingWriters(sys.threads) == {};
    assert Writers(sys.threads) <= WantingWriters(sys.threads);
    forall t | t in sys.threads ensures !sys.threads[t].WaitWrite? && !sys.threads[t].HoldWrite? {
      Standings(sys.threads, t);
    }
  }

  // ----- every step -----

  lemma StepKeepsCounts(sys: System, ev: Event)
    requires Inv(sys) && Enabled(sys, ev)
    ensures Counted(Next(sys, ev))
  {
    hide Counts, Readers, WantingReaders, Writers, WantingWriters, NotifyAll, Waiting, Excluding;
    var to := Next(sys, ev).threads[ev.t];
    NotifiedSame(sys.threads);
    Standings(sys.threads, ev.t);
    ReleasePicksTheHeldKind(sys, ev.t);
    OneWriter(sys, ev.t);
    Moved(sys.threads, ev.t, to);
    Moved(NotifyAll(sys.threads), ev.t, to);
  }

  lemma OneWriter(sys: System, t: Thread)
    requires Counted(sys) && t in sys.threads
    ensures !sys.lock.writeHeld || sys.threads[t].HoldWrite? ==> Writers(sys.threads) <= {t}
  {
    if sys.threads[t].HoldWrite? {
      Member(Writers(sys.threads), t);
      assert Writers(sys.threads) - {t} == {};
    }
  }

  /** Which of the counted sets a thread is in. */
  lemma Standings(threads: map<Thread, Standing>, t: Thread)
    requires t in threads
    ensures t in NotifyAll(threads)
    ensures t in Readers(threads) <==> threads[t].HoldRead?
    ensures t in WantingReaders(threads) <==> threads[t].HoldRead? || threads[t].WaitRead?
    ensures t in Writers(threads) <==> threads[t].HoldWrite?
    ensures t in WantingWriters(threads) <==> threads[t].HoldWrite? || threads[t].WaitWrite?
  {
  }

  lemma StepKeepsExcluding(sys: System, ev: Event)
    requires Inv(sys) && Enabled(sys, ev)
    ensures Excluding(Next(sys, ev)) && Waiting(Next(sys, ev))
  {
    hide Readers, WantingReaders, Writers, WantingWriters, Counted;
    ReleasePicksTheHeldKind(sys, ev.t);
    if sys.lock.writeCount <= 0 {
      NoWriterWants(sys);
    }
    if ev.Downgrade? && sys.lock.writeCount <= 1 {
      OnlyWriter(sys, ev.t);
    }
    CountsAreNatural(sys);
  }

  lemma CountsAreNatural(sys: System)
    requires Counted(sys)
    ensures sys.lock.readLock >= 0 && sys.lock.writeCount >= 0 && sys.lock.readCount >= sys.lock.readLock
  {
    assert Readers(sys.threads) <= WantingReaders(sys.threads);
    SubsetSize(Readers(sys.threads), WantingReaders(sys.threads));
  }

  lemma SubsetSize(a: set<Thread>, b: set<Thread>)
    requires a <= b
    ensures |a| <= |b|
  {
    assert b == a + (b - a);
  }

  /** A writer that is counted alone is alone. */
  lemma OnlyWriter(sys: System, t: Thread)
    requires Counted(sys) && t in sys.threads && sys.threads[t].HoldWrite? && sys.lock.writeCount <= 1
    ensures forall u | u in sys.threads && u != t :: !sys.threads[u].WaitWrite? && !sys.threads[u].HoldWrite?
  {
    Member(WantingWriters(sys.threads), t);
    assert WantingWriters(sys.threads) - {t} == {};
    assert forall u | u in sys.threads && u != t :: u !in WantingWriters(sys.threads) - {t};
  }

  // ----- where each event leaves its thread -----

  /** Some thread other than t has the read lock. */
  predicate OthersRead(sys: System, t: Thread) {
    exists u | u in sys.threads :: u != t && sys.threads[u].HoldRead?
  }

  predicate OthersHoldWrite(sys: System, t: Thread) {
    exists u | u in sys.threads :: u != t && sys.threads[u].HoldWrite?
  }

  /** Some thread other than t has or wants the write lock. */
  predicate OthersWantWrite(sys: System, t: Thread) {
    exists u | u in sys.threads :: u != t && (sys.threads[u].HoldWrite? || sys.threads[u].WaitWrite?)
  }

  lemma SomeOther(members: set<Thread>, t: Thread)
    ensures (exists u :: u in members && u != t) <==> |members| > if t in members then 1 else 0
  {
    if t in members {
      Member(members, t);
      if members - {t} != {} {
        var u :| u in members - {t};
      }
    } else if members != {} {
      var u :| u in members;
    }
  }

  lemma OthersInSets(sys: System, t: Thread)
    ensures OthersRead(sys, t) <==> exists u :: u in Readers(sys.threads) && u != t
    ensures OthersWantWrite(sys, t) <==> exists u :: u in WantingWriters(sys.threads) && u != t
    ensures OthersHoldWrite(sys, t) <==> exists u :: u in Writers(sys.threads) && u != t
  {
    if u :| u in sys.threads && u != t && sys.threads[u].HoldRead? {
      assert u in Readers(sys.threads);
    }
    if u :| u in sys.threads && u != t && (sys.threads[u].HoldWrite? || sys.threads[u].WaitWrite?) {
      assert u in WantingWriters(sys.threads);
    }
    if u :| u in sys.threads && u != t && sys.threads[u].HoldWrite? {
      assert u in Writers(sys.threads);
    }
  }

  /** The counters tell of the other threads. */
  lemma CountersTell(sys: System, t: Thread)
    requires Counted(sys) && t in sys.threads
    ensures OthersRead(sys, t) <==> sys.lock.readLock > if sys.threads[t].HoldRead? then 1 else 0
    ensures OthersWantWrite(sys, t)
            <==> sys.lock.writeCount > if sys.threads[t].HoldWrite? || sys.threads[t].WaitWrite? then 1 else 0
    ensures !sys.threads[t].HoldWrite? ==> (OthersHoldWrite(sys, t) <==> sys.lock.writeHeld)
    ensures sys.threads[t].HoldWrite? ==> !OthersHoldWrite(sys, t)
  {
    var threads := sys.threads;
    SomeOther(Readers(threads), t);
    SomeOther(WantingWriters(threads), t);
    SomeOther(Writers(threads), t);
    OthersInSets(sys, t);
    if threads[t].HoldWrite? {
      Member(Writers(threads), t);
    }
  }

  /** A thread that asks for the read lock, also one that downgrades, has it unless another has or wants the write
      lock, for which it then waits; one that asks for the write lock, also one that upgrades, has it unless another
      holds the lock; one that releases is idle. */
  lemma WhereItLeaves(sys: System, ev: Event)
    requires Inv(sys) && Enabled(sys, ev)
    ensures var to := Next(sys, ev).threads[ev.t];
            match ev
            case Release(_) => to == Idle
            case Acquire(t) => to == if OthersWantWrite(sys, t) then WaitRead(false) else HoldRead
            case Downgrade(t) => to == if OthersWantWrite(sys, t) then WaitRead(false) else HoldRead
            case AcquireWrite(t) =>
              if OthersRead(sys, t) || OthersHoldWrite(sys, t) then to.WaitWrite? && !to.notified else to == HoldWrite
            case Upgrade(t) =>
              if OthersRead(sys, t) || OthersHoldWrite(sys, t) then to.WaitWrite? && !to.notified else to == HoldWrite
            case Resume(t) =>
              if sys.threads[t].WaitRead? then to == (if OthersWantWrite(sys, t) then WaitRead(false) else HoldRead)
              else if OthersRead(sys, t) || OthersHoldWrite(sys, t) then to.WaitWrite? && !to.notified else to == HoldWrite
  {
    hide Readers, WantingReaders, Writers, WantingWriters, Counted, OthersRead, OthersHoldWrite, OthersWantWrite, Waiting;
    CountersTell(sys, ev.t);
    ReleasePicksTheHeldKind(sys, ev.t);
    CountsAreNatural(sys);
  }

  /** No event moves another thread; the last reader's release, a writer's release and a downgrade wake whoever
      waits, and no other event does. */
  lemma OthersStay(sys: System, ev: Event, u: Thread)
    requires Inv(sys) && Enabled(sys, ev) && u in sys.threads && u != ev.t
    ensures u in Next(sys, ev).threads
    ensures var wakes := ev.Downgrade? || (ev.Release? && !OthersRead(sys, ev.t));
            Next(sys, ev).threads[u]
            == match sys.threads[u]
               case WaitRead(notified) => WaitRead(notified || wakes)
               case WaitWrite(second, notified) => WaitWrite(second, notified || wakes)
               case other => other
  {
    hide Readers, WantingReaders, Writers, WantingWriters, Counted, OthersRead, OthersHoldWrite, OthersWantWrite, Waiting;
    CountersTell(sys, ev.t);
    ReleasePicksTheHeldKind(sys, ev.t);
  }

  // ----- over every run -----

  ghost predicate IsInitial(sys: System) {
    sys.lock == Init() && forall t | t in sys.threads :: sys.threads[t] == Idle
  }

  ghost predicate IsRun(states: seq<System>, events: seq<Event>) {
    && |states| == |events| + 1 && IsInitial(states[0])
    && forall i | 0 <= i < |events| :: Enabled(states[i], events[i]) && states[i + 1] == Next(states[i], events[i])
  }

  lemma {:induction false} RunKeepsInv(states: seq<System>, events: seq<Event>, i: nat)
    requires IsRun(states, events) && i < |states|
    ensures Inv(states[i])
  {
    if i == 0 {
      var threads := states[0].threads;
      assert Readers(threads) == {} && WantingReaders(threads) == {} && Writers(threads) == {} && WantingWriters(threads) == {};
    } else {
      RunKeepsInv(states, events, i - 1);
      StepKeepsCounts(states[i - 1], events[i - 1]);
      StepKeepsExcluding(states[i - 1], events[i - 1]);
    }
  }

  /** Exclusion: while a thread has the write lock no other thread has any lock. */
  lemma WriterExcludesAll(states: seq<System>, events: seq<Event>, i: nat, t: Thread, u: Thread)
    requires IsRun(states, events) && i < |states| && t in states[i].threads && u in states[i].threads && t != u
    requires states[i].threads[t].HoldWrite?
    ensures !states[i].threads[u].HoldWrite? && !states[i].threads[u].HoldRead?
  {
    RunKeepsInv(states, events, i);
    ReleasePicksTheHeldKind(states[i], t);
    ReleasePicksTheHeldKind(states[i], u);
    Member(Writers(states[i].threads), t);
    if u in Writers(states[i].threads) {
      Member(Writers(states[i].threads) - {t}, u);
    }
  }

  ghost predicate Waits(sys: System, t: Thread) {
    t in sys.threads && (sys.threads[t].WaitRead? || sys.threads[t].WaitWrite?)
  }

  ghost predicate Free(sys: System) {
    forall t | t in sys.threads :: !sys.threads[t].HoldRead? && !sys.threads[t].HoldWrite?
  }

  /** Running this thread now gives it the lock it waits for. */
  ghost predicate CanTake(sys: System, t: Thread) {
    && Enabled(sys, Resume(t))
    && Next(sys, Resume(t)).threads[t] == if sys.threads[t].WaitRead? then HoldRead else HoldWrite
  }

  /** No wakeup is lost: if nobody holds the lock and some thread waits for it, then some thread can run
      and gets it - every waiting writer if there is one, else every waiting reader. */
  lemma NoLostWakeup(states: seq<System>, events: seq<Event>, i: nat, t: Thread)
    requires IsRun(states, events) && i < |states| && Free(states[i]) && Waits(states[i], t)
    ensures exists u :: CanTake(states[i], u)
    ensures states[i].threads[t].WaitWrite? ==> CanTake(states[i], t)
    ensures (forall u | Waits(states[i], u) :: states[i].threads[u].WaitRead?) ==> CanTake(states[i], t)
  {
    var sys := states[i];
    RunKeepsInv(states, events, i);
    assert Readers(sys.threads) == {} && Writers(sys.threads) == {};
    if sys.threads[t].WaitWrite? {
      assert CanTake(sys, t);
    } else if sys.lock.writeCount > 0 {
      var u :| u in WantingWriters(sys.threads);
      assert CanTake(sys, u);
    } else {
      assert CanTake(sys, t);
    }
  }

  // ----- the methods, on the counters in place -----

  class RWLockState {
    var writeCount: int
    var readCount: int
    var readLock: int
    var writeHeld: bool

    function Value(): Lock
      reads this
    {
      Lock(writeCount, readCount, readLock, writeHeld)
    }

    constructor ()
      ensures Value() == Init()
    {
      writeCount, readCount, readLock, writeHeld := 0, 0, 0, false;
    }

    /** _acquire_read up to its first wait, or until it has the lock. */
    method StartRead() returns (to: Standing)
      modifies this
      ensures (Value(), to) == TestRead(WantRead(old(Value())))
    {
      readCount := readCount + 1;
      to := ContinueRead();
    }

    method ContinueRead() returns (to: Standing)
      modifies this
      ensures (Value(), to) == TestRead(old(Value()))
    {
      if writeCount > 0 {
        return WaitRead(false);
      }
      readLock := readLock + 1;
      to := HoldRead;
    }

    /** _acquire_write up to its first wait, or until it has the lock. */
    method StartWrite() returns (to: Standing)
      modifies this
      ensures (Value(), to) == TestWrite(WantWrite(old(Value())), false)
    {
      writeCount := writeCount + 1;
      to := ContinueWrite(false);
    }

    method ContinueWrite(second: bool) returns (to: Standing)
      modifies this
      ensures (Value(), to) == TestWrite(old(Value()), second)
    {
      if !second && readLock > 0 {
        return WaitWrite(false, false);
      }
      if writeHeld {
        return WaitWrite(true, false);
      }
      writeHeld := true;
      to := HoldWrite;
    }

    /** _release_read; unmatched is the ValueError. */
    method ReleaseRead(notify: bool) returns (notified: bool, unmatched: bool)
      modifies this
      ensures Value() == DropRead(old(Value()))
      ensures notified == (notify && readLock == 0) && unmatched == (!notified && readLock < 0)
    {
      readCount := readCount - 1;
      readLock := readLock - 1;
      notified := notify && readLock == 0;
      unmatched := !notified && readLock < 0;
    }

    method ReleaseWrite()
      requires writeHeld
      modifies this
      ensures Value() == DropWrite(old(Value()))
    {
      writeCount := writeCount - 1;
      writeHeld := false;
    }

    /** release: the caller holds one kind; which, the reader count says. */
    method Release() returns (notified: bool)
      requires readLock > 0 || (readLock == 0 && writeHeld)
      modifies this
      ensures Value() == if old(readLock) != 0 then DropRead(old(Value())) else DropWrite(old(Value()))
      ensures notified == (old(readLock) <= 1)
    {
      if readLock != 0 {
        var unmatched;
        notified, unmatched := ReleaseRead(true);
      } else {
        ReleaseWrite();
        notified := true;
      }
    }

    method Upgrade() returns (to: Standing)
      requires readLock > 0
      modifies this
      ensures (Value(), to) == TestWrite(WantWrite(DropRead(old(Value()))), false)
    {
      var notified, unmatched := ReleaseRead(false);
      to := StartWrite();
    }

    method Downgrade() returns (to: Standing)
      requires writeHeld
      modifies this
      ensures (Value(), to) == TestRead(WantRead(DropWrite(old(Value()))))
    {
      ReleaseWrite();
      to := StartRead();
    }
  }
}
