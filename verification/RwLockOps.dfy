/** What a call of the reader/writer lock returns and when: the blocking operations come back with the
    lock only, the others answer at once, and a waiting thread leaves the lock as it found it. */
module RwLockOps {
  import opened Common
  import opened RwLock

  // ----- one call of one thread --------------------------------------------------------------------

  function PcOf(n: nat, events: seq<Event>, t: nat): Pc
    requires t < n
  {
    Run(n, events).threads[t].pc
  }

  predicate WriterHolds(s: State) {
    exists j :: 0 <= j < |s.threads| && s.threads[j].pc.HoldW?
  }

  lemma FlagMeansWriter(n: nat, events: seq<Event>)
    ensures Run(n, events).writer <==> WriterHolds(Run(n, events))
  {
    FlagAndCount(n, events);
  }

  /** No access of thread t among the events. */
  predicate Silent(events: seq<Event>, t: nat) {
    forall i :: 0 <= i < |events| && events[i].Access? ==> events[i].t != t
  }

  lemma OtherStep(s: State, e: Event, t: nat)
    requires t < |s.threads| && (e.t != t || (e.Begin? && !s.threads[t].pc.Idle?))
    ensures Step(s, e).threads[t] == s.threads[t]
  {
  }

  /** A thread inside a call stands still while only others make accesses. */
  lemma {:induction false} StandsStill(n: nat, events: seq<Event>, more: seq<Event>, t: nat)
    requires t < n && !PcOf(n, events, t).Idle? && Silent(more, t)
    ensures PcOf(n, events + more, t) == PcOf(n, events, t)
    decreases |more|
  {
    if more == [] {
      assert events + more == events;
    } else {
      var k := |more| - 1;
      StandsStill(n, events, more[..k], t);
      RunAppend(n, events + more[..k], more[k]);
      assert events + more == events + more[..k] + [more[k]];
      OtherStep(Run(n, events + more[..k]), more[k], t);
    }
  }

  lemma Begins(n: nat, events: seq<Event>, t: nat, op: Op)
    requires t < n && PcOf(n, events, t).Idle?
    ensures PcOf(n, events + [Begin(t, op)], t) == Entry(op)
  {
    RunAppend(n, events, Begin(t, op));
  }

  // ----- the operations that try -----------------------------------------------------------------------

  /** try_lock_read: the call is over after its first access if and only if a thread held the write
      side at that moment; otherwise the second access gives it the read side. */
  lemma TryReadResult(n: nat, before: seq<Event>, t: nat, wait: seq<Event>, x: bool, wait': seq<Event>, x': bool)
    requires t < n && PcOf(n, before, t).Idle? && Silent(wait, t) && Silent(wait', t)
    ensures var called := before + [Begin(t, TryLockRead)] + wait;
            var tested := called + [Access(t, x)];
            && (PcOf(n, tested, t).Idle? <==> WriterHolds(Run(n, called)))
            && (!WriterHolds(Run(n, called)) ==> PcOf(n, tested + wait' + [Access(t, x')], t).HoldR?)
  {
    var called := before + [Begin(t, TryLockRead)] + wait;
    var tested := called + [Access(t, x)];
    Begins(n, before, t, TryLockRead);
    StandsStill(n, before + [Begin(t, TryLockRead)], wait, t);
    FlagMeansWriter(n, called);
    RunAppend(n, called, Access(t, x));
    if !WriterHolds(Run(n, called)) {
      StandsStill(n, tested, wait', t);
      RunAppend(n, tested + wait', Access(t, x'));
    }
  }

  /** try_lock_write: its one access gives it the write side if and only if no thread held it, and
      otherwise the call is over. */
  lemma TryWriteResult(n: nat, before: seq<Event>, t: nat, wait: seq<Event>, x: bool)
    requires t < n && PcOf(n, before, t).Idle? && Silent(wait, t)
    ensures var called := before + [Begin(t, TryLockWrite)] + wait;
            var pc := PcOf(n, called + [Access(t, x)], t);
            if WriterHolds(Run(n, called)) then pc.Idle? else pc.HoldW?
  {
    var called := before + [Begin(t, TryLockWrite)] + wait;
    Begins(n, before, t, TryLockWrite);
    StandsStill(n, before + [Begin(t, TryLockWrite)], wait, t);
    FlagMeansWriter(n, called);
    RunAppend(n, called, Access(t, x));
  }

  // ----- the operations that block ---------------------------------------------------------------------

  predicate Reading(pc: Pc) { pc.ReadFlag? || pc.ReadAdd? || pc.ReadRecheck? || pc.ReadUndo? }
  predicate Writing(pc: Pc) { pc.WriteCount? || pc.WriteFlag? || pc.WriteCas? }

  predicate InCall(pc: Pc, op: Op) {
    (op == LockRead && Reading(pc)) || (op == LockWrite && Writing(pc))
  }

  predicate Has(pc: Pc, op: Op) {
    if op == LockRead then pc.HoldR? else pc.HoldW?
  }

  /** Thread t has had the lock at some moment of `more`. */
  ghost predicate HasHad(n: nat, called: seq<Event>, more: seq<Event>, t: nat, op: Op)
    requires t < n
  {
    exists k: nat :: k <= |more| && Has(PcOf(n, called + more[..k], t), op)
  }

  lemma StaysInCall(s: State, e: Event, t: nat, op: Op)
    requires t < |s.threads| && InCall(s.threads[t].pc, op)
    ensures var pc := Step(s, e).threads[t].pc; InCall(pc, op) || Has(pc, op)
  {
  }

  lemma HadStill(n: nat, called: seq<Event>, more: seq<Event>, t: nat, op: Op)
    requires t < n && more != [] && HasHad(n, called, more[..|more| - 1], t, op)
    ensures HasHad(n, called, more, t, op)
  {
    var short := more[..|more| - 1];
    var k: nat :| k <= |short| && Has(PcOf(n, called + short[..k], t), op);
    assert more[..k] == short[..k];
  }

  lemma {:induction false} InCallUntilHeld(n: nat, called: seq<Event>, more: seq<Event>, t: nat, op: Op)
    requires t < n && InCall(PcOf(n, called, t), op)
    ensures InCall(PcOf(n, called + more, t), op) || HasHad(n, called, more, t, op)
    decreases |more|
  {
    if more == [] {
      assert called + more == called;
    } else {
      var k := |more| - 1;
      InCallUntilHeld(n, called, more[..k], t, op);
      if HasHad(n, called, more[..k], t, op) {
        HadStill(n, called, more, t, op);
      } else {
        RunAppend(n, called + more[..k], more[k]);
        assert called + more == called + more[..k] + [more[k]];
        StaysInCall(Run(n, called + more[..k]), more[k], t, op);
        assert more[..|more|] == more;
      }
    }
  }

  /** lock_read and lock_write do not return before they have had the lock. */
  lemma BlockingReturnsHolding(n: nat, before: seq<Event>, t: nat, op: Op, more: seq<Event>)
    requires t < n && (op == LockRead || op == LockWrite) && PcOf(n, before, t).Idle?
    requires PcOf(n, before + [Begin(t, op)] + more, t).Idle?
    ensures HasHad(n, before + [Begin(t, op)], more, t, op)
  {
    Begins(n, before, t, op);
    InCallUntilHeld(n, before + [Begin(t, op)], more, t, op);
  }

  // ----- a thread left alone ---------------------------------------------------------------------------

  /** k accesses of thread t and nothing else. */
  function Alone(s: State, t: nat, k: nat): (s': State)
    requires t < |s.threads|
    ensures |s'.threads| == |s.threads|
  {
    if k == 0 then s else Step(Alone(s, t, k - 1), Access(t, false))
  }

  lemma OneMore(t: nat, events: seq<Event>, k: nat)
    ensures events + Repeat(Access(t, false), 0) == events
    ensures events + Repeat(Access(t, false), k + 1) == events + Repeat(Access(t, false), k) + [Access(t, false)]
  {
  }

  lemma {:induction false} RunAlone(n: nat, events: seq<Event>, t: nat, k: nat)
    requires t < n
    ensures Run(n, events + Repeat(Access(t, false), k)) == Alone(Run(n, events), t, k)
  {
    if k == 0 {
      OneMore(t, events, k);
    } else {
      RunAlone(n, events, t, k - 1);
      OneMore(t, events, k - 1);
      RunAppend(n, events + Repeat(Access(t, false), k - 1), Access(t, false));
    }
  }

  /** s' is s with thread t at pc, the count and the flag as given, and the other threads as they were. */
  predicate Only(s: State, s': State, t: nat, pc: Pc, readers: int, writer: bool) {
    && t < |s.threads| == |s'.threads| && s'.threads[t].pc == pc && s'.readers == readers && s'.writer == writer
    && forall j :: 0 <= j < |s.threads| && j != t ==> s'.threads[j] == s.threads[j]
  }

  /** The count without thread t. */
  function Others(s: State, t: nat): int
    requires t < |s.threads|
  {
    s.readers - if Counted(s.threads[t].pc) then 1 else 0
  }

  lemma AccessOnly(s: State, s': State, t: nat, pc: Pc, readers: int, writer: bool,
                   pc': Pc, readers': int, writer': bool)
    requires Only(s, s', t, pc, readers, writer)
    requires Moved(s', s'.threads[t], false).pc == pc' && NewReaders(s', pc) == readers'
    requires writer' == (SetsFlag(s', pc, false) || (!pc.HoldW? && writer))
    ensures Only(s, Step(s', Access(t, false)), t, pc', readers', writer')
  {
  }

  /** Accesses a lock_read needs from here if no writer is in its way. */
  function ReadDistance(pc: Pc): nat {
    match pc
    case ReadUndo => 4
    case ReadFlag => 3
    case ReadAdd => 2
    case ReadRecheck => 1
    case _ => 0
  }

  lemma ReadMoves(s: State, t: Thread)
    requires Reading(t.pc) && !s.writer
    ensures var pc := Moved(s, t, false).pc;
            && ReadDistance(pc) == ReadDistance(t.pc) - 1 && (Reading(pc) || pc.HoldR?)
            && NewReaders(s, t.pc) - (if Counted(pc) then 1 else 0) == s.readers - if Counted(t.pc) then 1 else 0
  {
  }

  lemma {:induction false} ReadsAlone(s: State, t: nat, k: nat, d: nat)
    requires t < |s.threads| && Reading(s.threads[t].pc) && !s.writer && d == ReadDistance(s.threads[t].pc) && k <= d
    ensures var pc := Alone(s, t, k).threads[t].pc;
            && ReadDistance(pc) == d - k && (Reading(pc) || pc.HoldR?)
            && Only(s, Alone(s, t, k), t, pc, Others(s, t) + (if Counted(pc) then 1 else 0), false)
  {
    if k > 0 {
      ReadsAlone(s, t, k - 1, d);
      var s1 := Alone(s, t, k - 1);
      var pc := s1.threads[t].pc;
      ReadMoves(s1, s1.threads[t]);
      AccessOnly(s, s1, t, pc, s1.readers, false, Moved(s1, s1.threads[t], false).pc, NewReaders(s1, pc), false);
    }
  }

  /** lock_read gets the lock, with nobody's help, in at most four accesses whenever no thread holds the
      write side; it raises the count by one and changes nothing else. */
  lemma ReaderGetsIn(n: nat, events: seq<Event>, t: nat) returns (k: nat)
    requires t < n && Reading(PcOf(n, events, t)) && !WriterHolds(Run(n, events))
    ensures k <= 4
    ensures var s := Run(n, events);
            Only(s, Run(n, events + Repeat(Access(t, false), k)), t, HoldR, Others(s, t) + 1, false)
  {
    k := ReadDistance(PcOf(n, events, t));
    FlagMeansWriter(n, events);
    RunAlone(n, events, t, k);
    ReadsAlone(Run(n, events), t, k, k);
  }

  /** Accesses until a lock_read that meets a writer is back at its first test. */
  function RetreatDistance(pc: Pc): nat {
    match pc
    case ReadAdd => 3
    case ReadRecheck => 2
    case ReadUndo => 1
    case _ => 0
  }

  lemma RetreatMoves(s: State, t: Thread)
    requires Reading(t.pc) && s.writer
    ensures var pc, d := Moved(s, t, false).pc, RetreatDistance(t.pc);
            && Reading(pc) && RetreatDistance(pc) == (if d == 0 then 0 else d - 1)
            && NewReaders(s, t.pc) - (if Counted(pc) then 1 else 0) == s.readers - if Counted(t.pc) then 1 else 0
  {
  }

  lemma {:induction false} RetreatsAlone(s: State, t: nat, k: nat, d: nat)
    requires t < |s.threads| && Reading(s.threads[t].pc) && s.writer && d == RetreatDistance(s.threads[t].pc)
    ensures var pc := Alone(s, t, k).threads[t].pc;
            && Reading(pc) && RetreatDistance(pc) == (if k <= d then d - k else 0)
            && Only(s, Alone(s, t, k), t, pc, Others(s, t) + (if Counted(pc) then 1 else 0), true)
  {
    if k > 0 {
      RetreatsAlone(s, t, k - 1, d);
      var s1 := Alone(s, t, k - 1);
      var pc := s1.threads[t].pc;
      RetreatMoves(s1, s1.threads[t]);
      AccessOnly(s, s1, t, pc, s1.readers, true, Moved(s1, s1.threads[t], false).pc, NewReaders(s1, pc), true);
    }
  }

  /** While a thread holds the write side, a lock_read waits: from its third access on it stands before
      its first test, has taken itself out of the count, and has changed nothing. */
  lemma ReaderWaits(n: nat, events: seq<Event>, t: nat, k: nat)
    requires t < n && Reading(PcOf(n, events, t)) && WriterHolds(Run(n, events)) && k >= 3
    ensures var s := Run(n, events);
            Only(s, Run(n, events + Repeat(Access(t, false), k)), t, ReadFlag, Others(s, t), true)
  {
    FlagMeansWriter(n, events);
    RunAlone(n, events, t, k);
    RetreatsAlone(Run(n, events), t, k, RetreatDistance(PcOf(n, events, t)));
  }

  function WriteDistance(pc: Pc): nat {
    match pc
    case WriteCount => 3
    case WriteFlag => 2
    case WriteCas => 1
    case _ => 0
  }

  lemma {:induction false} WritesAlone(s: State, t: nat, k: nat, d: nat)
    requires t < |s.threads| && Writing(s.threads[t].pc) && !s.writer && s.readers == 0
    requires d == WriteDistance(s.threads[t].pc) && k <= d
    ensures var pc := Alone(s, t, k).threads[t].pc;
            && WriteDistance(pc) == d - k && (Writing(pc) || pc.HoldW?)
            && Only(s, Alone(s, t, k), t, pc, 0, pc.HoldW?)
  {
    if k > 0 {
      WritesAlone(s, t, k - 1, d);
      var s1 := Alone(s, t, k - 1);
      var pc := s1.threads[t].pc;
      var pc' := Moved(s1, s1.threads[t], false).pc;
      AccessOnly(s, s1, t, pc, 0, false, pc', 0, pc'.HoldW?);
    }
  }

  /** lock_write gets the lock in at most three accesses whenever nobody counts or holds. */
  lemma WriterGetsIn(n: nat, events: seq<Event>, t: nat) returns (k: nat)
    requires t < n && Writing(PcOf(n, events, t)) && !WriterHolds(Run(n, events)) && Run(n, events).readers == 0
    ensures k <= 3 && Only(Run(n, events), Run(n, events + Repeat(Access(t, false), k)), t, HoldW, 0, true)
  {
    k := WriteDistance(PcOf(n, events, t));
    FlagMeansWriter(n, events);
    RunAlone(n, events, t, k);
    WritesAlone(Run(n, events), t, k, k);
  }

  lemma SpinMoves(s: State, t: Thread)
    requires Writing(t.pc) && (s.writer || (s.readers != 0 && t.pc.WriteCount?))
    ensures var pc := Moved(s, t, false).pc;
            && Writing(pc) && NewReaders(s, t.pc) == s.readers && !SetsFlag(s, t.pc, false)
            && (s.readers != 0 && (t.pc.WriteCount? || !pc.WriteFlag?) ==> pc.WriteCount?)
            && !pc.WriteCas? && (pc.WriteFlag? ==> s.readers == 0)
  {
  }

  lemma {:induction false} SpinsAlone(s: State, t: nat, k: nat)
    requires t < |s.threads| && Writing(s.threads[t].pc)
    requires s.writer || (s.readers != 0 && s.threads[t].pc.WriteCount?)
    ensures var pc := Alone(s, t, k).threads[t].pc;
            && Writing(pc) && (s.readers != 0 && (k >= 1 || s.threads[t].pc.WriteCount?) ==> pc.WriteCount?)
            && Only(s, Alone(s, t, k), t, pc, s.readers, s.writer)
  {
    if k > 0 {
      SpinsAlone(s, t, k - 1);
      var s1 := Alone(s, t, k - 1);
      var pc := s1.threads[t].pc;
      SpinMoves(s1, s1.threads[t]);
      AccessOnly(s, s1, t, pc, s.readers, s.writer, Moved(s1, s1.threads[t], false).pc, s.readers, s.writer);
    }
  }

  /** lock_write waits while a thread holds the write side, and at its first test while a thread counts;
      it changes nothing, and with readers about it is back at its first test after one access. */
  lemma WriterWaits(n: nat, events: seq<Event>, t: nat, k: nat)
    requires t < n && Writing(PcOf(n, events, t))
    requires WriterHolds(Run(n, events)) || (Run(n, events).readers != 0 && PcOf(n, events, t).WriteCount?)
    ensures var s, s' := Run(n, events), Run(n, events + Repeat(Access(t, false), k));
            && Writing(s'.threads[t].pc) && Only(s, s', t, s'.threads[t].pc, s.readers, s.writer)
            && (s.readers != 0 && k >= 1 ==> s'.threads[t].pc == WriteCount)
  {
    FlagMeansWriter(n, events);
    RunAlone(n, events, t, k);
    SpinsAlone(Run(n, events), t, k);
  }

  // ----- the tests before the compare-exchange ------------------------------------------------------------

  /** The last access of thread t in the run is the one numbered k. */
  predicate LastAccess(events: seq<Event>, t: nat, k: nat) {
    && k < |events| && events[k].Access? && events[k].t == t
    && forall i :: k < i < |events| && events[i].Access? ==> events[i].t != t
  }

  datatype Test = CountZero | FlagClear | FlagSet

  predicate Passes(s: State, test: Test) {
    match test
    case CountZero => s.readers == 0
    case FlagClear => !s.writer
    case FlagSet => s.writer
  }

  /** Access number k is the last of thread t, made at pc in a state that passes the test. */
  predicate PassedAt(n: nat, events: seq<Event>, t: nat, pc: Pc, test: Test, k: nat)
    requires t < n
  {
    LastAccess(events, t, k) && PcOf(n, events[..k], t) == pc && Passes(Run(n, events[..k]), test)
  }

  ghost predicate Passed(n: nat, events: seq<Event>, t: nat, pc: Pc, test: Test)
    requires t < n
  {
    exists k: nat :: PassedAt(n, events, t, pc, test, k)
  }

  lemma PassedStill(n: nat, events: seq<Event>, t: nat, pc: Pc, test: Test)
    requires t < n && events != [] && Passed(n, events[..|events| - 1], t, pc, test)
    requires var e := events[|events| - 1]; !(e.Access? && e.t == t)
    ensures Passed(n, events, t, pc, test)
  {
    var before := events[..|events| - 1];
    var k: nat :| PassedAt(n, before, t, pc, test, k);
    assert events[..k] == before[..k];
    assert PassedAt(n, events, t, pc, test, k);
  }

  /** The test that leads to a pc, and where it is made. */
  function Before(pc: Pc): Option<(Pc, Test)> {
    match pc
    case WriteFlag => Some((WriteCount, CountZero))
    case WriteCas => Some((WriteFlag, FlagClear))
    case ReadAdd => Some((ReadFlag, FlagClear))
    case ReadUndo => Some((ReadRecheck, FlagSet))
    case _ => None
  }

  lemma AccessPasses(s: State, t: nat, spurious: bool)
    requires t < |s.threads|
    ensures var b := Before(Step(s, Access(t, spurious)).threads[t].pc);
            b.Some? ==> s.threads[t].pc == b.value.0 && Passes(s, b.value.1)
  {
  }

  lemma StepOfOther(s: State, e: Event, t: nat)
    requires t < |s.threads| && !(e.Access? && e.t == t)
    ensures var pc := Step(s, e).threads[t].pc; pc == s.threads[t].pc || Before(pc) == None
  {
  }

  lemma {:induction false} TestPassed(n: nat, events: seq<Event>, t: nat)
    requires t < n
    ensures var b := Before(PcOf(n, events, t)); b.Some? ==> Passed(n, events, t, b.value.0, b.value.1)
  {
    if events != [] {
      var k := |events| - 1;
      var before, e, b := events[..k], events[k], Before(PcOf(n, events, t));
      TestPassed(n, before, t);
      if b.Some? {
        if e.Access? && e.t == t {
          AccessPasses(Run(n, before), t, e.spurious);
          assert PassedAt(n, events, t, b.value.0, b.value.1, k);
        } else {
          StepOfOther(Run(n, before), e, t);
          PassedStill(n, events, t, b.value.0, b.value.1);
        }
      }
    }
  }

  /** A lock_write that is about to make its compare-exchange has, as its last two accesses, found the
      count at zero and then the flag clear. */
  lemma ZeroThenClear(n: nat, events: seq<Event>, t: nat) returns (a: nat, b: nat)
    requires t < n && PcOf(n, events, t).WriteCas?
    ensures LastAccess(events, t, b) && LastAccess(events[..b], t, a)
    ensures Run(n, events[..a]).readers == 0 && !Run(n, events[..b]).writer
  {
    TestPassed(n, events, t);
    b :| PassedAt(n, events, t, WriteFlag, FlagClear, b);
    TestPassed(n, events[..b], t);
    a :| PassedAt(n, events[..b], t, WriteCount, CountZero, a);
    assert events[..b][..a] == events[..a];
  }

  /** A lock_read raises the count only right after it has found the flag clear, and takes itself out
      again only right after it has found it set. */
  lemma RaisedAfterClear(n: nat, events: seq<Event>, t: nat) returns (k: nat)
    requires t < n && (PcOf(n, events, t).ReadAdd? || PcOf(n, events, t).ReadUndo?)
    ensures LastAccess(events, t, k) && Run(n, events[..k]).writer == PcOf(n, events, t).ReadUndo?
  {
    TestPassed(n, events, t);
    var b := Before(PcOf(n, events, t)).value;
    k :| PassedAt(n, events, t, b.0, b.1, k);
  }

  // ----- the window between reader and writer --------------------------------------------------------------

  /** Event number k is an access of thread t at one of the given places. */
  predicate AccessOf(n: nat, events: seq<Event>, t: nat, k: nat, at: set<Pc>)
    requires t < n
  {
    k < |events| && events[k].Access? && events[k].t == t && PcOf(n, events[..k], t) in at
  }

  /** The stamps of the model: a reader's last test of the flag and its add, a writer's test of the count
      and its compare-exchange. */
  datatype Stamp = Load | Add | Zero | Cas

  predicate Due(t: Thread, stamp: Stamp) {
    match stamp
    case Load => Entering(t.pc)
    case Add => Counted(t.pc)
    case Zero => PastZero(t)
    case Cas => t.pc.HoldW?
  }

  function Time(s: State, t: Thread, stamp: Stamp): nat {
    match stamp
    case Load => t.loadTime
    case Add => t.addTime
    case Zero => t.zeroTime
    case Cas => s.casTime
  }

  function Place(t: Thread, stamp: Stamp): set<Pc> {
    match stamp
    case Load => {TryReadFlag, ReadRecheck}
    case Add => {TryReadAdd, ReadAdd}
    case Zero => {WriteCount}
    case Cas => if t.checked then {WriteCas} else {TryWriteCas}
  }

  predicate MadeAt(n: nat, events: seq<Event>, t: nat, at: set<Pc>, time: nat, k: nat)
    requires t < n
  {
    AccessOf(n, events, t, k, at) && Run(n, events[..k]).clock == time
  }

  /** The access was made, and its time is the stamp. */
  ghost predicate Meant(n: nat, events: seq<Event>, t: nat, stamp: Stamp)
    requires t < n
  {
    var s := Run(n, events);
    var th := s.threads[t];
    Due(th, stamp) ==> exists k: nat :: MadeAt(n, events, t, Place(th, stamp), Time(s, th, stamp), k)
  }

  lemma MadeStill(n: nat, events: seq<Event>, t: nat, at: set<Pc>, time: nat, k: nat, last: nat)
    requires t < n && |events| == last + 1 && MadeAt(n, events[..last], t, at, time, k)
    ensures MadeAt(n, events, t, at, time, k)
  {
    assert events[..last][..k] == events[..k];
  }

  /** An own access either makes the stamp or leaves it. */
  lemma OwnStamp(s: State, t: nat, spurious: bool, stamp: Stamp)
    requires t < |s.threads|
    ensures var s' := Step(s, Access(t, spurious));
            var th, th' := s.threads[t], s'.threads[t];
            Due(th', stamp) ==>
              || (th.pc in Place(th', stamp) && Time(s', th', stamp) == s.clock)
              || (Due(th, stamp) && Place(th, stamp) == Place(th', stamp) && Time(s, th, stamp) == Time(s', th', stamp))
  {
  }

  lemma OtherStamp(s: State, e: Event, t: nat, stamp: Stamp)
    requires t < |s.threads| && !(e.Access? && e.t == t) && (s.threads[t].pc.HoldW? ==> s.writer)
    ensures var s' := Step(s, e);
            var th, th' := s.threads[t], s'.threads[t];
            Due(th', stamp) ==>
              Due(th, stamp) && Place(th, stamp) == Place(th', stamp) && Time(s, th, stamp) == Time(s', th', stamp)
  {
  }

  lemma {:induction false} StampMeant(n: nat, events: seq<Event>, t: nat, stamp: Stamp)
    requires t < n
    ensures Meant(n, events, t, stamp)
  {
    if events != [] {
      var last := |events| - 1;
      var before, e := events[..last], events[last];
      StampMeant(n, before, t, stamp);
      FlagAndCount(n, before);
      var s, s' := Run(n, before), Run(n, events);
      var th, th' := s.threads[t], s'.threads[t];
      var own := e.Access? && e.t == t;
      if own {
        OwnStamp(s, t, e.spurious, stamp);
      } else {
        OtherStamp(s, e, t, stamp);
      }
      if Due(th', stamp) {
        if own && th.pc in Place(th', stamp) && Time(s', th', stamp) == s.clock {
          assert MadeAt(n, events, t, Place(th', stamp), s.clock, last);
        } else {
          var k: nat :| MadeAt(n, before, t, Place(th, stamp), Time(s, th, stamp), k);
          MadeStill(n, events, t, Place(th, stamp), Time(s, th, stamp), k, last);
        }
      }
    }
  }

  lemma {:induction false} ClockGrows(n: nat, events: seq<Event>, j: nat, i: nat)
    requires j <= i <= |events|
    ensures Run(n, events[..j]).clock <= Run(n, events[..i]).clock
  {
    if j < i {
      ClockGrows(n, events, j, i - 1);
      assert events[..i][..i - 1] == events[..i - 1];
    }
  }

  lemma MadeBefore(n: nat, events: seq<Event>, t: nat, stamp: Stamp, t': nat, stamp': Stamp) returns (k: nat, k': nat)
    requires t < n && t' < n
    requires var s := Run(n, events);
             var th, th' := s.threads[t], s.threads[t'];
             Due(th, stamp) && Due(th', stamp') && Time(s, th, stamp) < Time(s, th', stamp')
    ensures k < k'
    ensures var s := Run(n, events);
            && AccessOf(n, events, t, k, Place(s.threads[t], stamp))
            && AccessOf(n, events, t', k', Place(s.threads[t'], stamp'))
  {
    StampMeant(n, events, t, stamp);
    StampMeant(n, events, t', stamp');
    var s := Run(n, events);
    var th, th' := s.threads[t], s.threads[t'];
    k :| MadeAt(n, events, t, Place(th, stamp), Time(s, th, stamp), k);
    k' :| MadeAt(n, events, t', Place(th', stamp'), Time(s, th', stamp'), k');
    if k' <= k {
      ClockGrows(n, events, k', k);
    }
  }

  /** While r holds the read side and w the write side, r's last test of the flag came before w's
      compare-exchange. */
  lemma TestBeforeCas(n: nat, events: seq<Event>, r: nat, w: nat) returns (test: nat, cas: nat)
    requires r < n && w < n && PcOf(n, events, r).HoldR? && PcOf(n, events, w).HoldW?
    ensures test < cas
    ensures AccessOf(n, events, r, test, {TryReadFlag, ReadRecheck})
    ensures AccessOf(n, events, w, cas, {WriteCas, TryWriteCas})
  {
    OverlapWindow(n, events, r, w);
    test, cas := MadeBefore(n, events, r, Load, w, Cas);
  }

  /** If w came through lock_write, its test of the count came before r's add. */
  lemma ZeroBeforeAdd(n: nat, events: seq<Event>, r: nat, w: nat, cas: nat) returns (zero: nat, add: nat)
    requires r < n && w < n && PcOf(n, events, r).HoldR? && PcOf(n, events, w).HoldW?
    requires LastAccess(events, w, cas) && PcOf(n, events[..cas], w).WriteCas?
    ensures zero < add
    ensures AccessOf(n, events, w, zero, {WriteCount}) && AccessOf(n, events, r, add, {TryReadAdd, ReadAdd})
  {
    OverlapWindow(n, events, r, w);
    CheckedMeans(n, events, w, cas);
    zero, add := MadeBefore(n, events, w, Zero, r, Add);
  }

  /** A thread that holds the write side made its compare-exchange last. */
  lemma {:induction false} CheckedMeans(n: nat, events: seq<Event>, w: nat, cas: nat)
    requires w < n && PcOf(n, events, w).HoldW? && LastAccess(events, w, cas)
    ensures PcOf(n, events[..cas], w) == if Run(n, events).threads[w].checked then WriteCas else TryWriteCas
  {
    var last := |events| - 1;
    var before := events[..last];
    if cas < last {
      assert LastAccess(before, w, cas) && before[..cas] == events[..cas];
      CheckedMeans(n, before, w, cas);
    }
  }
}
