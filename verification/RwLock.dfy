/** The reader/writer spinlock: an atomic reader count and an atomic writer flag, used by any
    number of threads. Every atomic access is one step; a compare-exchange of the weak kind may
    fail spuriously. */
module RwLock {

  datatype Op = LockRead | TryLockRead | LockWrite | TryLockWrite

  /** Where a thread stands; the name is the access it makes next. HoldR and HoldW make the
      access of unlock_read and unlock_write. */
  datatype Pc =
    | Idle
    | ReadFlag | ReadAdd | ReadRecheck | ReadUndo | HoldR
    | TryReadFlag | TryReadAdd
    | WriteCount | WriteFlag | WriteCas | TryWriteCas | HoldW

  /** loadTime: when the thread last saw the flag clear on its way in; addTime: when it last
      raised the count; zeroTime: when it last saw the count at zero; checked: it came through
      lock_write. These are not variables of the lock. */
  datatype Thread = Thread(pc: Pc, loadTime: nat, addTime: nat, zeroTime: nat, checked: bool)

  /** casTime: when the flag was last set. */
  datatype State = State(readers: int, writer: bool, threads: seq<Thread>, clock: nat, casTime: nat)

  datatype Event = Begin(t: nat, op: Op) | Access(t: nat, spurious: bool)

  function Start(n: nat): State {
    State(0, false, seq(n, i => Thread(Idle, 0, 0, 0, false)), 1, 0)
  }

  function Entry(op: Op): Pc {
    match op
    case LockRead => ReadFlag
    case TryLockRead => TryReadFlag
    case LockWrite => WriteCount
    case TryLockWrite => TryWriteCas
  }

  /** The thread after its next access. */
  function Moved(s: State, t: Thread, spurious: bool): Thread {
    match t.pc
    case Idle => t
    case ReadFlag => if s.writer then t else t.(pc := ReadAdd)
    case ReadAdd => t.(pc := ReadRecheck, addTime := s.clock)
    case ReadRecheck => if s.writer then t.(pc := ReadUndo) else t.(pc := HoldR, loadTime := s.clock)
    case ReadUndo => t.(pc := ReadFlag)
    case HoldR => t.(pc := Idle)
    case TryReadFlag => if s.writer then t.(pc := Idle) else t.(pc := TryReadAdd, loadTime := s.clock)
    case TryReadAdd => t.(pc := HoldR, addTime := s.clock)
    case WriteCount => if s.readers != 0 then t else t.(pc := WriteFlag, zeroTime := s.clock)
    case WriteFlag => if s.writer then t.(pc := WriteCount) else t.(pc := WriteCas)
    case WriteCas =>
      if s.writer || spurious then t.(pc := WriteCount) else t.(pc := HoldW, checked := true)
    case TryWriteCas => if s.writer then t.(pc := Idle) else t.(pc := HoldW, checked := false)
    case HoldW => t.(pc := Idle)
  }

  /** The thread counts in readers_count; the thread owns the writer flag. */
  predicate Counted(pc: Pc) { pc.ReadRecheck? || pc.ReadUndo? || pc.HoldR? }

  function NewReaders(s: State, pc: Pc): int {
    match pc
    case ReadAdd => s.readers + 1
    case TryReadAdd => s.readers + 1
    case ReadUndo => s.readers - 1
    case HoldR => s.readers - 1
    case _ => s.readers
  }

  predicate SetsFlag(s: State, pc: Pc, spurious: bool) {
    !s.writer && ((pc.WriteCas? && !spurious) || pc.TryWriteCas?)
  }

  function Step(s: State, e: Event): (s': State)
    ensures |s'.threads| == |s.threads|
  {
    if e.t >= |s.threads| then s
    else
      var t := s.threads[e.t];
      match e
      case Begin(i, op) =>
        if t.pc.Idle? then s.(threads := s.threads[i := t.(pc := Entry(op))], clock := s.clock + 1) else s
      case Access(i, spurious) =>
        var acquires := SetsFlag(s, t.pc, spurious);
        State(NewReaders(s, t.pc),
              if acquires then true else if t.pc.HoldW? then false else s.writer,
              s.threads[i := Moved(s, t, spurious)], s.clock + 1,
              if acquires then s.clock else s.casTime)
  }

  function Run(n: nat, events: seq<Event>): (s: State)
    ensures |s.threads| == n
  {
    if events == [] then Start(n) else Step(Run(n, events[..|events| - 1]), events[|events| - 1])
  }

  // ----- counting -------------------------------------------------------------------------

  function CountReaders(ts: seq<Thread>): nat {
    if ts == [] then 0 else (if Counted(ts[0].pc) then 1 else 0) + CountReaders(ts[1..])
  }

  function CountWriters(ts: seq<Thread>): nat {
    if ts == [] then 0 else (if ts[0].pc.HoldW? then 1 else 0) + CountWriters(ts[1..])
  }

  lemma {:induction false} CountUpdate(ts: seq<Thread>, i: nat, t: Thread)
    requires i < |ts|
    ensures CountReaders(ts[i := t]) ==
            CountReaders(ts) - (if Counted(ts[i].pc) then 1 else 0) + (if Counted(t.pc) then 1 else 0)
    ensures CountWriters(ts[i := t]) ==
            CountWriters(ts) - (if ts[i].pc.HoldW? then 1 else 0) + (if t.pc.HoldW? then 1 else 0)
  {
    if i == 0 {
      assert ts[0 := t][1..] == ts[1..];
    } else {
      CountUpdate(ts[1..], i - 1, t);
      assert ts[i := t][1..] == ts[1..][i - 1 := t];
    }
  }

  lemma {:induction false} CountZero(n: nat)
    ensures CountReaders(Start(n).threads) == 0 && CountWriters(Start(n).threads) == 0
  {
    if n > 0 {
      CountZero(n - 1);
      assert Start(n).threads[1..] == Start(n - 1).threads;
    }
  }

  lemma {:induction false} CountedAtLeast(ts: seq<Thread>, i: nat)
    requires i < |ts|
    ensures Counted(ts[i].pc) ==> CountReaders(ts) >= 1
    ensures ts[i].pc.HoldW? ==> CountWriters(ts) >= 1
  {
    if i > 0 {
      CountedAtLeast(ts[1..], i - 1);
    }
  }

  lemma {:induction false} TwoWriters(ts: seq<Thread>, i: nat, j: nat)
    requires i < j < |ts| && ts[i].pc.HoldW? && ts[j].pc.HoldW?
    ensures CountWriters(ts) >= 2
  {
    if i == 0 {
      CountedAtLeast(ts[1..], j - 1);
    } else {
      TwoWriters(ts[1..], i - 1, j - 1);
    }
  }

  lemma {:induction false} SomeWriter(ts: seq<Thread>) returns (i: nat)
    requires CountWriters(ts) >= 1
    ensures i < |ts| && ts[i].pc.HoldW?
  {
    if ts[0].pc.HoldW? {
      i := 0;
    } else {
      i := SomeWriter(ts[1..]);
      i := i + 1;
    }
  }

  // ----- invariant --------------------------------------------------------------------------

  predicate CountInv(s: State) {
    && s.readers == CountReaders(s.threads)
    && CountWriters(s.threads) == (if s.writer then 1 else 0)
  }

  /** Past the zero test of lock_write, or holding after it. */
  predicate PastZero(t: Thread) {
    t.pc.WriteFlag? || t.pc.WriteCas? || (t.pc.HoldW? && t.checked)
  }

  predicate Entering(pc: Pc) { pc.HoldR? || pc.TryReadAdd? }

  predicate Stamped(s: State) {
    forall i :: 0 <= i < |s.threads| ==>
      s.threads[i].loadTime < s.clock && s.threads[i].addTime < s.clock && s.threads[i].zeroTime < s.clock
  }

  /** While the flag is set, whoever is entering saw it clear before it was set. */
  predicate FlagOrder(s: State) {
    s.writer ==> forall i :: 0 <= i < |s.threads| && Entering(s.threads[i].pc) ==>
      s.threads[i].loadTime < s.casTime
  }

  predicate AddedAfter(reader: Thread, writer: Thread) {
    Counted(reader.pc) && PastZero(writer) ==> writer.zeroTime < reader.addTime
  }

  /** Whoever counts was added after every pending zero test. */
  predicate CountOrder(s: State) {
    forall i, j :: 0 <= i < |s.threads| && 0 <= j < |s.threads| ==>
      AddedAfter(s.threads[i], s.threads[j])
  }

  predicate TimeInv(s: State) {
    Stamped(s) && FlagOrder(s) && CountOrder(s)
  }

  lemma StepKeepsCount(s: State, e: Event)
    requires CountInv(s)
    ensures CountInv(Step(s, e))
  {
    if e.t < |s.threads| {
      var s' := Step(s, e);
      CountUpdate(s.threads, e.t, s'.threads[e.t]);
      CountedAtLeast(s.threads, e.t);
    }
  }

  lemma NoneCounted(s: State)
    requires CountInv(s) && s.readers == 0
    ensures forall i :: 0 <= i < |s.threads| ==> !Counted(s.threads[i].pc)
  {
    forall i | 0 <= i < |s.threads|
      ensures !Counted(s.threads[i].pc)
    {
      CountedAtLeast(s.threads, i);
    }
  }

  lemma ReaderMoves(s: State, r: Thread, w: Thread, spurious: bool)
    requires AddedAfter(r, w) && w.zeroTime < s.clock
    ensures AddedAfter(Moved(s, r, spurious), w)
  {
  }

  lemma WriterMoves(s: State, r: Thread, w: Thread, spurious: bool)
    requires AddedAfter(r, w) && (s.readers == 0 ==> !Counted(r.pc))
    ensures AddedAfter(r, Moved(s, w, spurious))
  {
  }

  lemma StepKeepsCountOrder(s: State, e: Event)
    requires CountInv(s) && Stamped(s) && CountOrder(s)
    ensures CountOrder(Step(s, e))
  {
    var s' := Step(s, e);
    if s.readers == 0 {
      NoneCounted(s);
    }
    forall i, j | 0 <= i < |s.threads| && 0 <= j < |s.threads|
      ensures AddedAfter(s'.threads[i], s'.threads[j])
    {
      assert AddedAfter(s.threads[i], s.threads[j]);
      if e.Access? && i != j {
        ReaderMoves(s, s.threads[i], s.threads[j], e.spurious);
        WriterMoves(s, s.threads[i], s.threads[j], e.spurious);
      }
    }
  }

  lemma StepKeepsStamps(s: State, e: Event)
    requires Stamped(s)
    ensures Stamped(Step(s, e))
  {
  }

  lemma StepKeepsFlagOrder(s: State, e: Event)
    requires Stamped(s) && FlagOrder(s)
    ensures FlagOrder(Step(s, e))
  {
  }

  lemma StepKeepsTime(s: State, e: Event)
    requires CountInv(s) && TimeInv(s)
    ensures TimeInv(Step(s, e))
  {
    StepKeepsCountOrder(s, e);
    StepKeepsStamps(s, e);
    StepKeepsFlagOrder(s, e);
  }

  lemma {:induction false} RunInv(n: nat, events: seq<Event>)
    ensures CountInv(Run(n, events)) && TimeInv(Run(n, events)) && |Run(n, events).threads| == n
  {
    if events == [] {
      CountZero(n);
    } else {
      RunInv(n, events[..|events| - 1]);
      StepKeepsCount(Run(n, events[..|events| - 1]), events[|events| - 1]);
      StepKeepsTime(Run(n, events[..|events| - 1]), events[|events| - 1]);
    }
  }

  // ----- what holds ---------------------------------------------------------------------------

  /** For any number of threads: the flag is set exactly while one thread holds the write side,
      and no two do; the count is the number of threads between their add and their subtract. */
  lemma FlagAndCount(n: nat, events: seq<Event>)
    ensures var s := Run(n, events);
            && s.readers == CountReaders(s.threads)
            && (s.writer <==> exists i :: 0 <= i < n && s.threads[i].pc.HoldW?)
            && (forall i, j :: 0 <= i < j < n ==> !(s.threads[i].pc.HoldW? && s.threads[j].pc.HoldW?))
  {
    RunInv(n, events);
    var s := Run(n, events);
    if s.writer {
      var i := SomeWriter(s.threads);
    }
    forall i | 0 <= i < n && s.threads[i].pc.HoldW? ensures s.writer {
      CountedAtLeast(s.threads, i);
    }
    forall i, j | 0 <= i < j < n && s.threads[i].pc.HoldW? && s.threads[j].pc.HoldW? ensures false {
      TwoWriters(s.threads, i, j);
    }
  }

  /** No lock_read completes while a thread holds the write side. */
  lemma LockReadSeesNoWriter(n: nat, events: seq<Event>, t: nat, spurious: bool)
    requires t < n && Run(n, events).threads[t].pc.ReadRecheck?
    requires Step(Run(n, events), Access(t, spurious)).threads[t].pc.HoldR?
    ensures forall j :: 0 <= j < n ==> !Run(n, events).threads[j].pc.HoldW?
  {
    FlagAndCount(n, events);
  }

  /** Reader and writer overlap only through the one window the code leaves open: the reader saw
      the flag clear before the writer's compare-exchange, and, if the writer came through
      lock_write, raised the count after the writer had seen it at zero. */
  lemma OverlapWindow(n: nat, events: seq<Event>, r: nat, w: nat)
    requires r < n && w < n
    requires Run(n, events).threads[r].pc.HoldR? && Run(n, events).threads[w].pc.HoldW?
    ensures var s := Run(n, events);
            && s.threads[r].loadTime < s.casTime
            && (s.threads[w].checked ==> s.threads[w].zeroTime < s.threads[r].addTime)
  {
    RunInv(n, events);
    FlagAndCount(n, events);
    var s := Run(n, events);
    assert AddedAfter(s.threads[r], s.threads[w]);
  }

  // ----- when exclusion holds ------------------------------------------------------------------

  ghost predicate Overlap(s: State) {
    exists r, w :: 0 <= r < |s.threads| && 0 <= w < |s.threads|
      && s.threads[r].pc.HoldR? && s.threads[w].pc.HoldW?
  }

  predicate Uses(events: seq<Event>, ops: set<Op>) {
    forall i :: 0 <= i < |events| && events[i].Begin? ==> events[i].op in ops
  }

  predicate Reads(ops: set<Op>) { LockRead in ops || TryLockRead in ops }
  predicate Writes(ops: set<Op>) { LockWrite in ops || TryLockWrite in ops }

  predicate ReadSide(pc: Pc) {
    Counted(pc) || pc.ReadFlag? || pc.ReadAdd? || pc.TryReadFlag? || pc.TryReadAdd?
  }

  predicate WriteSide(pc: Pc) {
    pc.WriteCount? || pc.WriteFlag? || pc.WriteCas? || pc.TryWriteCas? || pc.HoldW?
  }

  lemma {:induction false} SidesInUse(n: nat, events: seq<Event>, ops: set<Op>)
    requires Uses(events, ops)
    ensures forall i :: 0 <= i < |Run(n, events).threads| ==>
      && (ReadSide(Run(n, events).threads[i].pc) ==> Reads(ops))
      && (WriteSide(Run(n, events).threads[i].pc) ==> Writes(ops))
  {
    if events != [] {
      var before := events[..|events| - 1];
      assert Uses(before, ops);
      SidesInUse(n, before, ops);
      var s, e := Run(n, before), events[|events| - 1];
      if e.t < |s.threads| {
        assert Step(s, e).threads == s.threads[e.t := Step(s, e).threads[e.t]];
      }
    }
  }

  lemma RunAppend(n: nat, events: seq<Event>, e: Event)
    ensures Run(n, events + [e]) == Step(Run(n, events), e)
  {
    var es := events + [e];
    assert es[..|es| - 1] == events;
  }

  /** Thread 1 goes up to its compare-exchange. */
  function WriterApproach(op: Op): seq<Event> {
    if op == LockWrite then [Begin(1, op)] + [Access(1, false)] + [Access(1, false)] else [Begin(1, op)]
  }

  predicate Poised(n: nat, s: State) {
    && |s.threads| == n && n >= 2 && !s.writer && s.readers == 0
    && s.threads[0].pc.Idle? && (s.threads[1].pc.WriteCas? || s.threads[1].pc.TryWriteCas?)
  }

  lemma Approach(n: nat, op: Op)
    requires n >= 2 && (op == LockWrite || op == TryLockWrite)
    ensures Poised(n, Run(n, WriterApproach(op)))
  {
    RunAppend(n, [], Begin(1, op));
    assert [] + [Begin(1, op)] == [Begin(1, op)];
    assert Run(n, []) == Start(n);
    if op == LockWrite {
      RunAppend(n, [Begin(1, op)], Access(1, false));
      RunAppend(n, [Begin(1, op)] + [Access(1, false)], Access(1, false));
    }
  }

  /** Thread 0 takes the read side, and only then thread 1 makes its compare-exchange. */
  function OverlapRun(r: Op, w: Op): seq<Event> {
    var entered := WriterApproach(w) + [Begin(0, r)] + [Access(0, false)] + [Access(0, false)];
    (if r == LockRead then entered + [Access(0, false)] else entered) + [Access(1, false)]
  }

  predicate ReaderIn(n: nat, s: State) {
    && |s.threads| == n && n >= 2 && !s.writer
    && s.threads[0].pc.HoldR? && (s.threads[1].pc.WriteCas? || s.threads[1].pc.TryWriteCas?)
  }

  function Enter(s: State, r: Op): State {
    var s3 := Step(Step(Step(s, Begin(0, r)), Access(0, false)), Access(0, false));
    if r == LockRead then Step(s3, Access(0, false)) else s3
  }

  lemma ReaderEnters(n: nat, s: State, r: Op)
    requires Poised(n, s) && (r == LockRead || r == TryLockRead)
    ensures ReaderIn(n, Enter(s, r))
  {
    var s1 := Step(s, Begin(0, r));
    assert s1.threads == s.threads[0 := s.threads[0].(pc := Entry(r))];
    var s2 := Step(s1, Access(0, false));
    assert !s2.writer && s2.threads[1] == s.threads[1];
    var s3 := Step(s2, Access(0, false));
    assert !s3.writer && s3.threads[1] == s.threads[1];
  }

  lemma WriterFollows(n: nat, s: State)
    requires ReaderIn(n, s)
    ensures Overlap(Step(s, Access(1, false)))
  {
    var s' := Step(s, Access(1, false));
    assert s'.threads[0].pc.HoldR? && s'.threads[1].pc.HoldW?;
  }

  lemma OverlapHappens(n: nat, r: Op, w: Op)
    requires n >= 2 && (r == LockRead || r == TryLockRead) && (w == LockWrite || w == TryLockWrite)
    ensures Overlap(Run(n, OverlapRun(r, w)))
  {
    var e0 := WriterApproach(w);
    Approach(n, w);
    ReaderEnters(n, Run(n, e0), r);
    var e1 := e0 + [Begin(0, r)];
    var e2 := e1 + [Access(0, false)];
    var e3 := e2 + [Access(0, false)];
    var e4 := if r == LockRead then e3 + [Access(0, false)] else e3;
    assert Run(n, e4) == Enter(Run(n, e0), r) by {
      RunAppend(n, e0, Begin(0, r));
      RunAppend(n, e1, Access(0, false));
      RunAppend(n, e2, Access(0, false));
      RunAppend(n, e3, Access(0, false));
    }
    RunAppend(n, e4, Access(1, false));
    WriterFollows(n, Run(n, e4));
  }

  lemma OverlapRunUses(r: Op, w: Op, ops: set<Op>)
    requires r in ops && w in ops
    ensures Uses(OverlapRun(r, w), ops)
  {
  }

  ghost predicate Excludes(n: nat, ops: set<Op>) {
    forall events: seq<Event> :: Uses(events, ops) ==> !Overlap(Run(n, events))
  }

  /** Readers and writers exclude each other in every run if and only if they cannot meet: fewer
      than two threads, or no read operation, or no write operation in use. Every one of the four
      pairs of a read and a write operation can overlap. */
  lemma ExcludesIffNeverMeet(n: nat, ops: set<Op>)
    ensures Excludes(n, ops) <==> n < 2 || !Reads(ops) || !Writes(ops)
  {
    if n < 2 || !Reads(ops) || !Writes(ops) {
      forall events: seq<Event> | Uses(events, ops)
        ensures !Overlap(Run(n, events))
      {
        RunInv(n, events);
        SidesInUse(n, events, ops);
      }
    } else {
      var r := if LockRead in ops then LockRead else TryLockRead;
      var w := if LockWrite in ops then LockWrite else TryLockWrite;
      OverlapHappens(n, r, w);
      var events := OverlapRun(r, w);
      OverlapRunUses(r, w, ops);
    }
  }
}
