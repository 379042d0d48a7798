/** SmallBank as the server is written: every trylock overwrites the lock flag, so that a refused
    request releases whatever the low bits of the failure code of the trylock name. Mutual
    exclusion survives for exactly one code, and so does the release of every lock for others. */
module BankLiteral {
  import opened Bits
  import opened Common
  import opened BankServer
  import opened BankProtocol
  import opened BankAlone

  /** The slot waiting for m was told that it has its locks and has not yet given them back. */
  predicate Holder(s: State, t: nat, m: Msg) {
    t < |s.threads| && m in s.threads[t].net && Granted(m) && Res(m) < |s.threads[t].slots|
  }

  /** The locks the slot waiting for m asked for. */
  function Asked(s: State, t: nat, m: Msg): set<Mutex>
    requires Holder(s, t, m)
  {
    var sl := s.threads[t].slots[Res(m)];
    Named(sl.u1, sl.u2, sl.locks, 0)
  }

  /** No two slots have been promised the same lock. */
  ghost predicate Exclusive(s: State) {
    forall t: nat, m, t': nat, m' ::
      Holder(s, t, m) && Holder(s, t', m') && (t != t' || Res(m) != Res(m')) ==> Asked(s, t, m) !! Asked(s, t', m')
  }

  /** While no server is busy, every locked mutex has a slot that will give it back. */
  ghost predicate NoLeak(s: State) {
    (forall t :: 0 <= t < |s.threads| ==> s.threads[t].work.Free?) ==>
      forall x :: x in s.owner ==> exists t: nat, m :: Holder(s, t, m) && x in Asked(s, t, m)
  }

  ghost predicate AlwaysExclusive(mode: Mode, n: nat) {
    forall events: seq<Event> :: Exclusive(Run(mode, n, events))
  }

  ghost predicate NeverLeaks(mode: Mode, n: nat) {
    forall events: seq<Event> :: NoLeak(Run(mode, n, events))
  }

  // ----- a failure code without bits: what a granted slot owns -----------------------------------------

  /** The slot owns at least what it was granted or has taken so far. */
  predicate Owns(own: set<Mutex>, u1: nat, u2: nat, f: Flags, from: nat) {
    Named(u1, u2, f, from) <= own && Unaliased(u1, u2, f)
  }

  predicate AtLeast(own: set<Mutex>, v: View) {
    match v.w
    case Free => Granted(v.m) ==> Owns(own, v.sl.u1, v.sl.u2, v.sl.locks, 0)
    case Locking(m, stage, flag, failed) =>
      m.LockReq? && (if failed then flag == NO_FLAGS else Owns(own, m.u1, m.u2, Below(m.locks, stage), 0))
    case Undoing(m, stage, flag) => flag == NO_FLAGS
    case Finishing(m, stage) =>
      m.FinReq? && Owns(own, m.u1, m.u2, m.unlock, if stage < 3 then 0 else stage - 3)
  }

  lemma TakeAtLeast(own: set<Mutex>, v: View, r: nat)
    requires Sound(v, r) && v.w.Free? && IsRequest(v.m) && AtLeast(own, v)
    ensures AtLeast(own, TakeView(v))
  {
    if v.m.LockReq? {
      BelowNext(v.m.locks, 0);
      NamedNone(v.m.u1, v.m.u2, NO_FLAGS, 0);
    }
  }

  lemma StageDistinct(u1: nat, u2: nat, locks: Flags, b: nat, own: set<Mutex>)
    requires b < 4 && Flag(locks, b) && Owns(own, u1, u2, Below(locks, b), 0) && MutexOf(u1, u2, b) !in own
    ensures Owns(own + {MutexOf(u1, u2, b)}, u1, u2, Below(locks, b + 1), 0)
  {
    var f := Below(locks, b);
    BelowNext(locks, b);
    NamedSet(u1, u2, f, b);
    if b >= 2 && Flag(f, b - 2) {
      NamedMember(u1, u2, f, 0, b - 2);
    }
  }

  lemma LockAtLeast(owner: map<Mutex, Owner>, o: Owner, w: Work)
    requires w.Locking? && w.m.LockReq? && w.stage < 4 && !w.failed
    requires Owns(Owned(owner, o.t, o.r), w.m.u1, w.m.u2, Below(w.m.locks, w.stage), 0)
    ensures var (owner', w') := LockStep(Literal(NO_FLAGS), owner, o, w);
            && (if w'.failed then w'.flag == NO_FLAGS
                else Owns(Owned(owner', o.t, o.r), w.m.u1, w.m.u2, Below(w.m.locks, w.stage + 1), 0))
            && forall t: nat, r: nat :: Owner(t, r) != o ==> Owned(owner', t, r) == Owned(owner, t, r)
  {
    var x := MutexOf(w.m.u1, w.m.u2, w.stage);
    BelowNext(w.m.locks, w.stage);
    if Flag(w.m.locks, w.stage) && x !in owner {
      TakeLock(owner, x, o);
      StageDistinct(w.m.u1, w.m.u2, w.m.locks, w.stage, Owned(owner, o.t, o.r));
    }
  }

  lemma UnlockAtLeast(owner: map<Mutex, Owner>, o: Owner, u1: nat, u2: nat, f: Flags, b: nat)
    requires b < 4 && Owns(Owned(owner, o.t, o.r), u1, u2, f, b)
    ensures var owner' := Unlock(owner, Flag(f, b), MutexOf(u1, u2, b));
            && Owns(Owned(owner', o.t, o.r), u1, u2, f, b + 1)
            && forall t: nat, r: nat :: Owner(t, r) != o ==> Owned(owner', t, r) == Owned(owner, t, r)
  {
    NamedStep(u1, u2, f, b);
    if Flag(f, b) {
      var x := MutexOf(u1, u2, b);
      NamedMember(u1, u2, f, b, b);
      assert x in Owned(owner, o.t, o.r);
      DropLock(owner, x);
    }
  }

  lemma ServeAtLeast(owner: map<Mutex, Owner>, o: Owner, v: View)
    requires Sound(v, o.r) && !v.w.Free? && AtLeast(Owned(owner, o.t, o.r), v)
    ensures ServeKeepsAt(AtLeast, Literal(NO_FLAGS), owner, o, v)
  {
    var owner' := WorkStep(Literal(NO_FLAGS), owner, o, v.w).0;
    match v.w
    case Locking(m, stage, flag, failed) =>
      if stage < 4 && !failed {
        LockAtLeast(owner, o, v.w);
      }
      BelowNext(m.locks, 3);
    case Undoing(m, stage, flag) =>
    case Finishing(m, stage) =>
      if 3 <= stage < 7 {
        UnlockAtLeast(owner, o, m.u1, m.u2, m.unlock, stage - 3);
      }
    SameFrame(AtLeast, owner, owner', o);
  }

  lemma AtLeastIsInductive()
    ensures Inductive(AtLeast, Literal(NO_FLAGS))
  {
    assert ClientKeeps(AtLeast);
    forall own: set<Mutex>, v: View, r: nat | Sound(v, r) && v.w.Free? && IsRequest(v.m) && AtLeast(own, v)
      ensures TakeKeepsAt(AtLeast, own, v)
    {
      TakeAtLeast(own, v, r);
    }
    forall owner: map<Mutex, Owner>, o: Owner, v: View |
      Sound(v, o.r) && !v.w.Free? && AtLeast(Owned(owner, o.t, o.r), v)
      ensures ServeKeepsAt(AtLeast, Literal(NO_FLAGS), owner, o, v)
    {
      ServeAtLeast(owner, o, v);
    }
  }

  lemma HolderOwns(s: State, t: nat, m: Msg)
    requires Inv(AtLeast, s) && Holder(s, t, m)
    ensures Asked(s, t, m) <= Owned(s.owner, t, Res(m))
  {
    var th := s.threads[t];
    assert ThreadTalks(th) && !Waiting(th);
    OnceOnly(th, m);
    assert m in Out(th) && AtLeast(Owned(s.owner, t, Res(m)), ViewOf(th, m));
  }

  lemma ExclusiveWithoutBits(n: nat, events: seq<Event>)
    ensures Exclusive(Run(Literal(NO_FLAGS), n, events))
  {
    AtLeastIsInductive();
    RunInv(AtLeast, Literal(NO_FLAGS), n, events);
    var s := Run(Literal(NO_FLAGS), n, events);
    forall t: nat, m, t': nat, m' |
      Holder(s, t, m) && Holder(s, t', m') && (t != t' || Res(m) != Res(m'))
      ensures Asked(s, t, m) !! Asked(s, t', m')
    {
      HolderOwns(s, t, m);
      HolderOwns(s, t', m');
      assert Owned(s.owner, t, Res(m)) !! Owned(s.owner, t', Res(m'));
    }
  }

  // ----- a failure code that releases user 1's checking lock: what can stay locked ------------------------

  /** The only lock a request can have taken before another one is refused. */
  function First(m: Msg): set<Mutex>
    requires m.LockReq?
  {
    if m.locks.c1 then {MutexOf(m.u1, m.u2, 0)} else {}
  }

  /** The slot owns at most what it was granted, has taken so far or has yet to give back. */
  predicate AtMost(own: set<Mutex>, v: View) {
    match v.w
    case Free => own <= if Granted(v.m) then Named(v.sl.u1, v.sl.u2, v.sl.locks, 0) else {}
    case Locking(m, stage, flag, failed) =>
      && m.LockReq? && FirstIsChecking(m.locks)
      && (if failed then flag.c1 && own <= First(m) else own <= Named(m.u1, m.u2, Below(m.locks, stage), 0))
    case Undoing(m, stage, flag) => m.LockReq? && flag.c1 && own <= if stage == 0 then First(m) else {}
    case Finishing(m, stage) =>
      m.FinReq? && own <= Named(m.u1, m.u2, m.unlock, if stage < 3 then 0 else stage - 3)
  }

  lemma TakeAtMost(own: set<Mutex>, v: View, r: nat)
    requires Sound(v, r) && v.w.Free? && IsRequest(v.m) && AtMost(own, v)
    ensures AtMost(own, TakeView(v))
  {
    if v.m.LockReq? {
      BelowNext(v.m.locks, 0);
      NamedNone(v.m.u1, v.m.u2, NO_FLAGS, 0);
    }
  }

  /** What was taken before a refused lock is at most the first one. */
  lemma TakenBefore(m: Msg, b: nat)
    requires m.LockReq? && FirstIsChecking(m.locks) && b < 4 && Flag(m.locks, b)
    ensures Named(m.u1, m.u2, Below(m.locks, b), 0) <= First(m)
  {
    forall x | x in Named(m.u1, m.u2, Below(m.locks, b), 0) ensures x in First(m) {
      var c: nat :| 0 <= c < 4 && Flag(Below(m.locks, b), c) && x == MutexOf(m.u1, m.u2, c);
    }
  }

  lemma LockAtMost(code: Flags, owner: map<Mutex, Owner>, o: Owner, v: View)
    requires code.c1 && v.w.Locking? && StageOk(v.w) && v.w.stage < 4 && AtMost(Owned(owner, o.t, o.r), v)
    ensures ServeKeepsAt(AtMost, Literal(code), owner, o, v)
  {
    var m, b := v.w.m, v.w.stage;
    var (owner', w') := LockStep(Literal(code), owner, o, v.w);
    var x := MutexOf(m.u1, m.u2, b);
    BelowNext(m.locks, b);
    if !v.w.failed && Flag(m.locks, b) {
      if x !in owner {
        TakeLock(owner, x, o);
        NamedSet(m.u1, m.u2, Below(m.locks, b), b);
      } else {
        TakenBefore(m, b);
      }
    }
    SameFrame(AtMost, owner, owner', o);
  }

  lemma ShrinkFrame(owner: map<Mutex, Owner>, owner': map<Mutex, Owner>, o: Owner)
    requires forall t: nat, r: nat :: Owned(owner', t, r) <= Owned(owner, t, r)
    ensures Frame(AtMost, owner, owner', o)
  {
  }

  lemma UnlockAtMost(owner: map<Mutex, Owner>, o: Owner, u1: nat, u2: nat, f: Flags, b: nat)
    requires b < 4 && Owned(owner, o.t, o.r) <= Named(u1, u2, f, b)
    ensures var owner' := Unlock(owner, Flag(f, b), MutexOf(u1, u2, b));
            && Owned(owner', o.t, o.r) <= Named(u1, u2, f, b + 1)
            && forall t: nat, r: nat :: Owned(owner', t, r) <= Owned(owner, t, r)
  {
    NamedFrom(u1, u2, f, b);
    DropLock(owner, MutexOf(u1, u2, b));
  }

  lemma UndoAtMost(code: Flags, owner: map<Mutex, Owner>, o: Owner, v: View)
    requires v.w.Undoing? && StageOk(v.w) && Sound(v, o.r) && AtMost(Owned(owner, o.t, o.r), v)
    ensures ServeKeepsAt(AtMost, Literal(code), owner, o, v)
  {
    var owner' := WorkStep(Literal(code), owner, o, v.w).0;
    DropLock(owner, MutexOf(v.w.m.u1, v.w.m.u2, v.w.stage));
    assert forall t: nat, r: nat :: Owned(owner', t, r) <= Owned(owner, t, r);
    ShrinkFrame(owner, owner', o);
  }

  lemma FinishAtMost(code: Flags, owner: map<Mutex, Owner>, o: Owner, v: View)
    requires v.w.Finishing? && StageOk(v.w) && Sound(v, o.r) && AtMost(Owned(owner, o.t, o.r), v)
    ensures ServeKeepsAt(AtMost, Literal(code), owner, o, v)
  {
    var m, owner' := v.w.m, WorkStep(Literal(code), owner, o, v.w).0;
    if 3 <= v.w.stage < 7 {
      UnlockAtMost(owner, o, m.u1, m.u2, m.unlock, v.w.stage - 3);
    } else if v.w.stage == 7 {
      NamedNone(m.u1, m.u2, m.unlock, 4);
    }
    ShrinkFrame(owner, owner', o);
  }

  lemma ServeAtMost(code: Flags, owner: map<Mutex, Owner>, o: Owner, v: View)
    requires code.c1 && Sound(v, o.r) && !v.w.Free? && AtMost(Owned(owner, o.t, o.r), v)
    ensures ServeKeepsAt(AtMost, Literal(code), owner, o, v)
  {
    match v.w
    case Locking(m, stage, flag, failed) =>
      if stage < 4 {
        LockAtMost(code, owner, o, v);
      } else {
        BelowNext(m.locks, 3);
        ShrinkFrame(owner, owner, o);
      }
    case Undoing(_, _, _) => UndoAtMost(code, owner, o, v);
    case Finishing(_, _) => FinishAtMost(code, owner, o, v);
  }

  lemma AtMostIsInductive(code: Flags)
    requires code.c1
    ensures Inductive(AtMost, Literal(code))
  {
    assert ClientKeeps(AtMost);
    forall own: set<Mutex>, v: View, r: nat | Sound(v, r) && v.w.Free? && IsRequest(v.m) && AtMost(own, v)
      ensures TakeKeepsAt(AtMost, own, v)
    {
      TakeAtMost(own, v, r);
    }
    forall owner: map<Mutex, Owner>, o: Owner, v: View |
      Sound(v, o.r) && !v.w.Free? && AtMost(Owned(owner, o.t, o.r), v)
      ensures ServeKeepsAt(AtMost, Literal(code), owner, o, v)
    {
      ServeAtMost(code, owner, o, v);
    }
  }

  lemma OwnerIsHolder(s: State, x: Mutex)
    requires Inv(AtMost, s) && x in s.owner
    requires forall t :: 0 <= t < |s.threads| ==> s.threads[t].work.Free?
    ensures exists t: nat, m :: Holder(s, t, m) && x in Asked(s, t, m)
  {
    var o := s.owner[x];
    var th := s.threads[o.t];
    assert ThreadTalks(th) && !Waiting(th);
    assert Present(Out(th), o.r);
    var m :| m in Out(th) && Res(m) == o.r;
    assert AtMost(Owned(s.owner, o.t, Res(m)), ViewOf(th, m));
    assert x in Owned(s.owner, o.t, o.r);
    assert Holder(s, o.t, m);
  }

  lemma NoLeakWithFirstBit(code: Flags, n: nat, events: seq<Event>)
    requires code.c1
    ensures NoLeak(Run(Literal(code), n, events))
  {
    AtMostIsInductive(code);
    RunInv(AtMost, Literal(code), n, events);
    var s := Run(Literal(code), n, events);
    if forall t :: 0 <= t < |s.threads| ==> s.threads[t].work.Free? {
      forall x | x in s.owner ensures exists t: nat, m :: Holder(s, t, m) && x in Asked(s, t, m) {
        OwnerIsHolder(s, x);
      }
    }
  }

  // ----- runs of one client thread ---------------------------------------------------------------------------

  /** Thread 0 has started and its server is free; no other thread has done anything. */
  ghost predicate OneStarted(s: State, slots: seq<Slot>, net: multiset<Msg>) {
    && |s.threads| > 0 && s.threads[0] == Thread(slots, net, Free)
    && forall t :: 0 < t < |s.threads| ==> s.threads[t].work.Free? && s.threads[t].net == multiset{Ping}
  }

  lemma Begin(mode: Mode, n: nat, draws: seq<nat>) returns (events: seq<Event>)
    requires n > 0
    ensures var slots := InitSlots(draws);
            OneStarted(Run(mode, n, events), slots, multiset(InitialRequests(slots)))
    ensures Run(mode, n, events).owner.Keys == {}
  {
    var e0: seq<Event> := [];
    var s := Run(mode, n, e0);
    RunAppend(mode, n, e0, Take(0, Ping));
    TakeWaiting(s.threads[0], Ping);
    var e1 := e0 + [Take(0, Ping)];
    assert multiset{Ping} - multiset{Ping} + multiset{PingResp} == multiset{PingResp};
    RunAppend(mode, n, e1, Client(0, PingResp, draws));
    StartOut(Run(mode, n, e1).threads[0], draws);
    events := e1 + [Client(0, PingResp, draws)];
  }

  /** The answer to the GET_LOCK of slot r replaces its GET_DATA. */
  function Answered(slots: seq<Slot>, net: multiset<Msg>, r: nat, ok: bool): multiset<Msg>
    requires r < |slots|
  {
    net - multiset{DataRequest(slots[r])} + multiset{LockResp(slots[r].reqId, ok)}
  }

  function Asking(slots: seq<Slot>, r: nat): seq<Slot>
    requires r < |slots|
  {
    slots[r := slots[r].(phase := AskLock)]
  }

  lemma Swap(net: multiset<Msg>, a: Msg, b: Msg, c: Msg)
    requires a in net
    ensures net - multiset{a} + multiset{b} - multiset{b} + multiset{c} == net - multiset{a} + multiset{c}
    ensures net - multiset{a} + multiset{b} - multiset{b} == net - multiset{a}
  {
  }

  lemma DataTurns(slots: seq<Slot>, net: multiset<Msg>, r: nat)
    requires r < |slots| && slots[r].reqId % SLOTS == r && DataRequest(slots[r]) in net
    ensures var sl := slots[r];
            var q, d, m := DataRequest(sl), DataResp(sl.reqId), LockReq(sl.reqId, sl.u1, sl.u2, sl.locks);
            var t1 := Thread(slots, net - multiset{q} + multiset{d}, Free);
            var t2 := Thread(Asking(slots, r), net - multiset{q} + multiset{m}, Free);
            && TakeStep(Thread(slots, net, Free), q) == t1 && ClientStep(t1, d, []) == t2
            && TakeStep(t2, m) == Thread(Asking(slots, r), net - multiset{q}, Locking(m, 0, NO_FLAGS, false))
  {
    var sl := slots[r];
    var q, d, m := DataRequest(sl), DataResp(sl.reqId), LockReq(sl.reqId, sl.u1, sl.u2, sl.locks);
    Swap(net, q, d, m);
    Swap(net, q, m, m);
  }

  /** Slot r of thread 0 gets its data and asks for its locks: the server has the request. */
  lemma AskLocks(mode: Mode, n: nat, events: seq<Event>, slots: seq<Slot>, net: multiset<Msg>, r: nat)
    returns (longer: seq<Event>)
    requires OneStarted(Run(mode, n, events), slots, net) && n > 0
    requires r < |slots| && slots[r].reqId % SLOTS == r && DataRequest(slots[r]) in net
    ensures var s, sl := Run(mode, n, events), slots[r];
            var m := LockReq(sl.reqId, sl.u1, sl.u2, sl.locks);
            Run(mode, n, longer) ==
            s.(threads := s.threads[0 := Thread(Asking(slots, r), net - multiset{DataRequest(sl)},
                                                Locking(m, 0, NO_FLAGS, false))])
  {
    var sl := slots[r];
    var q, d, m := DataRequest(sl), DataResp(sl.reqId), LockReq(sl.reqId, sl.u1, sl.u2, sl.locks);
    DataTurns(slots, net, r);
    RunAppend(mode, n, events, Take(0, q));
    var e1 := events + [Take(0, q)];
    RunAppend(mode, n, e1, Client(0, d, []));
    var e2 := e1 + [Client(0, d, [])];
    RunAppend(mode, n, e2, Take(0, m));
    longer := e2 + [Take(0, m)];
  }

  /** Slot r of thread 0, in a fresh state, runs up to the answer of its GET_LOCK. */
  lemma Request(mode: Mode, n: nat, events: seq<Event>, slots: seq<Slot>, net: multiset<Msg>, r: nat)
    returns (longer: seq<Event>)
    requires OneStarted(Run(mode, n, events), slots, net) && n > 0
    requires r < |slots| && slots[r].reqId % SLOTS == r && DataRequest(slots[r]) in net
    ensures var s, s', sl := Run(mode, n, events), Run(mode, n, longer), slots[r];
            var busy := Busy(s.owner.Keys, sl.u1, sl.u2, sl.locks);
            && OneStarted(s', Asking(slots, r), Answered(slots, net, r, !busy))
            && s'.owner.Keys == AfterGetLock(mode, s.owner.Keys, sl.u1, sl.u2, sl.locks)
  {
    var sl := slots[r];
    var m := LockReq(sl.reqId, sl.u1, sl.u2, sl.locks);
    longer := AskLocks(mode, n, events, slots, net, r);
    var steps := GetLockAlone(mode, n, longer, 0, m);
    longer := longer + Repeat(Serve(0, 0), steps);
  }

  /** The DATA requests of a started client are all there, and differ. */
  lemma InitialRequest(draws: seq<nat>, r: nat)
    requires r < SLOTS
    ensures var slots := InitSlots(draws);
            && slots[r] == InitSlot(r, Draw(draws, 2 * r), Draw(draws, 2 * r + 1))
            && slots[r].reqId == r && DataRequest(slots[r]) in multiset(InitialRequests(slots))
  {
    var slots := InitSlots(draws);
    assert InitialRequests(slots)[r] == DataRequest(slots[r]);
    InitSlotOk(r, Draw(draws, 2 * r), Draw(draws, 2 * r + 1));
  }

  lemma StillThere(slots: seq<Slot>, net: multiset<Msg>, r: nat, ok: bool, r2: nat)
    requires r < |slots| && r2 < |slots| && slots[r].reqId != slots[r2].reqId && DataRequest(slots[r2]) in net
    ensures DataRequest(Asking(slots, r)[r2]) in Answered(slots, net, r, ok)
  {
  }

  // ----- three requests for one lock ------------------------------------------------------------------------

  /** A refused request gives the lock away: the code has the bit of user 1 or of user 2, who are
      the same account here. */
  lemma RefusalReleases(code: Flags, locks: Flags, b: nat)
    requires b < 2 && locks == SetFlag(NO_FLAGS, b) && (Flag(code, b) || Flag(code, b + 2))
    ensures var mode, x := Literal(code), MutexOf(0, 0, b);
            && AfterGetLock(mode, {}, 0, 0, locks) == {x} && !Busy({}, 0, 0, locks)
            && AfterGetLock(mode, {x}, 0, 0, locks) == {} && Busy({x}, 0, 0, locks)
  {
    var x := MutexOf(0, 0, b);
    OneLock({}, 0, 0, locks, b);
    OneLock({x}, 0, 0, locks, b);
    NamedNone(0, 0, NO_FLAGS, 0);
    assert x == MutexOf(0, 0, b + 2);
    assert x in Named(0, 0, code, 0) by {
      NamedMember(0, 0, code, 0, if Flag(code, b) then b else b + 2);
    }
  }

  /** Slot i waits for its data and will ask for `locks` on account 0. */
  ghost predicate Ready(slots: seq<Slot>, net: multiset<Msg>, i: nat, locks: Flags) {
    && i < |slots| && i < SLOTS && slots[i].reqId == i && DataRequest(slots[i]) in net
    && slots[i].u1 == 0 && slots[i].u2 == 0 && slots[i].locks == locks
  }

  lemma ReadyStays(slots: seq<Slot>, net: multiset<Msg>, r: nat, ok: bool, i: nat, locks: Flags)
    requires Ready(slots, net, r, locks) && Ready(slots, net, i, locks) && i != r
    ensures Ready(Asking(slots, r), Answered(slots, net, r, ok), i, locks)
  {
  }

  lemma AskOne(code: Flags, n: nat, events: seq<Event>, slots: seq<Slot>, net: multiset<Msg>, i: nat, locks: Flags,
               b: nat)
    returns (longer: seq<Event>)
    requires n > 0 && OneStarted(Run(Literal(code), n, events), slots, net) && Ready(slots, net, i, locks)
    requires b < 2 && locks == SetFlag(NO_FLAGS, b) && (Flag(code, b) || Flag(code, b + 2))
    requires Run(Literal(code), n, events).owner.Keys in {{}, {MutexOf(0, 0, b)}}
    ensures var free := Run(Literal(code), n, events).owner.Keys == {};
            && OneStarted(Run(Literal(code), n, longer), Asking(slots, i), Answered(slots, net, i, free))
            && Run(Literal(code), n, longer).owner.Keys == if free then {MutexOf(0, 0, b)} else {}
  {
    RefusalReleases(code, locks, b);
    longer := Request(Literal(code), n, events, slots, net, i);
  }

  /** Two requests for one lock: the first is granted, the second refused, and the lock is free. */
  lemma TwoAsk(code: Flags, n: nat, e0: seq<Event>, sl0: seq<Slot>, net0: multiset<Msg>, r: nat, locks: Flags, b: nat)
    returns (events: seq<Event>, slots: seq<Slot>, net: multiset<Msg>)
    requires n > 0 && OneStarted(Run(Literal(code), n, e0), sl0, net0) && Run(Literal(code), n, e0).owner.Keys == {}
    requires b < 2 && locks == SetFlag(NO_FLAGS, b) && (Flag(code, b) || Flag(code, b + 2))
    requires |sl0| == SLOTS && Ready(sl0, net0, r, locks) && Ready(sl0, net0, r + 1, locks)
    requires Ready(sl0, net0, r + 2, locks)
    ensures OneStarted(Run(Literal(code), n, events), slots, net) && Run(Literal(code), n, events).owner.Keys == {}
    ensures |slots| == SLOTS && Ready(slots, net, r + 2, locks) && LockResp(r, true) in net
    ensures slots[r] == sl0[r].(phase := AskLock)
  {
    events := AskOne(code, n, e0, sl0, net0, r, locks, b);
    slots, net := Asking(sl0, r), Answered(sl0, net0, r, true);
    ReadyStays(sl0, net0, r, true, r + 1, locks);
    ReadyStays(sl0, net0, r, true, r + 2, locks);
    events := AskOne(code, n, events, slots, net, r + 1, locks, b);
    ReadyStays(slots, net, r + 1, false, r + 2, locks);
    slots, net := Asking(slots, r + 1), Answered(slots, net, r + 1, false);
  }

  lemma InitiallyReady(i: nat)
    requires 20 <= i < 23 || 45 <= i < 48
    ensures var slots := InitSlots([]);
            Ready(slots, multiset(InitialRequests(slots)), i, SetFlag(NO_FLAGS, if i < 23 then 0 else 1))
  {
    InitialRequest([], i);
  }

  /** Two of the DepositChecking slots (from 20 on) or TransactSavings slots (from 45 on) of a
      client that draws account 0 only. */
  lemma RefusedRun(code: Flags, n: nat, r: nat, b: nat, locks: Flags)
    returns (events: seq<Event>, slots: seq<Slot>, net: multiset<Msg>)
    requires n > 0 && ((r == 20 && b == 0) || (r == 45 && b == 1)) && (Flag(code, b) || Flag(code, b + 2))
    requires locks == SetFlag(NO_FLAGS, b)
    ensures OneStarted(Run(Literal(code), n, events), slots, net) && Run(Literal(code), n, events).owner.Keys == {}
    ensures |slots| == SLOTS && Ready(slots, net, r + 2, locks) && LockResp(r, true) in net
    ensures slots[r].u1 == 0 && slots[r].u2 == 0 && slots[r].locks == locks && slots[r].changed == locks
  {
    var sl0 := InitSlots([]);
    InitialRequest([], r);
    InitiallyReady(r);
    InitiallyReady(r + 1);
    InitiallyReady(r + 2);
    var e0 := Begin(Literal(code), n, []);
    events, slots, net := TwoAsk(code, n, e0, sl0, multiset(InitialRequests(sl0)), r, locks, b);
  }

  /** A third slot then gets the lock that the first one still thinks it has. */
  lemma GrantedTwiceRun(code: Flags, n: nat, r: nat, b: nat) returns (events: seq<Event>)
    requires n > 0 && ((r == 20 && b == 0) || (r == 45 && b == 1)) && (Flag(code, b) || Flag(code, b + 2))
    ensures !Exclusive(Run(Literal(code), n, events))
  {
    var locks := SetFlag(NO_FLAGS, b);
    var slots, net;
    events, slots, net := RefusedRun(code, n, r, b, locks);
    events := AskOne(code, n, events, slots, net, r + 2, locks, b);
    BothGranted(Run(Literal(code), n, events), slots, net, r, MutexOf(0, 0, b), locks, b);
  }

  lemma BothGranted(s: State, slots: seq<Slot>, net: multiset<Msg>, r: nat, x: Mutex, locks: Flags, b: nat)
    requires |slots| == SLOTS && r + 2 < SLOTS && b < 2 && locks == SetFlag(NO_FLAGS, b) && x == MutexOf(0, 0, b)
    requires OneStarted(s, Asking(slots, r + 2), Answered(slots, net, r + 2, true)) && LockResp(r, true) in net
    requires slots[r].u1 == 0 && slots[r].u2 == 0 && slots[r].locks == locks
    requires slots[r + 2].u1 == 0 && slots[r + 2].u2 == 0 && slots[r + 2].locks == locks && slots[r + 2].reqId == r + 2
    ensures !Exclusive(s)
  {
    var m, m' := LockResp(r, true), LockResp(r + 2, true);
    assert Holder(s, 0, m) && Holder(s, 0, m');
    OneLock({}, 0, 0, locks, b);
    assert x in Asked(s, 0, m) && x in Asked(s, 0, m');
  }

  /** Of the code as written: no two slots are ever promised the same lock, in any run, if and only
      if a failed trylock reports no low bit (or there is no client). */
  lemma ExclusiveIff(code: Flags, n: nat)
    ensures AlwaysExclusive(Literal(code), n) <==> n == 0 || code == NO_FLAGS
  {
    if code == NO_FLAGS {
      forall events: seq<Event> ensures Exclusive(Run(Literal(code), n, events)) {
        ExclusiveWithoutBits(n, events);
      }
    } else if n > 0 {
      var events;
      if code.c1 || code.c2 {
        events := GrantedTwiceRun(code, n, 20, 0);
      } else {
        events := GrantedTwiceRun(code, n, 45, 1);
      }
    }
  }

  // ----- a lock that nobody gives back --------------------------------------------------------------------------

  lemma Amalgamate(code: Flags, x: Mutex, y: Mutex)
    requires x == Mutex(Checking, 1) && y == Mutex(Savings, 0) && !code.c1
    ensures var locks := Flags(true, false, false, true);
            Busy({y}, 1, 0, locks) && x in AfterGetLock(Literal(code), {y}, 1, 0, locks)
  {
    var locks, one := Flags(true, false, false, true), Flags(true, false, false, false);
    assert MutexOf(1, 0, 0) == x && MutexOf(1, 0, 3) == y;
    assert SetFlag(NO_FLAGS, 0) == one;
    assert Acquire({y} + {x}, 1, 0, locks, 3, one) == (one, true);
    assert Acquire({y} + {x}, 1, 0, locks, 2, one) == (one, true);
    assert Acquire({y} + {x}, 1, 0, locks, 1, one) == (one, true);
    assert Acquire({y}, 1, 0, locks, 0, NO_FLAGS) == (one, true);
    NamedMember(1, 0, one, 0, 0);
    forall c: nat | c < 4 && Flag(code, c) ensures MutexOf(1, 0, c) != x {
    }
    assert x !in Named(1, 0, code, 0);
  }

  /** TransactSavings locks savings 0; an Amalgamate of accounts 1 and 0 takes checking 1, is
      refused at savings 0, and keeps checking 1 locked. */
  lemma LeakFrom(code: Flags, n: nat, e0: seq<Event>, sl0: seq<Slot>, net0: multiset<Msg>) returns (events: seq<Event>)
    requires n > 0 && !code.c1 && OneStarted(Run(Literal(code), n, e0), sl0, net0)
    requires Run(Literal(code), n, e0).owner.Keys == {}
    requires |sl0| == SLOTS && Ready(sl0, net0, 45, SetFlag(NO_FLAGS, 1))
    requires sl0[0].reqId == 0 && DataRequest(sl0[0]) in net0
    requires sl0[0].u1 == 1 && sl0[0].u2 == 0 && sl0[0].locks == Flags(true, false, false, true)
    ensures var s := Run(Literal(code), n, events);
            && OneStarted(s, Asking(Asking(sl0, 45), 0),
                          Answered(Asking(sl0, 45), Answered(sl0, net0, 45, true), 0, false))
            && Mutex(Checking, 1) in s.owner
  {
    var y := Mutex(Savings, 0);
    assert MutexOf(0, 0, 1) == y;
    OneLock({}, 0, 0, sl0[45].locks, 1);
    var e1 := Request(Literal(code), n, e0, sl0, net0, 45);
    assert Run(Literal(code), n, e1).owner.Keys == {y};
    StillThere(sl0, net0, 45, true, 0);
    Amalgamate(code, Mutex(Checking, 1), y);
    events := Request(Literal(code), n, e1, Asking(sl0, 45), Answered(sl0, net0, 45, true), 0);
  }

  lemma LeakRun(code: Flags, n: nat) returns (events: seq<Event>)
    requires n > 0 && !code.c1
    ensures !NoLeak(Run(Literal(code), n, events))
  {
    var draws, slots := [1], InitSlots([1]);
    InitialRequest(draws, 45);
    InitialRequest(draws, 0);
    var e0 := Begin(Literal(code), n, draws);
    events := LeakFrom(code, n, e0, slots, multiset(InitialRequests(slots)));
    OneLock({}, 0, 0, slots[45].locks, 1);
    OnlyOneHolds(Run(Literal(code), n, events), draws, Mutex(Checking, 1));
  }

  lemma NetOf(draws: seq<nat>, m: Msg)
    requires var slots := InitSlots(draws);
             m in Answered(Asking(slots, 45), Answered(slots, multiset(InitialRequests(slots)), 45, true), 0, false)
    ensures m.DataReq? || m == LockResp(InitSlots(draws)[45].reqId, true) || !Granted(m)
  {
    FirstRequests(draws);
    assert m in InitialRequests(InitSlots(draws)) || m.LockResp?;
  }

  /** What is left to show of a state: no holder asked for x. */
  lemma Leaked(s: State, x: Mutex)
    requires x in s.owner && forall t :: 0 <= t < |s.threads| ==> s.threads[t].work.Free?
    requires forall t: nat, m | Holder(s, t, m) :: x !in Asked(s, t, m)
    ensures !NoLeak(s)
  {
  }

  lemma HolderIs45(s: State, slots: seq<Slot>, net: multiset<Msg>, t: nat, m: Msg)
    requires OneStarted(s, slots, net) && Holder(s, t, m) && |slots| == SLOTS
    requires m in net ==> m == LockResp(45, true)
    ensures Asked(s, t, m) == Named(slots[45].u1, slots[45].u2, slots[45].locks, 0)
  {
    assert t == 0;
  }

  lemma OnlyOneHolds(s: State, draws: seq<nat>, x: Mutex)
    requires var slots := InitSlots(draws);
             && OneStarted(s, Asking(Asking(slots, 45), 0),
                           Answered(Asking(slots, 45), Answered(slots, multiset(InitialRequests(slots)), 45, true),
                                    0, false))
             && slots[45].reqId == 45 && x !in Named(slots[45].u1, slots[45].u2, slots[45].locks, 0)
    requires x in s.owner
    ensures !NoLeak(s)
  {
    var slots := InitSlots(draws);
    var sl, net := Asking(Asking(slots, 45), 0), s.threads[0].net;
    forall t: nat, m | Holder(s, t, m) ensures x !in Asked(s, t, m) {
      if m in net {
        NetOf(draws, m);
      }
      HolderIs45(s, sl, net, t, m);
    }
    Leaked(s, x);
  }

  /** Of the code as written: whenever no server is busy every locked mutex belongs to a slot that
      will give it back, in any run, if and only if the failure code has bit 0 (or there is no
      client): every transaction that takes two locks takes user 1's checking lock first. */
  lemma NoLeakIff(code: Flags, n: nat)
    ensures NeverLeaks(Literal(code), n) <==> n == 0 || code.c1
  {
    if code.c1 {
      forall events: seq<Event> ensures NoLeak(Run(Literal(code), n, events)) {
        NoLeakWithFirstBit(code, n, events);
      }
    } else if n > 0 {
      var events := LeakRun(code, n);
    } else {
      forall events: seq<Event> ensures NoLeak(Run(Literal(code), n, events)) {
        NobodyOwns(Literal(code), events);
      }
    }
  }

  lemma {:induction false} NobodyOwns(mode: Mode, events: seq<Event>)
    ensures Run(mode, 0, events).owner == map[]
  {
    if events != [] {
      NobodyOwns(mode, events[..|events| - 1]);
    }
  }

  /** The two conditions exclude each other: whatever a failed trylock reports, the code as
      written promises a lock twice in some run or leaks one in some run. */
  lemma NoCodeIsSafe(code: Flags, n: nat)
    requires n > 0
    ensures !AlwaysExclusive(Literal(code), n) || !NeverLeaks(Literal(code), n)
  {
    ExclusiveIff(code, n);
    NoLeakIff(code, n);
  }
}
