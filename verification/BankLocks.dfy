/** SmallBank with a lock flag that collects one bit per lock taken, as its bits are meant:
    what the slots hold, at every single lock operation of every run. */
module BankLocks {
  import opened Bits
  import opened BankServer
  import opened BankProtocol

  predicate Within(f: Flags, g: Flags) {
    (f.c1 ==> g.c1) && (f.s1 ==> g.s1) && (f.c2 ==> g.c2) && (f.s2 ==> g.s2)
  }

  // ----- the rule for one slot -----------------------------------------------------------------

  /** The flag of a request being served says exactly what it has taken. */
  predicate WorkOk(w: Work) {
    match w
    case Free => true
    case Locking(m, stage, flag, failed) =>
      && m.LockReq? && Unaliased(m.u1, m.u2, flag) && Within(flag, m.locks)
      && (forall b: nat :: stage <= b < 4 ==> !Flag(flag, b))
      && (!failed ==> forall b: nat :: b < stage && Flag(m.locks, b) ==> Flag(flag, b))
    case Undoing(m, stage, flag) => m.LockReq? && Unaliased(m.u1, m.u2, flag)
    case Finishing(m, stage) => m.FinReq? && Unaliased(m.u1, m.u2, m.unlock)
  }

  /** The locks taken and not yet released by the packet being served. */
  function WorkLocks(w: Work): set<Mutex> {
    match w
    case Free => {}
    case Locking(m, stage, flag, failed) => if m.LockReq? then Named(m.u1, m.u2, flag, 0) else {}
    case Undoing(m, stage, flag) => if m.LockReq? then Named(m.u1, m.u2, flag, stage) else {}
    case Finishing(m, stage) =>
      if m.FinReq? then Named(m.u1, m.u2, m.unlock, if stage < 3 then 0 else stage - 3) else {}
  }

  /** The locks a slot should have. */
  function Locks(v: View): set<Mutex> {
    if !v.w.Free? then WorkLocks(v.w)
    else if Granted(v.m) then Named(v.sl.u1, v.sl.u2, v.sl.locks, 0)
    else {}
  }

  predicate Exact(own: set<Mutex>, v: View) {
    && own == Locks(v) && WorkOk(v.w)
    && (v.w.Free? && Granted(v.m) ==> Unaliased(v.sl.u1, v.sl.u2, v.sl.locks))
  }

  lemma ClientExact(own: set<Mutex>, v: View, r: nat, draws: seq<nat>)
    requires Sound(v, r) && v.w.Free? && IsReply(v.m) && Exact(own, v)
    ensures Exact(own, ClientView(v, draws))
  {
  }

  lemma TakeExact(own: set<Mutex>, v: View, r: nat)
    requires Sound(v, r) && v.w.Free? && IsRequest(v.m) && Exact(own, v)
    ensures Exact(own, TakeView(v))
  {
    if v.m.LockReq? {
      NamedNone(v.m.u1, v.m.u2, NO_FLAGS, 0);
    }
  }

  lemma StageUnaliased(u1: nat, u2: nat, f: Flags, b: nat)
    requires b < 4 && Unaliased(u1, u2, f)
    requires forall c: nat :: b <= c < 4 ==> !Flag(f, c)
    requires b >= 2 && Flag(f, b - 2) ==> MutexOf(u1, u2, b - 2) != MutexOf(u1, u2, b)
    ensures Unaliased(u1, u2, SetFlag(f, b))
  {
    assert b < 2 ==> !Flag(f, b + 2);
  }

  lemma LockExact(owner: map<Mutex, Owner>, o: Owner, w: Work)
    requires w.Locking? && w.stage < 4 && WorkOk(w) && Owned(owner, o.t, o.r) == WorkLocks(w)
    ensures var (owner', w') := LockStep(Intended, owner, o, w);
            && WorkOk(w') && Owned(owner', o.t, o.r) == WorkLocks(w')
            && forall t: nat, r: nat :: Owner(t, r) != o ==> Owned(owner', t, r) == Owned(owner, t, r)
  {
    var m, b, flag := w.m, w.stage, w.flag;
    var x := MutexOf(m.u1, m.u2, b);
    if !w.failed && Flag(m.locks, b) && x !in owner {
      TakeLock(owner, x, o);
      NamedSet(m.u1, m.u2, flag, b);
      SetFlagIs(flag, b);
      if b >= 2 && Flag(flag, b - 2) {
        NamedMember(m.u1, m.u2, flag, 0, b - 2);
        assert MutexOf(m.u1, m.u2, b - 2) in Owned(owner, o.t, o.r);
      }
      StageUnaliased(m.u1, m.u2, flag, b);
    }
  }

  /** Dropping the lock of flag b out of those from b on. */
  lemma UnlockExact(owner: map<Mutex, Owner>, o: Owner, u1: nat, u2: nat, f: Flags, b: nat)
    requires b < 4 && Unaliased(u1, u2, f) && Owned(owner, o.t, o.r) == Named(u1, u2, f, b)
    ensures var owner' := Unlock(owner, Flag(f, b), MutexOf(u1, u2, b));
            && Owned(owner', o.t, o.r) == Named(u1, u2, f, b + 1)
            && forall t: nat, r: nat :: Owner(t, r) != o ==> Owned(owner', t, r) == Owned(owner, t, r)
  {
    NamedStep(u1, u2, f, b);
    if Flag(f, b) {
      var x := MutexOf(u1, u2, b);
      NamedMember(u1, u2, f, b, b);
      assert x in Owned(owner, o.t, o.r);
      DropLock(owner, x);
    }
  }

  lemma ServeLocking(owner: map<Mutex, Owner>, o: Owner, v: View)
    requires Sound(v, o.r) && v.w.Locking? && Exact(Owned(owner, o.t, o.r), v)
    ensures ServeKeepsAt(Exact, Intended, owner, o, v)
  {
    var owner' := WorkStep(Intended, owner, o, v.w).0;
    if v.w.stage < 4 {
      LockExact(owner, o, v.w);
    } else if !v.w.failed {
      FlagsEqual(v.w.flag, v.w.m.locks);
    }
    SameFrame(Exact, owner, owner', o);
  }

  lemma ServeUndoing(owner: map<Mutex, Owner>, o: Owner, v: View)
    requires Sound(v, o.r) && v.w.Undoing? && Exact(Owned(owner, o.t, o.r), v)
    ensures ServeKeepsAt(Exact, Intended, owner, o, v)
  {
    var owner' := WorkStep(Intended, owner, o, v.w).0;
    if v.w.stage < 4 {
      UnlockExact(owner, o, v.w.m.u1, v.w.m.u2, v.w.flag, v.w.stage);
    } else {
      NamedNone(v.w.m.u1, v.w.m.u2, v.w.flag, 4);
    }
    SameFrame(Exact, owner, owner', o);
  }

  lemma ServeFinishing(owner: map<Mutex, Owner>, o: Owner, v: View)
    requires Sound(v, o.r) && v.w.Finishing? && Exact(Owned(owner, o.t, o.r), v)
    ensures ServeKeepsAt(Exact, Intended, owner, o, v)
  {
    var owner' := WorkStep(Intended, owner, o, v.w).0;
    if 3 <= v.w.stage < 7 {
      UnlockExact(owner, o, v.w.m.u1, v.w.m.u2, v.w.m.unlock, v.w.stage - 3);
    } else if v.w.stage >= 7 {
      NamedNone(v.w.m.u1, v.w.m.u2, v.w.m.unlock, 4);
    }
    SameFrame(Exact, owner, owner', o);
  }

  lemma ExactIsInductive()
    ensures Inductive(Exact, Intended)
  {
    forall own: set<Mutex>, v: View, r: nat, draws: seq<nat> |
      Sound(v, r) && v.w.Free? && IsReply(v.m) && Exact(own, v)
      ensures ClientKeepsAt(Exact, own, v, draws)
    {
      ClientExact(own, v, r, draws);
    }
    forall own: set<Mutex>, v: View, r: nat | Sound(v, r) && v.w.Free? && IsRequest(v.m) && Exact(own, v)
      ensures TakeKeepsAt(Exact, own, v)
    {
      TakeExact(own, v, r);
    }
    forall owner: map<Mutex, Owner>, o: Owner, v: View |
      Sound(v, o.r) && !v.w.Free? && Exact(Owned(owner, o.t, o.r), v)
      ensures ServeKeepsAt(Exact, Intended, owner, o, v)
    {
      match v.w
      case Locking(_, _, _, _) => ServeLocking(owner, o, v);
      case Undoing(_, _, _) => ServeUndoing(owner, o, v);
      case Finishing(_, _) => ServeFinishing(owner, o, v);
    }
  }

  // ----- main results -----------------------------------------------------------------------------

  /** The locks slot r of a thread should have, read off the one message it is waiting for. */
  ghost function Holding(th: Thread, r: nat): set<Mutex> {
    if r < |th.slots| && Present(Out(th), r) then
      var m :| m in Out(th) && Res(m) == r;
      Locks(ViewOf(th, m))
    else {}
  }

  lemma HoldingIsOwned(s: State, t: nat, r: nat)
    requires Inv(Exact, s) && t < |s.threads|
    ensures Owned(s.owner, t, r) == Holding(s.threads[t], r)
  {
    var th := s.threads[t];
    assert ThreadTalks(th);
    if Waiting(th) {
      NothingOwned(s, t, r);
    } else if r < SLOTS {
      assert Present(Out(th), r);
      var m :| m in Out(th) && Res(m) == r && Holding(th, r) == Locks(ViewOf(th, m));
      assert Exact(Owned(s.owner, t, Res(m)), ViewOf(th, m));
    }
  }

  /** The locked mutexes are the disjoint union of what the slots hold. */
  ghost predicate DisjointUnion(s: State) {
    && (forall x :: x in s.owner ==> exists t: nat, r: nat ::
          t < |s.threads| && x in Holding(s.threads[t], r))
    && (forall t: nat, r: nat :: t < |s.threads| ==> Holding(s.threads[t], r) <= s.owner.Keys)
    && (forall t: nat, r: nat, t': nat, r': nat ::
          t < |s.threads| && t' < |s.threads| && (t != t' || r != r') ==>
          Holding(s.threads[t], r) !! Holding(s.threads[t'], r'))
  }

  lemma UnionOfOwned(s: State)
    requires forall t: nat, r: nat :: t < |s.threads| ==> Holding(s.threads[t], r) == Owned(s.owner, t, r)
    requires OwnersExist(s)
    ensures DisjointUnion(s)
  {
    forall x | x in s.owner
      ensures exists t: nat, r: nat :: t < |s.threads| && x in Holding(s.threads[t], r)
    {
      var o := s.owner[x];
      assert x in Owned(s.owner, o.t, o.r);
      assert x in Holding(s.threads[o.t], o.r);
    }
    forall t: nat, r: nat, t': nat, r': nat | t < |s.threads| && t' < |s.threads| && (t != t' || r != r')
      ensures Holding(s.threads[t], r) !! Holding(s.threads[t'], r')
    {
      assert Owned(s.owner, t, r) !! Owned(s.owner, t', r');
    }
  }

  /** In every reachable state, at every single lock operation, the locked mutexes are the
      disjoint union of the lock sets of the slots: what a slot has locked so far during GET_LOCK,
      all it asked for between success and FINISH, what is not yet released during FINISH or after
      a failure, and nothing otherwise. */
  lemma HeldIsDisjointUnion(n: nat, events: seq<Event>)
    ensures DisjointUnion(Run(Intended, n, events))
  {
    ExactIsInductive();
    RunInv(Exact, Intended, n, events);
    var s := Run(Intended, n, events);
    forall t: nat, r: nat | t < |s.threads|
      ensures Holding(s.threads[t], r) == Owned(s.owner, t, r)
    {
      HoldingIsOwned(s, t, r);
    }
    UnionOfOwned(s);
  }

  /** What a reply says about the locks of its slot: success means all of them, failure and the
      FINISH reply mean none. */
  lemma RepliesAndLocks(n: nat, events: seq<Event>, t: nat, m: Msg)
    requires t < n && m in Run(Intended, n, events).threads[t].net && IsTxn(m)
    ensures var s := Run(Intended, n, events);
            Res(m) < |s.threads[t].slots| &&
            var sl := s.threads[t].slots[Res(m)];
            Owned(s.owner, t, Res(m)) == if Granted(m) then Named(sl.u1, sl.u2, sl.locks, 0) else {}
  {
    ExactIsInductive();
    RunInv(Exact, Intended, n, events);
    var s := Run(Intended, n, events);
    var th := s.threads[t];
    assert ThreadTalks(th);
    assert m in Out(th) && Exact(Owned(s.owner, t, Res(m)), ViewOf(th, m));
    OnceOnly(th, m);
  }
}
