/** A SmallBank server thread that is left alone with one request: its small steps add up to
    what the request as a whole is defined to do. */
module BankAlone {
  import opened Bits
  import opened Common
  import opened BankServer
  import opened BankProtocol

  /** Work that writes no balance in its next step. */
  predicate Quiet(w: Work) { Typed(w) && (w.Finishing? ==> w.stage >= 3) }

  // ----- the work of one GET_LOCK ----------------------------------------------------------------

  /** k quiet steps lead from (owner, w) to (owner', w') without an answer. */
  predicate Reaches(mode: Mode, o: Owner, owner: map<Mutex, Owner>, w: Work, k: nat,
                    owner': map<Mutex, Owner>, w': Work)
    decreases k
  {
    if k == 0 then owner' == owner && w' == w
    else
      Quiet(w) &&
      var (next, turn) := WorkStep(mode, owner, o, w);
      turn.More? && Reaches(mode, o, next, turn.w, k - 1, owner', w')
  }

  lemma {:induction false} ReachesThen(mode: Mode, o: Owner, owner: map<Mutex, Owner>, w: Work, j: nat,
                                       owner1: map<Mutex, Owner>, w1: Work, k: nat,
                                       owner2: map<Mutex, Owner>, w2: Work)
    requires Reaches(mode, o, owner, w, j, owner1, w1) && Reaches(mode, o, owner1, w1, k, owner2, w2)
    ensures Reaches(mode, o, owner, w, j + k, owner2, w2)
    decreases j
  {
    if j > 0 {
      var (next, turn) := WorkStep(mode, owner, o, w);
      ReachesThen(mode, o, next, turn.w, j - 1, owner1, w1, k, owner2, w2);
    }
  }

  /** What the trylock stages from b on promise: they take what `Acquire` takes. */
  predicate Trylocked(mode: Mode, keys: set<Mutex>, m: Msg, b: nat, failed: bool, taken: Flags,
                      flag': Flags, busy: bool, keys': set<Mutex>)
    requires m.LockReq?
  {
    var (tk, bs) := if failed then (taken, true) else Acquire(keys, m.u1, m.u2, m.locks, b, taken);
    && busy == bs
    && keys' + Named(m.u1, m.u2, taken, 0) == keys + Named(m.u1, m.u2, tk, 0)
    && keys <= keys'
    && (mode.Intended? ==> flag' == tk)
    && (busy && mode.Literal? ==> flag' == mode.code)
  }

  lemma TookKeys(u1: nat, u2: nat, keys: set<Mutex>, b: nat, taken: Flags, tk: Flags, keys': set<Mutex>)
    requires b < 4 && MutexOf(u1, u2, b) in Named(u1, u2, tk, 0) && keys + {MutexOf(u1, u2, b)} <= keys'
    requires keys' + Named(u1, u2, SetFlag(taken, b), 0) == keys + {MutexOf(u1, u2, b)} + Named(u1, u2, tk, 0)
    ensures keys' + Named(u1, u2, taken, 0) == keys + Named(u1, u2, tk, 0)
  {
    NamedSet(u1, u2, taken, b);
  }

  lemma TookOne(mode: Mode, keys: set<Mutex>, m: Msg, b: nat, taken: Flags, flag': Flags, busy: bool,
                keys': set<Mutex>)
    requires m.LockReq? && b < 4 && Flag(m.locks, b) && MutexOf(m.u1, m.u2, b) !in keys
    requires Trylocked(mode, keys + {MutexOf(m.u1, m.u2, b)}, m, b + 1, false, SetFlag(taken, b), flag', busy, keys')
    ensures Trylocked(mode, keys, m, b, false, taken, flag', busy, keys')
  {
    var x := MutexOf(m.u1, m.u2, b);
    var tk := Acquire(keys + {x}, m.u1, m.u2, m.locks, b + 1, SetFlag(taken, b)).0;
    AcquireGrows(keys + {x}, m.u1, m.u2, m.locks, b + 1, SetFlag(taken, b));
    SetFlagIs(taken, b);
    NamedMember(m.u1, m.u2, tk, 0, b);
    TookKeys(m.u1, m.u2, keys, b, taken, tk, keys');
  }

  lemma TookNone(mode: Mode, keys: set<Mutex>, m: Msg, b: nat, failed: bool, taken: Flags, flag': Flags, busy: bool,
                 keys': set<Mutex>)
    requires m.LockReq? && b < 4 && !(!failed && Flag(m.locks, b) && MutexOf(m.u1, m.u2, b) !in keys)
    requires Trylocked(mode, keys, m, b + 1, failed || Flag(m.locks, b), taken, flag', busy, keys')
    ensures Trylocked(mode, keys, m, b, failed, taken, flag', busy, keys')
  {
  }

  lemma LockOne(mode: Mode, o: Owner, owner: map<Mutex, Owner>, m: Msg, b: nat, flag: Flags, failed: bool)
    requires m.LockReq? && b < 4
    ensures var (owner1, w1) := LockStep(mode, owner, o, Locking(m, b, flag, failed));
            var takes := !failed && Flag(m.locks, b) && MutexOf(m.u1, m.u2, b) !in owner;
            && WorkStep(mode, owner, o, Locking(m, b, flag, failed)) == (owner1, More(w1))
            && owner1.Keys == owner.Keys + (if takes then {MutexOf(m.u1, m.u2, b)} else {})
            && w1 == Locking(m, b + 1, w1.flag, !takes && (failed || Flag(m.locks, b)))
            && (mode.Intended? ==> w1.flag == if takes then SetFlag(flag, b) else flag)
            && (mode.Literal? && !takes ==> w1.flag == if failed || !Flag(m.locks, b) then flag else mode.code)
  {
  }

  lemma ReachesMore(mode: Mode, o: Owner, owner: map<Mutex, Owner>, w: Work, owner1: map<Mutex, Owner>, w1: Work,
                    k: nat, owner': map<Mutex, Owner>, w': Work)
    requires Quiet(w) && WorkStep(mode, owner, o, w) == (owner1, More(w1))
    requires Reaches(mode, o, owner1, w1, k, owner', w')
    ensures Reaches(mode, o, owner, w, k + 1, owner', w')
  {
  }

  lemma {:induction false} TrylocksAlone(mode: Mode, o: Owner, owner: map<Mutex, Owner>, m: Msg, b: nat,
                                         flag: Flags, failed: bool, taken: Flags)
    returns (flag': Flags, busy: bool, owner': map<Mutex, Owner>)
    requires m.LockReq? && b <= 4
    requires mode.Intended? ==> flag == taken
    requires failed && mode.Literal? ==> flag == mode.code
    ensures Reaches(mode, o, owner, Locking(m, b, flag, failed), 4 - b, owner', Locking(m, 4, flag', busy))
    ensures Trylocked(mode, owner.Keys, m, b, failed, taken, flag', busy, owner'.Keys)
    decreases 4 - b
  {
    if b == 4 {
      flag', busy, owner' := flag, failed, owner;
    } else {
      var takes := !failed && Flag(m.locks, b) && MutexOf(m.u1, m.u2, b) !in owner;
      var (owner1, w1) := LockStep(mode, owner, o, Locking(m, b, flag, failed));
      LockOne(mode, o, owner, m, b, flag, failed);
      flag', busy, owner' :=
        TrylocksAlone(mode, o, owner1, m, b + 1, w1.flag, w1.failed, if takes then SetFlag(taken, b) else taken);
      ReachesMore(mode, o, owner, Locking(m, b, flag, failed), owner1, w1, 3 - b, owner', Locking(m, 4, flag', busy));
      if takes {
        TookOne(mode, owner.Keys, m, b, taken, flag', busy, owner'.Keys);
      } else {
        TookNone(mode, owner.Keys, m, b, failed, taken, flag', busy, owner'.Keys);
      }
    }
  }

  lemma {:induction false} UnlocksAlone(mode: Mode, o: Owner, owner: map<Mutex, Owner>, m: Msg, b: nat, flag: Flags)
    returns (owner': map<Mutex, Owner>)
    requires m.LockReq? && b <= 4
    ensures Reaches(mode, o, owner, Undoing(m, b, flag), 4 - b, owner', Undoing(m, 4, flag))
    ensures owner'.Keys == owner.Keys - Named(m.u1, m.u2, flag, b)
    decreases 4 - b
  {
    owner' := owner;
    if b == 4 {
      NamedNone(m.u1, m.u2, flag, 4);
    } else {
      NamedFrom(m.u1, m.u2, flag, b);
      owner' := UnlocksAlone(mode, o, Unlock(owner, Flag(flag, b), MutexOf(m.u1, m.u2, b)), m, b + 1, flag);
    }
  }

  lemma NamedFrom(u1: nat, u2: nat, f: Flags, b: nat)
    requires b < 4
    ensures Named(u1, u2, f, b) ==
            Named(u1, u2, f, b + 1) + (if Flag(f, b) then {MutexOf(u1, u2, b)} else {})
  {
    forall y | y in Named(u1, u2, f, b)
      ensures y in Named(u1, u2, f, b + 1) + (if Flag(f, b) then {MutexOf(u1, u2, b)} else {})
    {
      var c: nat :| b <= c < 4 && Flag(f, c) && y == MutexOf(u1, u2, c);
      if c > b {
        NamedMember(u1, u2, f, b + 1, c);
      }
    }
    if Flag(f, b) {
      NamedMember(u1, u2, f, b, b);
    }
    forall y | y in Named(u1, u2, f, b + 1) ensures y in Named(u1, u2, f, b) {
      var c: nat :| b + 1 <= c < 4 && Flag(f, c) && y == MutexOf(u1, u2, c);
      NamedMember(u1, u2, f, b, c);
    }
  }

  lemma RefusedAlone(mode: Mode, o: Owner, owner: map<Mutex, Owner>, m: Msg, flag: Flags, five: nat)
    returns (owner': map<Mutex, Owner>)
    requires m.LockReq? && five == 5
    ensures Reaches(mode, o, owner, Locking(m, 4, flag, true), five, owner', Undoing(m, 4, flag))
    ensures owner'.Keys == owner.Keys - Named(m.u1, m.u2, flag, 0)
  {
    owner' := UnlocksAlone(mode, o, owner, m, 0, flag);
    assert WorkStep(mode, owner, o, Locking(m, 4, flag, true)) == (owner, More(Undoing(m, 0, flag)));
  }

  lemma KeysAfterTrylocks(mode: Mode, keys: set<Mutex>, m: Msg, flag': Flags, busy: bool, keys': set<Mutex>)
    requires m.LockReq? && Trylocked(mode, keys, m, 0, false, NO_FLAGS, flag', busy, keys')
    ensures busy == Busy(keys, m.u1, m.u2, m.locks)
    ensures AfterGetLock(mode, keys, m.u1, m.u2, m.locks) ==
            if busy then keys' - Named(m.u1, m.u2, flag', 0) else keys'
  {
    NamedNone(m.u1, m.u2, NO_FLAGS, 0);
  }

  /** A whole GET_LOCK: after k steps the answer is due, and the locks are those of the request
      processed in one piece. */
  lemma WorkAlone(mode: Mode, o: Owner, owner: map<Mutex, Owner>, m: Msg)
    returns (k: nat, owner': map<Mutex, Owner>, w: Work)
    requires m.LockReq?
    ensures var busy := Busy(owner.Keys, m.u1, m.u2, m.locks);
            && k == (if busy then 9 else 4)
            && Reaches(mode, o, owner, Locking(m, 0, NO_FLAGS, false), k, owner', w)
            && Quiet(w) && w.m == m
            && WorkStep(mode, owner', o, w) == (owner', Done(LockResp(m.n, !busy)))
            && owner'.Keys == AfterGetLock(mode, owner.Keys, m.u1, m.u2, m.locks)
  {
    var flag', busy, owner4 := TrylocksAlone(mode, o, owner, m, 0, NO_FLAGS, false, NO_FLAGS);
    KeysAfterTrylocks(mode, owner.Keys, m, flag', busy, owner4.Keys);
    k, owner', w := 4, owner4, Locking(m, 4, flag', busy);
    if busy {
      var five: nat := 5;
      owner' := RefusedAlone(mode, o, owner4, m, flag', five);
      ReachesThen(mode, o, owner, Locking(m, 0, NO_FLAGS, false), k, owner4, w, five, owner', Undoing(m, 4, flag'));
      k, w := k + five, Undoing(m, 4, flag');
    }
  }

  // ----- as part of a run --------------------------------------------------------------------------

  lemma RunAppend(mode: Mode, n: nat, events: seq<Event>, e: Event)
    ensures Run(mode, n, events + [e]) == Step(mode, Run(mode, n, events), e)
  {
    assert (events + [e])[..|events|] == events;
  }

  function WithWork(s: State, t: nat, w: Work, owner: map<Mutex, Owner>): State
    requires t < |s.threads|
  {
    State(s.threads[t := s.threads[t].(work := w)], owner, s.balance)
  }

  lemma WithWorkTwice(s: State, t: nat, w: Work, owner: map<Mutex, Owner>, w': Work, owner': map<Mutex, Owner>)
    requires t < |s.threads|
    ensures WithWork(WithWork(s, t, w, owner), t, w', owner') == WithWork(s, t, w', owner')
    ensures WithWork(s, t, s.threads[t].work, s.owner) == s
  {
    var th := s.threads[t];
    assert th.(work := w).(work := w') == th.(work := w');
    assert s.threads[t := th.(work := w)][t := th.(work := w')] == s.threads[t := th.(work := w')];
    assert s.threads[t := th] == s.threads;
  }

  lemma ServeMore(mode: Mode, s: State, t: nat)
    requires t < |s.threads| && Quiet(s.threads[t].work)
    requires WorkStep(mode, s.owner, Owner(t, Res(s.threads[t].work.m)), s.threads[t].work).1.More?
    ensures var (owner', turn) := WorkStep(mode, s.owner, Owner(t, Res(s.threads[t].work.m)), s.threads[t].work);
            && ServeStep(mode, s, t, 0) == WithWork(s, t, turn.w, owner')
            && !turn.w.Free? && turn.w.m == s.threads[t].work.m
  {
  }

  lemma {:induction false} RunReaches(mode: Mode, n: nat, events: seq<Event>, t: nat, k: nat,
                                      owner': map<Mutex, Owner>, w': Work)
    requires t < n
    requires var s := Run(mode, n, events);
             !s.threads[t].work.Free? &&
             Reaches(mode, Owner(t, Res(s.threads[t].work.m)), s.owner, s.threads[t].work, k, owner', w')
    ensures Run(mode, n, events + Repeat(Serve(t, 0), k)) == WithWork(Run(mode, n, events), t, w', owner')
    decreases k
  {
    var s := Run(mode, n, events);
    if k == 0 {
      assert events + Repeat(Serve(t, 0), k) == events;
      WithWorkTwice(s, t, w', owner', w', owner');
    } else {
      ServeMore(mode, s, t);
      RunAppend(mode, n, events, Serve(t, 0));
      var (owner1, turn) := WorkStep(mode, s.owner, Owner(t, Res(s.threads[t].work.m)), s.threads[t].work);
      RunReaches(mode, n, events + [Serve(t, 0)], t, k - 1, owner', w');
      assert events + Repeat(Serve(t, 0), k) == events + [Serve(t, 0)] + Repeat(Serve(t, 0), k - 1);
      WithWorkTwice(s, t, turn.w, owner1, w', owner');
    }
  }

  lemma ServeDone(mode: Mode, s: State, t: nat, w: Work, owner: map<Mutex, Owner>, m2: Msg)
    requires t < |s.threads| && Quiet(w)
    requires WorkStep(mode, owner, Owner(t, Res(w.m)), w) == (owner, Done(m2))
    ensures ServeStep(mode, WithWork(s, t, w, owner), t, 0) ==
            State(s.threads[t := Go(s.threads[t], Done(m2))], owner, s.balance)
  {
    var th := s.threads[t];
    assert Go(th.(work := w), Done(m2)) == Go(th, Done(m2));
    assert s.threads[t := th.(work := w)][t := Go(th, Done(m2))] == s.threads[t := Go(th, Done(m2))];
  }

  lemma RunDone(mode: Mode, n: nat, events: seq<Event>, t: nat, k: nat, owner': map<Mutex, Owner>, w: Work, m2: Msg)
    requires t < n && !Run(mode, n, events).threads[t].work.Free? && Quiet(w)
    requires var s := Run(mode, n, events);
             && Reaches(mode, Owner(t, Res(s.threads[t].work.m)), s.owner, s.threads[t].work, k, owner', w)
             && WorkStep(mode, owner', Owner(t, Res(w.m)), w) == (owner', Done(m2))
    ensures var s := Run(mode, n, events);
            Run(mode, n, events + Repeat(Serve(t, 0), k + 1)) ==
            State(s.threads[t := Go(s.threads[t], Done(m2))], owner', s.balance)
  {
    RunReaches(mode, n, events, t, k, owner', w);
    var before := events + Repeat(Serve(t, 0), k);
    RunAppend(mode, n, before, Serve(t, 0));
    ServeDone(mode, Run(mode, n, events), t, w, owner', m2);
    assert events + Repeat(Serve(t, 0), k + 1) == before + [Serve(t, 0)];
  }

  /** The step-by-step server, left alone with a GET_LOCK request, does what the request as a
      whole is defined to do, in the collecting and in the overwriting form: 5 steps to grant it,
      10 to refuse it. */
  lemma GetLockAlone(mode: Mode, n: nat, events: seq<Event>, t: nat, m: Msg) returns (steps: nat)
    requires t < n && m.LockReq? && Run(mode, n, events).threads[t].work == Locking(m, 0, NO_FLAGS, false)
    ensures var s, s' := Run(mode, n, events), Run(mode, n, events + Repeat(Serve(t, 0), steps));
            var busy := Busy(s.owner.Keys, m.u1, m.u2, m.locks);
            && steps == (if busy then 10 else 5)
            && s'.owner.Keys == AfterGetLock(mode, s.owner.Keys, m.u1, m.u2, m.locks)
            && s'.threads == s.threads[t := Go(s.threads[t], Done(LockResp(m.n, !busy)))]
  {
    var s := Run(mode, n, events);
    var k, owner', w := WorkAlone(mode, Owner(t, Res(m)), s.owner, m);
    RunDone(mode, n, events, t, k, owner', w, LockResp(m.n, !Busy(s.owner.Keys, m.u1, m.u2, m.locks)));
    steps := k + 1;
  }
}
