/** The balances FINISH writes: which entries change, to which values, and under whose locks. */
module BankWrites {
  import opened Common
  import opened BankServer
  import opened BankProtocol
  import opened BankLocks
  import opened BankAlone
  import opened BankLiteral

  /** A balance that was never written still has its initial value. */
  function BalanceOf(balance: map<Mutex, nat>, x: Mutex): nat {
    if x in balance then balance[x] else HALF_MAX
  }

  // ----- writes happen under the writer's own lock ------------------------------------------------------

  /** The event changes the balance of x. */
  predicate Changes(mode: Mode, s: State, e: Event, x: Mutex) {
    BalanceOf(Step(mode, s, e).balance, x) != BalanceOf(s.balance, x)
  }

  /** The event is a step of a server thread, and the slot it works for has locked x. */
  predicate UnderOwnLock(s: State, e: Event, x: Mutex) {
    && e.Serve? && e.t < |s.threads| && !s.threads[e.t].work.Free?
    && x in s.owner && s.owner[x] == Owner(e.t, Res(s.threads[e.t].work.m))
  }

  /** Whatever happens next, a balance that changes is changed by the slot that has locked it. */
  ghost predicate WritesLocked(mode: Mode, s: State) {
    forall e: Event, x: Mutex :: Changes(mode, s, e, x) ==> UnderOwnLock(s, e, x)
  }

  ghost predicate AlwaysWritesLocked(mode: Mode, n: nat) {
    forall events: seq<Event> :: WritesLocked(mode, Run(mode, n, events))
  }

  /** FINISH is about to write a balance. */
  predicate Writing(w: Work) {
    Typed(w) && w.Finishing? && w.stage < 3 && Flag(w.m.changed, w.stage)
  }

  function Target(w: Work): Mutex
    requires Writing(w)
  {
    MutexOf(w.m.u1, w.m.u2, w.stage)
  }

  lemma OnlyTargetChanges(mode: Mode, s: State, e: Event, x: Mutex)
    requires Changes(mode, s, e, x)
    ensures e.Serve? && e.t < |s.threads| && Writing(s.threads[e.t].work) && x == Target(s.threads[e.t].work)
  {
  }

  /** Every balance about to be written is locked by its writer. */
  ghost predicate TargetsOwned(s: State) {
    forall t: nat :: t < |s.threads| && Writing(s.threads[t].work) ==>
      Target(s.threads[t].work) in Owned(s.owner, t, Res(s.threads[t].work.m))
  }

  lemma OwnedTargets(mode: Mode, s: State)
    requires TargetsOwned(s)
    ensures WritesLocked(mode, s)
  {
    forall e: Event, x: Mutex | Changes(mode, s, e, x) ensures UnderOwnLock(s, e, x) {
      OnlyTargetChanges(mode, s, e, x);
    }
  }

  lemma WriterOwns(s: State, t: nat)
    requires Inv(AtLeast, s) && t < |s.threads| && Writing(s.threads[t].work)
    ensures Target(s.threads[t].work) in Owned(s.owner, t, Res(s.threads[t].work.m))
  {
    var th, w := s.threads[t], s.threads[t].work;
    assert ThreadTalks(th);
    WorkSound(th);
    assert w.m in Out(th) && AtLeast(Owned(s.owner, t, Res(w.m)), ViewOf(th, w.m));
    NamedMember(w.m.u1, w.m.u2, w.m.unlock, 0, w.stage);
  }

  lemma WriterOwnsExactly(s: State, t: nat)
    requires Inv(Exact, s) && t < |s.threads| && Writing(s.threads[t].work)
    ensures Target(s.threads[t].work) in Owned(s.owner, t, Res(s.threads[t].work.m))
  {
    var th, w := s.threads[t], s.threads[t].work;
    assert ThreadTalks(th);
    WorkSound(th);
    assert w.m in Out(th) && Exact(Owned(s.owner, t, Res(w.m)), ViewOf(th, w.m));
    NamedMember(w.m.u1, w.m.u2, w.m.unlock, 0, w.stage);
  }

  /** With the collecting flag: in every run, whatever happens next, a balance changes only in a step of
      the server thread whose slot has locked it. */
  lemma WritesAreLocked(n: nat)
    ensures AlwaysWritesLocked(Intended, n)
  {
    ExactIsInductive();
    forall events: seq<Event> ensures WritesLocked(Intended, Run(Intended, n, events)) {
      RunInv(Exact, Intended, n, events);
      var s := Run(Intended, n, events);
      forall t: nat | t < |s.threads| && Writing(s.threads[t].work)
        ensures Target(s.threads[t].work) in Owned(s.owner, t, Res(s.threads[t].work.m))
      {
        WriterOwnsExactly(s, t);
      }
      OwnedTargets(Intended, s);
    }
  }

  // ----- the code as written -------------------------------------------------------------------------------

  function Finished(slots: seq<Slot>, r: nat): Msg
    requires r < |slots|
  {
    FinReq(r, slots[r].u1, slots[r].u2, slots[r].locks, slots[r].changed)
  }

  lemma FinishSent(slots: seq<Slot>, net: multiset<Msg>, r: nat)
    requires |slots| == SLOTS && r < SLOTS && LockResp(r, true) in net
    ensures ClientStep(Thread(slots, net, Free), LockResp(r, true), []) ==
            Thread(slots[r := slots[r].(phase := AskFinish)],
                   net - multiset{LockResp(r, true)} + multiset{Finished(slots, r)}, Free)
  {
  }

  lemma FinishTaken(mode: Mode, s: State, slots: seq<Slot>, net: multiset<Msg>, r: nat)
    requires OneStarted(s, slots, net) && |slots| == SLOTS && r < SLOTS && LockResp(r, true) in net
    ensures var s' := Step(mode, Step(mode, s, Client(0, LockResp(r, true), [])), Take(0, Finished(slots, r)));
            s'.owner == s.owner && s'.threads[0].work == Finishing(Finished(slots, r), 0)
  {
    FinishSent(slots, net, r);
    var th := ClientStep(Thread(slots, net, Free), LockResp(r, true), []);
    assert Finished(slots, r) in th.net && th.work.Free?;
  }

  lemma StartFinish(mode: Mode, n: nat, events: seq<Event>, slots: seq<Slot>, net: multiset<Msg>, r: nat)
    returns (longer: seq<Event>)
    requires n > 0 && OneStarted(Run(mode, n, events), slots, net)
    requires |slots| == SLOTS && r < SLOTS && LockResp(r, true) in net
    ensures var s, s' := Run(mode, n, events), Run(mode, n, longer);
            s'.owner == s.owner && s'.threads[0].work == Finishing(Finished(slots, r), 0)
  {
    var g, m := LockResp(r, true), Finished(slots, r);
    RunAppend(mode, n, events, Client(0, g, []));
    var e1 := events + [Client(0, g, [])];
    RunAppend(mode, n, e1, Take(0, m));
    longer := e1 + [Take(0, m)];
    FinishTaken(mode, Run(mode, n, events), slots, net, r);
  }

  /** The write itself: a value that differs goes into a balance that nobody has locked. */
  lemma UnlockedWrite(mode: Mode, s: State)
    requires |s.threads| > 0 && Writing(s.threads[0].work) && Target(s.threads[0].work) !in s.owner
    ensures !WritesLocked(mode, s)
  {
    var x := Target(s.threads[0].work);
    var e := Serve(0, BalanceOf(s.balance, x) + 1);
    assert Changes(mode, s, e, x) && !UnderOwnLock(s, e, x);
  }

  /** The first slot finishes although its lock was given away. */
  lemma UnlockedWriteRun(code: Flags, n: nat, r: nat, b: nat) returns (events: seq<Event>)
    requires n > 0 && ((r == 20 && b == 0) || (r == 45 && b == 1)) && (Flag(code, b) || Flag(code, b + 2))
    ensures !WritesLocked(Literal(code), Run(Literal(code), n, events))
  {
    var mode, locks := Literal(code), SetFlag(NO_FLAGS, b);
    var slots, net;
    events, slots, net := RefusedRun(code, n, r, b, locks);
    events := StartFinish(mode, n, events, slots, net, r);
    if b == 1 {
      RunAppend(mode, n, events, Serve(0, 0));
      events := events + [Serve(0, 0)];
    }
    UnlockedWrite(mode, Run(mode, n, events));
  }

  /** Of the code as written: in every run a balance changes only in a step of the server thread whose
      slot has locked it, if and only if a failed trylock reports no low bit (or there is no client). */
  lemma WritesLockedIff(code: Flags, n: nat)
    ensures AlwaysWritesLocked(Literal(code), n) <==> n == 0 || code == NO_FLAGS
  {
    if code == NO_FLAGS {
      AtLeastIsInductive();
      forall events: seq<Event> ensures WritesLocked(Literal(code), Run(Literal(code), n, events)) {
        RunInv(AtLeast, Literal(code), n, events);
        var s := Run(Literal(code), n, events);
        forall t: nat | t < |s.threads| && Writing(s.threads[t].work)
          ensures Target(s.threads[t].work) in Owned(s.owner, t, Res(s.threads[t].work.m))
        {
          WriterOwns(s, t);
        }
        OwnedTargets(Literal(code), s);
      }
    } else if n > 0 {
      var events;
      if code.c1 || code.c2 {
        events := UnlockedWriteRun(code, n, 20, 0);
      } else {
        events := UnlockedWriteRun(code, n, 45, 1);
      }
    }
  }

  // ----- FINISH left alone ----------------------------------------------------------------------------------

  /** What FINISH promises of the balances, as the contract of Bank.Finish says it. */
  ghost predicate Wrote(balance: map<Mutex, nat>, balance': map<Mutex, nat>, m: Msg, v: Balances)
    requires m.FinReq?
  {
    && (forall x: Mutex :: x !in Named(m.u1, m.u2, m.changed.(s2 := false), 0) ==>
          BalanceOf(balance', x) == BalanceOf(balance, x))
    && (m.changed.c1 && !(m.changed.c2 && m.u1 == m.u2) ==> BalanceOf(balance', Mutex(Checking, m.u1)) == v.c1)
    && (m.changed.s1 ==> BalanceOf(balance', Mutex(Savings, m.u1)) == v.s1)
    && (m.changed.c2 ==> BalanceOf(balance', Mutex(Checking, m.u2)) == v.c2)
  }

  /** The balances after the three writing steps. */
  function Written3(balance: map<Mutex, nat>, m: Msg, v: Balances): map<Mutex, nat>
    requires m.FinReq?
  {
    Written(Written(Written(balance, Finishing(m, 0), v.c1), Finishing(m, 1), v.s1), Finishing(m, 2), v.c2)
  }

  lemma WritesThree(balance: map<Mutex, nat>, m: Msg, v: Balances)
    requires m.FinReq?
    ensures Wrote(balance, Written3(balance, m, v), m, v)
  {
    var f := m.changed.(s2 := false);
    if m.changed.c1 {
      NamedMember(m.u1, m.u2, f, 0, 0);
    }
    if m.changed.s1 {
      NamedMember(m.u1, m.u2, f, 0, 1);
    }
    if m.changed.c2 {
      NamedMember(m.u1, m.u2, f, 0, 2);
    }
  }

  /** s with thread t at stage b of FINISH and these balances. */
  function AtStage(s: State, t: nat, m: Msg, b: nat, balance: map<Mutex, nat>): State
    requires t < |s.threads|
  {
    State(s.threads[t := s.threads[t].(work := Finishing(m, b))], s.owner, balance)
  }

  lemma StageTwice(s: State, t: nat, m: Msg, b: nat, balance: map<Mutex, nat>, b': nat, balance': map<Mutex, nat>)
    requires t < |s.threads|
    ensures AtStage(AtStage(s, t, m, b, balance), t, m, b', balance') == AtStage(s, t, m, b', balance')
  {
    var th := s.threads[t];
    assert th.(work := Finishing(m, b)).(work := Finishing(m, b')) == th.(work := Finishing(m, b'));
  }

  lemma WriteOne(mode: Mode, s: State, t: nat, m: Msg, b: nat, v: nat)
    requires t < |s.threads| && m.FinReq? && b < 3 && s.threads[t].work == Finishing(m, b)
    ensures Step(mode, s, Serve(t, v)) == AtStage(s, t, m, b + 1, Written(s.balance, Finishing(m, b), v))
  {
  }

  lemma WriteNext(mode: Mode, n: nat, s: State, events: seq<Event>, t: nat, m: Msg, b: nat, balance: map<Mutex, nat>,
                  v: nat)
    requires t < n && |s.threads| == n && m.FinReq? && b < 3 && Run(mode, n, events) == AtStage(s, t, m, b, balance)
    ensures Run(mode, n, events + [Serve(t, v)]) == AtStage(s, t, m, b + 1, Written(balance, Finishing(m, b), v))
  {
    RunAppend(mode, n, events, Serve(t, v));
    WriteOne(mode, Run(mode, n, events), t, m, b, v);
    StageTwice(s, t, m, b, balance, b + 1, Written(balance, Finishing(m, b), v));
  }

  /** The events, and then the three writing steps. */
  function WithWrites(events: seq<Event>, t: nat, v: Balances): seq<Event> {
    events + [Serve(t, v.c1)] + [Serve(t, v.s1)] + [Serve(t, v.c2)]
  }

  lemma AtStart(s: State, t: nat, m: Msg)
    requires t < |s.threads| && s.threads[t].work == Finishing(m, 0)
    ensures AtStage(s, t, m, 0, s.balance) == s
  {
    assert s.threads[t := s.threads[t]] == s.threads;
  }

  lemma WriteAll(mode: Mode, n: nat, events: seq<Event>, s: State, t: nat, m: Msg, v: Balances)
    requires t < n && m.FinReq? && s == Run(mode, n, events) == AtStage(s, t, m, 0, s.balance)
    ensures Run(mode, n, WithWrites(events, t, v)) == AtStage(s, t, m, 3, Written3(s.balance, m, v))
  {
    var b1 := Written(s.balance, Finishing(m, 0), v.c1);
    var b2 := Written(b1, Finishing(m, 1), v.s1);
    var e1 := events + [Serve(t, v.c1)];
    WriteNext(mode, n, s, events, t, m, 0, s.balance, v.c1);
    WriteNext(mode, n, s, e1, t, m, 1, b1, v.s1);
    WriteNext(mode, n, s, e1 + [Serve(t, v.s1)], t, m, 2, b2, v.c2);
  }

  lemma {:induction false} ReleasesAlone(mode: Mode, o: Owner, owner: map<Mutex, Owner>, m: Msg, b: nat)
    returns (owner': map<Mutex, Owner>)
    requires m.FinReq? && b <= 4
    ensures Reaches(mode, o, owner, Finishing(m, b + 3), 4 - b, owner', Finishing(m, 7))
    ensures owner'.Keys == owner.Keys - Named(m.u1, m.u2, m.unlock, b)
    decreases 4 - b
  {
    owner' := owner;
    if b == 4 {
      NamedNone(m.u1, m.u2, m.unlock, 4);
    } else {
      NamedFrom(m.u1, m.u2, m.unlock, b);
      owner' := ReleasesAlone(mode, o, Unlock(owner, Flag(m.unlock, b), MutexOf(m.u1, m.u2, b)), m, b + 1);
    }
  }

  lemma DoneAtStage(s: State, t: nat, m: Msg, b: nat, balance: map<Mutex, nat>, reply: Msg)
    requires t < |s.threads|
    ensures var s1 := AtStage(s, t, m, b, balance);
            s1.threads[t := Go(s1.threads[t], Done(reply))] == s.threads[t := Go(s.threads[t], Done(reply))]
  {
    var th, done := s.threads[t], Go(s.threads[t], Done(reply));
    assert Go(th.(work := Finishing(m, b)), Done(reply)) == done;
    assert s.threads[t := th.(work := Finishing(m, b))][t := done] == s.threads[t := done];
  }

  lemma ReleaseAll(mode: Mode, n: nat, events: seq<Event>, s: State, t: nat, m: Msg, balance: map<Mutex, nat>)
    requires t < n && |s.threads| == n && m.FinReq? && Run(mode, n, events) == AtStage(s, t, m, 3, balance)
    ensures var s' := Run(mode, n, events + Repeat(Serve(t, 0), 5));
            && s'.balance == balance && s'.owner.Keys == s.owner.Keys - Named(m.u1, m.u2, m.unlock, 0)
            && s'.threads == s.threads[t := Go(s.threads[t], Done(FinResp(m.n)))]
  {
    var owner' := ReleasesAlone(mode, Owner(t, Res(m)), s.owner, m, 0);
    RunDone(mode, n, events, t, 4, owner', Finishing(m, 7), FinResp(m.n));
    DoneAtStage(s, t, m, 3, balance, FinResp(m.n));
  }

  /** The step-by-step server, left alone with a FINISH request that carries the values v, does what the
      request as a whole is defined to do: the changed balances except user 2's savings take the values,
      every other balance stays, and exactly the named locks are released, in 8 steps. */
  lemma FinishAlone(mode: Mode, n: nat, events: seq<Event>, t: nat, m: Msg, v: Balances)
    requires t < n && m.FinReq? && Run(mode, n, events).threads[t].work == Finishing(m, 0)
    ensures var s, s' := Run(mode, n, events), Run(mode, n, WithWrites(events, t, v) + Repeat(Serve(t, 0), 5));
            && Wrote(s.balance, s'.balance, m, v)
            && s'.owner.Keys == s.owner.Keys - Named(m.u1, m.u2, m.unlock, 0)
            && s'.threads == s.threads[t := Go(s.threads[t], Done(FinResp(m.n)))]
  {
    var s := Run(mode, n, events);
    AtStart(s, t, m);
    WriteAll(mode, n, events, s, t, m, v);
    WritesThree(s.balance, m, v);
    ReleaseAll(mode, n, WithWrites(events, t, v), s, t, m, Written3(s.balance, m, v));
  }
}
