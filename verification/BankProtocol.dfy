/** The SmallBank protocol: client threads with 64 transaction slots each, one server thread per
    client thread, and global account locks. Clients, servers and the network take steps in any
    order; a server interleaves with the others at every single lock operation. */
module BankProtocol {
  import opened Bits
  import opened BankServer

  const SLOTS := 64         // CONCURRENCY
  const ACCOUNTS := 1000000 // NUM_ACCOUNTS

  datatype Msg =
    | Ping
    | PingResp
    | DataReq(n: nat, u1: nat, u2: nat, want: Flags)
    | DataResp(n: nat)
    | LockReq(n: nat, u1: nat, u2: nat, locks: Flags)
    | LockResp(n: nat, ok: bool)
    | FinReq(n: nat, u1: nat, u2: nat, unlock: Flags, changed: Flags)
    | FinResp(n: nat)

  /** `phase` records what the slot asked for last; the code relies on the reply type only. */
  datatype Phase = AskData | AskLock | AskFinish

  datatype Slot = Slot(u1: nat, u2: nat, locks: Flags, changed: Flags, reqId: nat, phase: Phase)

  /** What a server thread is doing with the packet m. Finishing writes balances in stages 0 to 2
      and releases locks in stages 3 to 6. */
  datatype Work =
    | Free
    | Locking(m: Msg, stage: nat, flag: Flags, failed: bool)
    | Undoing(m: Msg, stage: nat, flag: Flags)
    | Finishing(m: Msg, stage: nat)

  /** A client thread, the network between it and its server thread, and the server thread. */
  datatype Thread = Thread(slots: seq<Slot>, net: multiset<Msg>, work: Work)

  datatype Owner = Owner(t: nat, r: nat)

  /** The keys of `owner` are the locked mutexes; the values record who locked them. */
  datatype State = State(threads: seq<Thread>, owner: map<Mutex, Owner>, balance: map<Mutex, nat>)

  function Start(n: nat): State {
    State(seq(n, i => Thread([], multiset{Ping}, Free)), map[], map[])
  }

  // ----- client ---------------------------------------------------------------------------

  function Draw(draws: seq<nat>, k: nat): nat {
    (if k < |draws| then draws[k] else 0) % ACCOUNTS
  }

  /** init_transition: the share of each transaction type, and what it locks and changes. */
  function InitSlot(i: nat, a: nat, b: nat): Slot {
    if i * 100 < 15 * SLOTS then          // Amalgamate
      Slot(a, b, Flags(true, false, false, true), Flags(true, false, false, true), i, AskData)
    else if i * 100 < 30 * SLOTS then     // Balance
      Slot(a, a, NO_FLAGS, NO_FLAGS, i, AskData)
    else if i * 100 < 45 * SLOTS then     // DepositChecking
      Slot(a, a, Flags(true, false, false, false), Flags(true, false, false, false), i, AskData)
    else if i * 100 < 70 * SLOTS then     // SendPayment
      Slot(a, b, Flags(true, false, true, false), Flags(true, false, true, false), i, AskData)
    else if i * 100 < 85 * SLOTS then     // TransactSavings
      Slot(a, 0, Flags(false, true, false, false), Flags(false, true, false, false), i, AskData)
    else                                  // WriteCheck
      Slot(a, 0, Flags(true, false, false, false), Flags(true, false, false, false), i, AskData)
  }

  function InitSlots(draws: seq<nat>): (r: seq<Slot>)
    ensures |r| == SLOTS
  {
    seq(SLOTS, i requires i >= 0 => InitSlot(i, Draw(draws, 2 * i), Draw(draws, 2 * i + 1)))
  }

  /** reload_transition. */
  function DataRequest(sl: Slot): Msg {
    DataReq(sl.reqId, sl.u1, sl.u2, sl.locks)
  }

  function InitialRequests(slots: seq<Slot>): (r: seq<Msg>)
    ensures |r| == |slots|
  {
    seq(|slots|, i requires 0 <= i < |slots| => DataRequest(slots[i]))
  }

  /** Send m2 in answer to m, from slot r. */
  function Answer(th: Thread, m: Msg, r: nat, sl: Slot, m2: Msg): Thread
    requires r < |th.slots|
  {
    th.(slots := th.slots[r := sl], net := th.net - multiset{m} + multiset{m2})
  }

  /** The next transaction of a slot: reload_transition with fresh accounts. */
  function Reload(sl: Slot, n: nat, draws: seq<nat>): Slot {
    sl.(u1 := Draw(draws, 0), u2 := Draw(draws, 1), reqId := (n + SLOTS) % U32, phase := AskData)
  }

  predicate IsReply(m: Msg) { m.DataResp? || m.LockResp? || m.FinResp? }

  /** What slot sl becomes and sends when it receives the reply m. */
  function Respond(sl: Slot, m: Msg, draws: seq<nat>): (Slot, Msg)
    requires IsReply(m)
  {
    if m.DataResp? then (sl.(phase := AskLock), LockReq(m.n, sl.u1, sl.u2, sl.locks))
    else if m.LockResp? && m.ok then
      (sl.(phase := AskFinish), FinReq(m.n, sl.u1, sl.u2, sl.locks, sl.changed))
    else
      var next := Reload(sl, m.n, draws);
      (next, DataRequest(next))
  }

  /** process_packet of the client. */
  function ClientStep(th: Thread, m: Msg, draws: seq<nat>): Thread {
    if m !in th.net then th
    else if m == PingResp then
      var slots := InitSlots(draws);
      Thread(slots, th.net - multiset{m} + multiset(InitialRequests(slots)), th.work)
    else if IsReply(m) && m.n % SLOTS < |th.slots| then
      var (sl, m2) := Respond(th.slots[m.n % SLOTS], m, draws);
      Answer(th, m, m.n % SLOTS, sl, m2)
    else th
  }

  // ----- server -----------------------------------------------------------------------------

  /** A free server thread takes a request off the network; PING and GET_DATA are answered at
      once, the others become work. */
  function TakeStep(th: Thread, m: Msg): Thread {
    if m !in th.net || !th.work.Free? then th
    else match m
    case Ping => th.(net := th.net - multiset{m} + multiset{PingResp})
    case DataReq(n, u1, u2, want) => th.(net := th.net - multiset{m} + multiset{DataResp(n)})
    case LockReq(n, u1, u2, locks) => th.(net := th.net - multiset{m}, work := Locking(m, 0, NO_FLAGS, false))
    case FinReq(n, u1, u2, unlock, changed) => th.(net := th.net - multiset{m}, work := Finishing(m, 0))
    case _ => th
  }

  /** One trylock of GET_LOCK. */
  function LockStep(mode: Mode, owner: map<Mutex, Owner>, o: Owner, w: Work): (map<Mutex, Owner>, Work)
    requires w.Locking? && w.m.LockReq?
  {
    var x := MutexOf(w.m.u1, w.m.u2, w.stage);
    if w.failed || !Flag(w.m.locks, w.stage) then
      (owner, Locking(w.m, w.stage + 1, w.flag, w.failed))
    else if x !in owner then
      var flag := SetFlag(if mode.Intended? then w.flag else NO_FLAGS, w.stage);
      (owner[x := o], Locking(w.m, w.stage + 1, flag, false))
    else
      (owner, Locking(w.m, w.stage + 1, if mode.Intended? then w.flag else mode.code, true))
  }

  function Unlock(owner: map<Mutex, Owner>, locked: bool, x: Mutex): map<Mutex, Owner> {
    if locked then owner - {x} else owner
  }

  datatype Next = More(w: Work) | Done(reply: Msg)

  /** The work is one the message type gives rise to. */
  predicate Typed(w: Work) {
    match w
    case Free => false
    case Locking(m, _, _, _) => m.LockReq?
    case Undoing(m, _, _) => m.LockReq?
    case Finishing(m, _) => m.FinReq?
  }

  /** One step of the work of slot o: at most one lock operation. */
  function WorkStep(mode: Mode, owner: map<Mutex, Owner>, o: Owner, w: Work): (map<Mutex, Owner>, Next)
    requires Typed(w)
  {
    match w
    case Locking(m, stage, flag, failed) =>
      if stage < 4 then
        var (owner', w') := LockStep(mode, owner, o, w);
        (owner', More(w'))
      else if failed then (owner, More(Undoing(m, 0, flag)))
      else (owner, Done(LockResp(m.n, true)))
    case Undoing(m, stage, flag) =>
      if stage < 4 then
        (Unlock(owner, Flag(flag, stage), MutexOf(m.u1, m.u2, stage)), More(Undoing(m, stage + 1, flag)))
      else (owner, Done(LockResp(m.n, false)))
    case Finishing(m, stage) =>
      if stage < 3 then (owner, More(Finishing(m, stage + 1)))
      else if stage < 7 then
        (Unlock(owner, Flag(m.unlock, stage - 3), MutexOf(m.u1, m.u2, stage - 3)), More(Finishing(m, stage + 1)))
      else (owner, Done(FinResp(m.n)))
  }

  /** The balance FINISH writes in stages 0 to 2; v is the value the request happens to carry. */
  function Written(balance: map<Mutex, nat>, w: Work, v: nat): map<Mutex, nat> {
    if Typed(w) && w.Finishing? && w.stage < 3 && Flag(w.m.changed, w.stage) then
      balance[MutexOf(w.m.u1, w.m.u2, w.stage) := v]
    else balance
  }

  function Go(th: Thread, next: Next): Thread {
    match next
    case More(w) => th.(work := w)
    case Done(m) => th.(net := th.net + multiset{m}, work := Free)
  }

  /** One step of a busy server thread. */
  function ServeStep(mode: Mode, s: State, t: nat, v: nat): State
    requires t < |s.threads|
  {
    var th := s.threads[t];
    if !Typed(th.work) then s
    else
      var (owner', next) := WorkStep(mode, s.owner, Owner(t, Res(th.work.m)), th.work);
      State(s.threads[t := Go(th, next)], owner', Written(s.balance, th.work, v))
  }

  datatype Event = Client(t: nat, m: Msg, draws: seq<nat>) | Take(t: nat, m: Msg) | Serve(t: nat, v: nat)

  function Step(mode: Mode, s: State, e: Event): (s': State)
    ensures |s'.threads| == |s.threads|
  {
    if e.t >= |s.threads| then s
    else match e
    case Client(t, m, draws) => s.(threads := s.threads[t := ClientStep(s.threads[t], m, draws)])
    case Take(t, m) => s.(threads := s.threads[t := TakeStep(s.threads[t], m)])
    case Serve(t, v) => ServeStep(mode, s, t, v)
  }

  function Run(mode: Mode, n: nat, events: seq<Event>): (s: State)
    ensures |s.threads| == n
  {
    if events == [] then Start(n)
    else Step(mode, Run(mode, n, events[..|events| - 1]), events[|events| - 1])
  }

  // ----- one outstanding message per slot ------------------------------------------------------

  predicate IsTxn(m: Msg) { !m.Ping? && !m.PingResp? }

  function Res(m: Msg): nat { if IsTxn(m) then m.n % SLOTS else SLOTS }

  /** Everything a client thread waits for: messages under way and the packet being served. */
  function Out(th: Thread): multiset<Msg> {
    th.net + (if th.work.Free? then multiset{} else multiset{th.work.m})
  }

  ghost predicate Present(out: multiset<Msg>, r: nat) {
    exists m :: m in out && Res(m) == r
  }

  ghost predicate OnePer(out: multiset<Msg>, k: nat) {
    && (forall m :: m in out ==> Res(m) < k && out[m] == 1)
    && (forall m, m' :: m in out && m' in out && Res(m) == Res(m') ==> m == m')
    && (forall r: nat :: r < k ==> Present(out, r))
  }

  lemma {:induction false} OnePerSize(out: multiset<Msg>, k: nat)
    requires OnePer(out, k)
    ensures |out| == k
  {
    if k == 0 {
      assert forall m :: m !in out;
      assert out == multiset{};
    } else {
      assert Present(out, k - 1);
      var m :| m in out && Res(m) == k - 1;
      var rest := out - multiset{m};
      forall r: nat | r < k - 1 ensures Present(rest, r) {
        assert Present(out, r);
        var m' :| m' in out && Res(m') == r;
        assert m' in rest;
      }
      OnePerSize(rest, k - 1);
      assert out == rest + multiset{m};
    }
  }

  lemma ReplaceKeepsOnePer(out: multiset<Msg>, m: Msg, m2: Msg, k: nat)
    requires OnePer(out, k) && m in out && Res(m2) == Res(m)
    ensures OnePer(out - multiset{m} + multiset{m2}, k)
  {
    var out' := out - multiset{m} + multiset{m2};
    forall x | x in out'
      ensures Res(x) < k && out'[x] == 1
    {
      if x == m2 && m2 != m {
        assert m2 !in out;
      }
    }
    forall r: nat | r < k ensures Present(out', r) {
      assert Present(out, r);
      var x :| x in out && Res(x) == r;
      if x == m {
        assert m2 in out' && Res(m2) == r;
      } else {
        assert x in out';
      }
    }
  }

  // ----- one slot ------------------------------------------------------------------------------------

  /** No transaction type takes a lock other than user 1's checking lock before a second one. */
  predicate FirstIsChecking(locks: Flags) {
    !(locks.s1 && (locks.c2 || locks.s2)) && !(locks.c2 && locks.s2)
  }

  predicate SlotOk(sl: Slot, r: nat) {
    sl.reqId % SLOTS == r && sl.reqId < U32 && sl.changed == sl.locks && FirstIsChecking(sl.locks)
  }

  /** The message belongs to what the slot asked for last, with the slot's present content. */
  predicate Matches(sl: Slot, m: Msg) {
    match m
    case Ping => false
    case PingResp => false
    case DataReq(n, u1, u2, want) =>
      sl.phase == AskData && n == sl.reqId && u1 == sl.u1 && u2 == sl.u2 && want == sl.locks
    case DataResp(n) => sl.phase == AskData && n == sl.reqId
    case LockReq(n, u1, u2, locks) =>
      sl.phase == AskLock && n == sl.reqId && u1 == sl.u1 && u2 == sl.u2 && locks == sl.locks
    case LockResp(n, ok) => sl.phase == AskLock && n == sl.reqId
    case FinReq(n, u1, u2, unlock, changed) =>
      && sl.phase == AskFinish && n == sl.reqId && u1 == sl.u1 && u2 == sl.u2
      && unlock == sl.locks && changed == sl.changed
    case FinResp(n) => sl.phase == AskFinish && n == sl.reqId
  }

  /** Between a successful GET_LOCK and its FINISH. */
  predicate Granted(m: Msg) { (m.LockResp? && m.ok) || m.FinReq? }

  predicate Serving(th: Thread, m: Msg) { !th.work.Free? && th.work.m == m }

  /** What there is to know about a slot: its content, the message it waits for, and the work if
      that message is being served. */
  datatype View = View(sl: Slot, m: Msg, w: Work)

  function ViewOf(th: Thread, m: Msg): View
    requires Res(m) < |th.slots|
  {
    View(th.slots[Res(m)], m, if Serving(th, m) then th.work else Free)
  }

  predicate StageOk(w: Work) {
    Typed(w) && w.stage <= if w.Finishing? then 7 else 4
  }

  predicate Sound(v: View, r: nat) {
    && SlotOk(v.sl, r) && Matches(v.sl, v.m) && Res(v.m) == r
    && (v.w.Free? || (v.w.m == v.m && StageOk(v.w)))
  }

  function ClientView(v: View, draws: seq<nat>): View
    requires IsReply(v.m)
  {
    var (sl, m2) := Respond(v.sl, v.m, draws);
    View(sl, m2, Free)
  }

  predicate IsRequest(m: Msg) { m.DataReq? || m.LockReq? || m.FinReq? }

  function TakeView(v: View): View
    requires IsRequest(v.m)
  {
    match v.m
    case DataReq(n, _, _, _) => View(v.sl, DataResp(n), Free)
    case LockReq(_, _, _, _) => View(v.sl, v.m, Locking(v.m, 0, NO_FLAGS, false))
    case FinReq(_, _, _, _, _) => View(v.sl, v.m, Finishing(v.m, 0))
  }

  function ServeView(v: View, next: Next): View {
    match next
    case More(w) => View(v.sl, v.m, w)
    case Done(m) => View(v.sl, m, Free)
  }

  lemma NextId(n: nat)
    ensures ((n + SLOTS) % U32) % SLOTS == n % SLOTS
  {
    Pow2Words();
    assert Pow2(6) == 64;
    RegisterKeepsSlot(n + SLOTS, 6, 32);
    NextLap(n, SLOTS);
  }

  lemma ClientSound(v: View, r: nat, draws: seq<nat>)
    requires Sound(v, r) && IsReply(v.m)
    ensures Sound(ClientView(v, draws), r)
  {
    NextId(v.m.n);
  }

  lemma TakeSound(v: View, r: nat)
    requires Sound(v, r) && IsRequest(v.m)
    ensures Sound(TakeView(v), r)
  {
  }

  lemma ServeSound(mode: Mode, owner: map<Mutex, Owner>, o: Owner, v: View)
    requires Sound(v, o.r) && !v.w.Free?
    ensures Sound(ServeView(v, WorkStep(mode, owner, o, v.w).1), o.r)
  {
  }

  // ----- a thread ---------------------------------------------------------------------------------------

  /** A client thread after the ping reply: one message per slot, each sound. This holds
      whatever the locks are doing. */
  ghost predicate Talking(th: Thread) {
    && |th.slots| == SLOTS && OnePer(Out(th), SLOTS)
    && forall m :: m in Out(th) ==> Sound(ViewOf(th, m), Res(m))
  }

  predicate Waiting(th: Thread) {
    th.slots == [] && th.work.Free? && (th.net == multiset{Ping} || th.net == multiset{PingResp})
  }

  /** The thread replaces the outstanding message m by m2 of the same slot and changes nothing
      else. */
  ghost predicate Moved(th: Thread, th': Thread, m: Msg, m2: Msg) {
    && m in Out(th) && Out(th') == Out(th) - multiset{m} + multiset{m2}
    && Res(m2) == Res(m) < |th.slots| == |th'.slots|
    && th'.slots == th.slots[Res(m) := th'.slots[Res(m)]]
    && (th'.work == th.work || ((th.work.Free? || th.work.m == m) && (th'.work.Free? || th'.work.m == m2)))
  }

  lemma Survivor(out: multiset<Msg>, m: Msg, m2: Msg, x: Msg)
    requires OnePer(out, SLOTS) && m in out && x in out - multiset{m} + multiset{m2} && x != m2
    ensures x in out && x != m && Res(x) != Res(m)
  {
    assert x in out && out[m] == 1;
  }

  lemma SameView(th: Thread, th': Thread, m: Msg, m2: Msg, x: Msg)
    requires Talking(th) && Moved(th, th', m, m2) && x in Out(th') && x != m2
    ensures x in Out(th) && Res(x) != Res(m) && Res(x) < SLOTS && ViewOf(th', x) == ViewOf(th, x)
  {
    Survivor(Out(th), m, m2, x);
  }

  lemma MoveTalks(th: Thread, th': Thread, m: Msg, m2: Msg)
    requires Talking(th) && Moved(th, th', m, m2) && Sound(ViewOf(th', m2), Res(m))
    ensures Talking(th')
  {
    ReplaceKeepsOnePer(Out(th), m, m2, SLOTS);
    forall x | x in Out(th') ensures Sound(ViewOf(th', x), Res(x)) {
      if x != m2 {
        SameView(th, th', m, m2, x);
      }
    }
  }

  /** A message under way is not the one being served. */
  lemma OnceOnly(th: Thread, m: Msg)
    requires OnePer(Out(th), SLOTS) && m in th.net
    ensures !Serving(th, m)
  {
    assert m in Out(th);
    assert 1 == Out(th)[m] >= th.net[m] + (if Serving(th, m) then 1 else 0);
  }

  lemma AnswerMoves(th: Thread, m: Msg, sl: Slot, m2: Msg)
    requires Talking(th) && m in th.net && Res(m2) == Res(m) < SLOTS
    ensures var th' := Answer(th, m, Res(m), sl, m2);
            Moved(th, th', m, m2) && ViewOf(th', m2) == View(sl, m2, Free)
  {
    var th' := Answer(th, m, Res(m), sl, m2);
    assert m in Out(th);
    assert Out(th') == Out(th) - multiset{m} + multiset{m2};
    ReplaceKeepsOnePer(Out(th), m, m2, SLOTS);
    OnceOnly(th', m2);
  }

  lemma ClientMoves(th: Thread, m: Msg, draws: seq<nat>)
    requires Talking(th) && m in th.net && IsReply(m)
    ensures Res(m) < SLOTS
    ensures var v := ClientView(ViewOf(th, m), draws);
            var th' := ClientStep(th, m, draws);
            Moved(th, th', m, v.m) && ViewOf(th', v.m) == v && ViewOf(th, m).w.Free?
  {
    assert m in Out(th) && Sound(ViewOf(th, m), Res(m));
    OnceOnly(th, m);
    var (sl, m2) := Respond(th.slots[Res(m)], m, draws);
    ClientSound(ViewOf(th, m), Res(m), draws);
    AnswerMoves(th, m, sl, m2);
  }

  lemma TakeOut(th: Thread, m: Msg)
    requires m in th.net && th.work.Free? && IsRequest(m)
    ensures var m2 := if m.DataReq? then DataResp(m.n) else m;
            Out(TakeStep(th, m)) == Out(th) - multiset{m} + multiset{m2}
  {
  }

  lemma TakeSees(th: Thread, m: Msg)
    requires m in th.net && th.work.Free? && IsRequest(m) && Res(m) < |th.slots|
    ensures var v := TakeView(ViewOf(th, m));
            var th' := TakeStep(th, m);
            && v.m == (if m.DataReq? then DataResp(m.n) else m)
            && th'.slots == th.slots && Res(v.m) == Res(m) && ViewOf(th', v.m) == v
            && (th'.work.Free? || th'.work.m == v.m)
  {
  }

  lemma TakeMoves(th: Thread, m: Msg)
    requires Talking(th) && m in th.net && IsRequest(m) && th.work.Free?
    ensures Res(m) < SLOTS
    ensures var v := TakeView(ViewOf(th, m));
            var th' := TakeStep(th, m);
            Moved(th, th', m, v.m) && ViewOf(th', v.m) == v
  {
    assert m in Out(th) && Res(m) < SLOTS;
    TakeOut(th, m);
    TakeSees(th, m);
  }

  /** What the server thread has in hand is replaced. */
  lemma ServeOut(th: Thread, next: Next)
    requires !th.work.Free?
    requires match next case More(w) => !w.Free? && w.m == th.work.m case Done(m) => true
    ensures var m2 := if next.More? then th.work.m else next.reply;
            Out(Go(th, next)) == Out(th) - multiset{th.work.m} + multiset{m2}
  {
    var net, m := th.net, th.work.m;
    assert net + multiset{m} - multiset{m} == net;
  }

  lemma ServeMoves(th: Thread, next: Next)
    requires Talking(th) && !th.work.Free?
    requires match next case More(w) => !w.Free? && w.m == th.work.m case Done(m) => Res(m) == Res(th.work.m)
    ensures Res(th.work.m) < SLOTS
    ensures var v := ServeView(ViewOf(th, th.work.m), next);
            var th' := Go(th, next);
            Moved(th, th', th.work.m, v.m) && ViewOf(th', v.m) == v
  {
    ServeOut(th, next);
    assert th.work.m in Out(th);
  }

  // ----- the beginning ------------------------------------------------------------------------------------

  lemma InitSlotOk(i: nat, a: nat, b: nat)
    requires i < SLOTS
    ensures Sound(View(InitSlot(i, a, b), DataRequest(InitSlot(i, a, b)), Free), i)
  {
  }

  lemma CountOnce(ms: seq<Msg>, i: nat)
    requires i < |ms| && forall j :: 0 <= j < |ms| ==> Res(ms[j]) == j
    ensures multiset(ms)[ms[i]] == 1
  {
    var a, b := ms[..i], ms[i + 1..];
    assert ms == a + [ms[i]] + b;
    assert ms[i] !in a && ms[i] !in b;
  }

  lemma OnePerSeq(ms: seq<Msg>)
    requires forall i :: 0 <= i < |ms| ==> Res(ms[i]) == i
    ensures OnePer(multiset(ms), |ms|)
    ensures forall m :: m in ms ==> Res(m) < |ms| && m == ms[Res(m)]
  {
    var out := multiset(ms);
    forall m | m in out
      ensures Res(m) < |ms| && m == ms[Res(m)] && out[m] == 1
    {
      var i :| 0 <= i < |ms| && ms[i] == m;
      CountOnce(ms, i);
    }
    forall r: nat | r < |ms| ensures Present(out, r) {
      assert ms[r] in out;
    }
  }

  lemma FirstRequests(draws: seq<nat>)
    ensures var slots := InitSlots(draws);
            && OnePer(multiset(InitialRequests(slots)), SLOTS)
            && (forall m :: m in InitialRequests(slots) ==>
                  m.DataReq? && Res(m) < SLOTS && Sound(View(slots[Res(m)], m, Free), Res(m)))
  {
    var slots := InitSlots(draws);
    var ms := InitialRequests(slots);
    forall i | 0 <= i < SLOTS ensures Res(ms[i]) == i && Sound(View(slots[i], ms[i], Free), i) {
      InitSlotOk(i, Draw(draws, 2 * i), Draw(draws, 2 * i + 1));
    }
    OnePerSeq(ms);
  }

  lemma StartOut(th: Thread, draws: seq<nat>)
    requires Waiting(th) && PingResp in th.net
    ensures var th' := ClientStep(th, PingResp, draws);
            th'.slots == InitSlots(draws) && th'.work.Free? && th'.net == multiset(InitialRequests(th'.slots))
  {
    assert th.net == multiset{PingResp};
    assert th.net - multiset{PingResp} == multiset{};
    var ms := multiset(InitialRequests(InitSlots(draws)));
    assert multiset{} + ms == ms;
  }

  lemma ClientStarts(th: Thread, draws: seq<nat>)
    requires Waiting(th) && PingResp in th.net
    ensures var th' := ClientStep(th, PingResp, draws);
            && Talking(th')
            && forall m :: m in Out(th') ==> m.DataReq? && ViewOf(th', m).w.Free?
  {
    StartOut(th, draws);
    FirstRequests(draws);
    var th' := ClientStep(th, PingResp, draws);
    assert Out(th') == th'.net;
    forall m | m in Out(th') ensures m.DataReq? && Res(m) < SLOTS && Sound(ViewOf(th', m), Res(m)) {
      assert m in InitialRequests(th'.slots);
    }
  }

  // ----- every thread in every mode ---------------------------------------------------------------------------

  ghost predicate ThreadTalks(th: Thread) { Waiting(th) || Talking(th) }

  lemma ClientTalks(th: Thread, m: Msg, draws: seq<nat>)
    requires ThreadTalks(th)
    ensures ThreadTalks(ClientStep(th, m, draws))
  {
    if Waiting(th) {
      if m in th.net && m == PingResp {
        ClientStarts(th, draws);
      }
    } else if m in th.net && IsReply(m) {
      ClientMoves(th, m, draws);
      assert m in Out(th);
      ClientSound(ViewOf(th, m), Res(m), draws);
      MoveTalks(th, ClientStep(th, m, draws), m, ClientView(ViewOf(th, m), draws).m);
    } else {
      NoPing(th);
    }
  }

  lemma NoPing(th: Thread)
    requires Talking(th)
    ensures Ping !in th.net && PingResp !in th.net
  {
    assert Res(Ping) == SLOTS && Ping !in Out(th);
    assert Res(PingResp) == SLOTS && PingResp !in Out(th);
  }

  lemma TakeWaiting(th: Thread, m: Msg)
    requires Waiting(th)
    ensures Waiting(TakeStep(th, m))
  {
    if m in th.net && m.Ping? {
      assert th.net - multiset{Ping} + multiset{PingResp} == multiset{PingResp};
    }
  }

  lemma TakeTalks(th: Thread, m: Msg)
    requires ThreadTalks(th)
    ensures ThreadTalks(TakeStep(th, m))
  {
    if Waiting(th) {
      TakeWaiting(th, m);
    } else if m in th.net && IsRequest(m) && th.work.Free? {
      TakeMoves(th, m);
      assert m in Out(th);
      TakeSound(ViewOf(th, m), Res(m));
      MoveTalks(th, TakeStep(th, m), m, TakeView(ViewOf(th, m)).m);
    } else {
      NoPing(th);
    }
  }

  lemma WorkSound(th: Thread)
    requires Talking(th) && !th.work.Free?
    ensures Res(th.work.m) < SLOTS && ViewOf(th, th.work.m).w == th.work
    ensures Sound(ViewOf(th, th.work.m), Res(th.work.m)) && StageOk(th.work)
  {
    assert th.work.m in Out(th);
  }

  lemma WorkStepKeepsMessage(mode: Mode, owner: map<Mutex, Owner>, o: Owner, w: Work)
    requires StageOk(w)
    ensures match WorkStep(mode, owner, o, w).1
            case More(w') => !w'.Free? && w'.m == w.m
            case Done(m) => Res(m) == Res(w.m)
  {
  }

  lemma ServeTalks(mode: Mode, owner: map<Mutex, Owner>, o: Owner, th: Thread)
    requires Talking(th) && !th.work.Free? && o.r == Res(th.work.m)
    ensures Typed(th.work) && Talking(Go(th, WorkStep(mode, owner, o, th.work).1))
  {
    WorkSound(th);
    var next := WorkStep(mode, owner, o, th.work).1;
    var v := ViewOf(th, th.work.m);
    WorkStepKeepsMessage(mode, owner, o, th.work);
    ServeSound(mode, owner, o, v);
    ServeMoves(th, next);
    MoveTalks(th, Go(th, next), th.work.m, ServeView(v, next).m);
  }

  ghost predicate AllTalk(s: State) {
    forall t :: 0 <= t < |s.threads| ==> ThreadTalks(s.threads[t])
  }

  lemma ServeStepTalks(mode: Mode, s: State, t: nat, v: nat)
    requires t < |s.threads| && ThreadTalks(s.threads[t])
    ensures ThreadTalks(ServeStep(mode, s, t, v).threads[t])
  {
    var th := s.threads[t];
    if !th.work.Free? {
      ServeTalks(mode, s.owner, Owner(t, Res(th.work.m)), th);
    }
  }

  lemma StepTalks(mode: Mode, s: State, e: Event)
    requires AllTalk(s)
    ensures AllTalk(Step(mode, s, e))
  {
    if e.t < |s.threads| {
      assert ThreadTalks(s.threads[e.t]);
      match e
      case Client(t, m, draws) => ClientTalks(s.threads[t], m, draws);
      case Take(t, m) => TakeTalks(s.threads[t], m);
      case Serve(t, v) => ServeStepTalks(mode, s, t, v);
      OneChanged(s, Step(mode, s, e), e.t);
    }
  }

  lemma OneChanged(s: State, s': State, t: nat)
    requires AllTalk(s) && t < |s.threads| == |s'.threads| && ThreadTalks(s'.threads[t])
    requires forall u :: 0 <= u < |s.threads| && u != t ==> s'.threads[u] == s.threads[u]
    ensures AllTalk(s')
  {
  }

  lemma {:induction false} RunTalks(mode: Mode, n: nat, events: seq<Event>)
    ensures AllTalk(Run(mode, n, events))
  {
    if events != [] {
      var before := events[..|events| - 1];
      RunTalks(mode, n, before);
      StepTalks(mode, Run(mode, n, before), events[|events| - 1]);
    }
  }

  /** Once a client thread has received the ping reply it has exactly 64 outstanding messages,
      one per residue of the request number modulo 64, across the wrap of the 32-bit number; each
      message carries the number and content of its slot and fits what the slot asked for last.
      This holds for the code as written as well as for the collecting lock flag. */
  lemma SlotDiscipline(mode: Mode, n: nat, events: seq<Event>, t: nat)
    requires t < n && Run(mode, n, events).threads[t].slots != []
    ensures var th := Run(mode, n, events).threads[t];
            && |th.slots| == SLOTS && |Out(th)| == SLOTS && OnePer(Out(th), SLOTS)
            && (forall m :: m in Out(th) ==> Matches(th.slots[Res(m)], m))
            && (forall r: nat :: r < SLOTS ==> th.slots[r].reqId % SLOTS == r)
  {
    RunTalks(mode, n, events);
    var th := Run(mode, n, events).threads[t];
    assert ThreadTalks(th);
    OnePerSize(Out(th), SLOTS);
    forall m | m in Out(th) ensures Matches(th.slots[Res(m)], m) {
      assert Sound(ViewOf(th, m), Res(m));
    }
    forall r: nat | r < SLOTS ensures th.slots[r].reqId % SLOTS == r {
      assert Present(Out(th), r);
      var m :| m in Out(th) && Res(m) == r;
      assert Sound(ViewOf(th, m), Res(m));
    }
  }

  // ----- what a rule about one slot gives for every run -----------------------------------------------------

  /** The locks whose last taker was slot r of thread t. */
  function Owned(owner: map<Mutex, Owner>, t: nat, r: nat): set<Mutex> {
    set x | x in owner && owner[x] == Owner(t, r)
  }

  /** A rule relates the locks a slot owns to the view of the slot. */
  type Rule = (set<Mutex>, View) -> bool

  ghost predicate Kept(p: Rule, owner: map<Mutex, Owner>, t: nat, th: Thread) {
    forall m :: m in Out(th) ==> Res(m) < |th.slots| && p(Owned(owner, t, Res(m)), ViewOf(th, m))
  }

  /** A step on the lock table leaves the rule intact for all other slots. */
  ghost predicate Frame(p: Rule, owner: map<Mutex, Owner>, owner': map<Mutex, Owner>, o: Owner) {
    forall t: nat, r: nat, v: View ::
      Owner(t, r) != o && p(Owned(owner, t, r), v) ==> p(Owned(owner', t, r), v)
  }

  ghost predicate StartsWith(p: Rule) {
    forall v: View :: v.m.DataReq? && v.w.Free? ==> p({}, v)
  }

  ghost predicate ClientKeepsAt(p: Rule, own: set<Mutex>, v: View, draws: seq<nat>)
    requires IsReply(v.m)
  {
    p(own, ClientView(v, draws))
  }

  ghost predicate ClientKeeps(p: Rule) {
    forall own: set<Mutex>, v: View, r: nat, draws: seq<nat> ::
      Sound(v, r) && v.w.Free? && IsReply(v.m) && p(own, v) ==> ClientKeepsAt(p, own, v, draws)
  }

  ghost predicate TakeKeepsAt(p: Rule, own: set<Mutex>, v: View)
    requires IsRequest(v.m)
  {
    p(own, TakeView(v))
  }

  ghost predicate TakeKeeps(p: Rule) {
    forall own: set<Mutex>, v: View, r: nat ::
      Sound(v, r) && v.w.Free? && IsRequest(v.m) && p(own, v) ==> TakeKeepsAt(p, own, v)
  }

  ghost predicate ServeKeepsAt(p: Rule, mode: Mode, owner: map<Mutex, Owner>, o: Owner, v: View)
    requires StageOk(v.w)
  {
    var (owner', next) := WorkStep(mode, owner, o, v.w);
    p(Owned(owner', o.t, o.r), ServeView(v, next)) && Frame(p, owner, owner', o)
  }

  ghost predicate ServeKeeps(p: Rule, mode: Mode) {
    forall owner: map<Mutex, Owner>, o: Owner, v: View ::
      Sound(v, o.r) && !v.w.Free? && p(Owned(owner, o.t, o.r), v) ==> ServeKeepsAt(p, mode, owner, o, v)
  }

  ghost predicate Inductive(p: Rule, mode: Mode) {
    StartsWith(p) && ClientKeeps(p) && TakeKeeps(p) && ServeKeeps(p, mode)
  }

  ghost predicate AllKept(p: Rule, s: State) {
    forall t :: 0 <= t < |s.threads| && !Waiting(s.threads[t]) ==> Kept(p, s.owner, t, s.threads[t])
  }

  /** Every lock was taken by a slot of a thread that has started. */
  ghost predicate OwnersExist(s: State) {
    forall x :: x in s.owner ==> s.owner[x].t < |s.threads| && s.owner[x].r < |s.threads[s.owner[x].t].slots|
  }

  ghost predicate Inv(p: Rule, s: State) {
    AllTalk(s) && AllKept(p, s) && OwnersExist(s)
  }

  lemma MoveKeeps(p: Rule, owner: map<Mutex, Owner>, owner': map<Mutex, Owner>, t: nat, th: Thread, th': Thread,
                  m: Msg, m2: Msg)
    requires Talking(th) && Kept(p, owner, t, th) && Moved(th, th', m, m2)
    requires p(Owned(owner', t, Res(m)), ViewOf(th', m2)) && Frame(p, owner, owner', Owner(t, Res(m)))
    ensures Kept(p, owner', t, th')
  {
    forall x | x in Out(th') && x != m2
      ensures Res(x) < |th'.slots| && p(Owned(owner', t, Res(x)), ViewOf(th', x))
    {
      SameView(th, th', m, m2, x);
      assert p(Owned(owner, t, Res(x)), ViewOf(th, x));
    }
  }

  lemma NothingOwned(s: State, t: nat, r: nat)
    requires OwnersExist(s) && t < |s.threads| && s.threads[t].slots == []
    ensures Owned(s.owner, t, r) == {}
  {
  }

  lemma ClientStartKept(p: Rule, s: State, t: nat, draws: seq<nat>)
    requires StartsWith(p) && OwnersExist(s) && t < |s.threads|
    requires Waiting(s.threads[t]) && PingResp in s.threads[t].net
    ensures Kept(p, s.owner, t, ClientStep(s.threads[t], PingResp, draws))
  {
    var th' := ClientStep(s.threads[t], PingResp, draws);
    ClientStarts(s.threads[t], draws);
    forall m | m in Out(th') ensures Res(m) < |th'.slots| && p(Owned(s.owner, t, Res(m)), ViewOf(th', m)) {
      NothingOwned(s, t, Res(m));
    }
  }

  lemma ClientMoveKept(p: Rule, owner: map<Mutex, Owner>, t: nat, th: Thread, m: Msg, draws: seq<nat>)
    requires ClientKeeps(p) && Talking(th) && Kept(p, owner, t, th) && m in th.net && IsReply(m)
    ensures Kept(p, owner, t, ClientStep(th, m, draws))
  {
    ClientMoves(th, m, draws);
    assert m in Out(th);
    var v := ViewOf(th, m);
    assert Sound(v, Res(m)) && p(Owned(owner, t, Res(m)), v);
    assert ClientKeepsAt(p, Owned(owner, t, Res(m)), v, draws);
    MoveKeeps(p, owner, owner, t, th, ClientStep(th, m, draws), m, ClientView(v, draws).m);
  }

  lemma TakeMoveKept(p: Rule, owner: map<Mutex, Owner>, t: nat, th: Thread, m: Msg)
    requires TakeKeeps(p) && Talking(th) && Kept(p, owner, t, th)
    requires m in th.net && IsRequest(m) && th.work.Free?
    ensures Kept(p, owner, t, TakeStep(th, m))
  {
    TakeMoves(th, m);
    assert m in Out(th);
    var v := ViewOf(th, m);
    assert Sound(v, Res(m)) && p(Owned(owner, t, Res(m)), v);
    assert TakeKeepsAt(p, Owned(owner, t, Res(m)), v);
    MoveKeeps(p, owner, owner, t, th, TakeStep(th, m), m, TakeView(v).m);
  }

  lemma ServeMoveKept(p: Rule, mode: Mode, owner: map<Mutex, Owner>, t: nat, th: Thread)
    requires ServeKeeps(p, mode) && Talking(th) && Kept(p, owner, t, th) && !th.work.Free?
    ensures var o := Owner(t, Res(th.work.m));
            Typed(th.work) &&
            var (owner', next) := WorkStep(mode, owner, o, th.work);
            Kept(p, owner', t, Go(th, next)) && Frame(p, owner, owner', o)
  {
    WorkSound(th);
    var m, o := th.work.m, Owner(t, Res(th.work.m));
    var (owner', next) := WorkStep(mode, owner, o, th.work);
    WorkStepKeepsMessage(mode, owner, o, th.work);
    ServeMoves(th, next);
    assert m in Out(th);
    var v := ViewOf(th, m);
    assert p(Owned(owner, t, Res(m)), v);
    assert ServeKeepsAt(p, mode, owner, o, v);
    MoveKeeps(p, owner, owner', t, th, Go(th, next), m, ServeView(v, next).m);
  }

  lemma OtherKept(p: Rule, owner: map<Mutex, Owner>, owner': map<Mutex, Owner>, o: Owner, t: nat, th: Thread)
    requires Kept(p, owner, t, th) && Frame(p, owner, owner', o) && t != o.t
    ensures Kept(p, owner', t, th)
  {
    forall m | m in Out(th) ensures p(Owned(owner', t, Res(m)), ViewOf(th, m)) {
      assert p(Owned(owner, t, Res(m)), ViewOf(th, m));
    }
  }

  lemma WorkStepOwners(mode: Mode, owner: map<Mutex, Owner>, o: Owner, w: Work)
    requires Typed(w)
    ensures var owner' := WorkStep(mode, owner, o, w).0;
            forall x :: x in owner' ==> owner'[x] == o || (x in owner && owner'[x] == owner[x])
  {
  }

  lemma ServeAllKept(p: Rule, mode: Mode, s: State, t: nat, v: nat)
    requires ServeKeeps(p, mode) && AllTalk(s) && AllKept(p, s) && t < |s.threads| && Typed(s.threads[t].work)
    ensures AllKept(p, ServeStep(mode, s, t, v))
  {
    var th, s' := s.threads[t], ServeStep(mode, s, t, v);
    var o := Owner(t, Res(th.work.m));
    assert ThreadTalks(th) && Kept(p, s.owner, t, th);
    ServeMoveKept(p, mode, s.owner, t, th);
    forall u | 0 <= u < |s'.threads| && !Waiting(s'.threads[u]) ensures Kept(p, s'.owner, u, s'.threads[u]) {
      if u != t {
        OtherKept(p, s.owner, s'.owner, o, u, s.threads[u]);
      }
    }
  }

  lemma ServeOwnersExist(mode: Mode, s: State, t: nat, v: nat)
    requires AllTalk(s) && OwnersExist(s) && t < |s.threads|
    ensures OwnersExist(ServeStep(mode, s, t, v))
  {
    var th := s.threads[t];
    assert ThreadTalks(th);
    if Typed(th.work) {
      WorkSound(th);
      WorkStepOwners(mode, s.owner, Owner(t, Res(th.work.m)), th.work);
    }
  }

  lemma ClientKept(p: Rule, s: State, t: nat, m: Msg, draws: seq<nat>)
    requires StartsWith(p) && ClientKeeps(p) && Inv(p, s) && t < |s.threads|
    ensures var th' := ClientStep(s.threads[t], m, draws); Waiting(th') || Kept(p, s.owner, t, th')
  {
    var th := s.threads[t];
    assert ThreadTalks(th);
    if Waiting(th) {
      if m in th.net && m == PingResp {
        ClientStartKept(p, s, t, draws);
      }
    } else {
      NoPing(th);
      if m in th.net && IsReply(m) {
        ClientMoveKept(p, s.owner, t, th, m, draws);
      }
    }
  }

  lemma TakeKept(p: Rule, s: State, t: nat, m: Msg)
    requires TakeKeeps(p) && Inv(p, s) && t < |s.threads|
    ensures var th' := TakeStep(s.threads[t], m); Waiting(th') || Kept(p, s.owner, t, th')
  {
    var th := s.threads[t];
    assert ThreadTalks(th);
    if Waiting(th) {
      TakeWaiting(th, m);
    } else {
      NoPing(th);
      if m in th.net && IsRequest(m) && th.work.Free? {
        TakeMoveKept(p, s.owner, t, th, m);
      }
    }
  }

  lemma ThreadStepKept(p: Rule, mode: Mode, s: State, e: Event)
    requires Inductive(p, mode) && Inv(p, s) && e.t < |s.threads| && !e.Serve?
    ensures AllKept(p, Step(mode, s, e))
  {
    if e.Client? {
      ClientKept(p, s, e.t, e.m, e.draws);
    } else {
      TakeKept(p, s, e.t, e.m);
    }
  }

  lemma SlotsStay(mode: Mode, s: State, e: Event)
    requires AllTalk(s) && e.t < |s.threads| && !e.Serve?
    ensures var s' := Step(mode, s, e);
            s'.owner == s.owner && forall t :: 0 <= t < |s.threads| ==> |s'.threads[t].slots| >= |s.threads[t].slots|
  {
    var th := s.threads[e.t];
    assert ThreadTalks(th);
  }

  lemma StepKeepsInv(p: Rule, mode: Mode, s: State, e: Event)
    requires Inductive(p, mode) && Inv(p, s)
    ensures Inv(p, Step(mode, s, e))
  {
    StepTalks(mode, s, e);
    if e.t < |s.threads| {
      if e.Serve? {
        ServeOwnersExist(mode, s, e.t, e.v);
        if Typed(s.threads[e.t].work) {
          ServeAllKept(p, mode, s, e.t, e.v);
        }
      } else {
        ThreadStepKept(p, mode, s, e);
        SlotsStay(mode, s, e);
      }
    }
  }

  /** A rule that holds of a fresh slot and that every local step keeps, for its own slot and for
      all others, holds of every slot in every run. */
  lemma {:induction false} RunInv(p: Rule, mode: Mode, n: nat, events: seq<Event>)
    requires Inductive(p, mode)
    ensures Inv(p, Run(mode, n, events))
  {
    if events != [] {
      var before := events[..|events| - 1];
      RunInv(p, mode, n, before);
      StepKeepsInv(p, mode, Run(mode, n, before), events[|events| - 1]);
    }
  }

  // ----- the lock table -----------------------------------------------------------------------------------------

  /** All other slots keep what they own when one slot takes or drops a lock. */
  lemma TakeLock(owner: map<Mutex, Owner>, x: Mutex, o: Owner)
    requires x !in owner
    ensures Owned(owner[x := o], o.t, o.r) == Owned(owner, o.t, o.r) + {x}
    ensures forall t: nat, r: nat :: Owner(t, r) != o ==> Owned(owner[x := o], t, r) == Owned(owner, t, r)
  {
  }

  lemma DropLock(owner: map<Mutex, Owner>, x: Mutex)
    ensures forall t: nat, r: nat :: Owned(owner - {x}, t, r) == Owned(owner, t, r) - {x}
    ensures forall t: nat, r: nat :: x in owner && owner[x] != Owner(t, r) ==> x !in Owned(owner, t, r)
  {
  }

  lemma SameFrame(p: Rule, owner: map<Mutex, Owner>, owner': map<Mutex, Owner>, o: Owner)
    requires forall t: nat, r: nat :: Owner(t, r) != o ==> Owned(owner', t, r) == Owned(owner, t, r)
    ensures Frame(p, owner, owner', o)
  {
  }
}
