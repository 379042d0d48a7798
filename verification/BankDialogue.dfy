/** What SmallBank clients and servers say and when: which step brings a message into the network, what
    it takes out, and that all requests of a transaction speak of the same accounts and locks. */
module BankDialogue {
  import opened Bits
  import opened BankServer
  import opened BankProtocol

  // ----- who says what in answer to what -----------------------------------------------------------------

  /** u is draw number k as an account; draws beyond the given ones are open. */
  predicate Fresh(draws: seq<nat>, k: nat, u: nat) {
    k < |draws| ==> u == draws[k] % ACCOUNTS
  }

  /** What slot i locks, by transaction type: 10 Amalgamate, 10 Balance, 9 DepositChecking, 16 SendPayment,
      10 TransactSavings and 9 WriteCheck slots. */
  function LocksOf(i: nat): Flags {
    if i < 10 then Flags(true, false, false, true)
    else if i < 20 then Flags(false, false, false, false)
    else if i < 29 then Flags(true, false, false, false)
    else if i < 45 then Flags(true, false, true, false)
    else if i < 55 then Flags(false, true, false, false)
    else Flags(true, false, false, false)
  }

  /** The first request of slot i. */
  predicate Opens(draws: seq<nat>, i: nat, u1: nat, u2: nat, want: Flags) {
    && i < 64 && Fresh(draws, 2 * i, u1) && want == LocksOf(i)
    && (if i < 10 || 29 <= i < 45 then Fresh(draws, 2 * i + 1, u2) else u2 == if i < 29 then u1 else 0)
  }

  /** The client sends m in answer to x. */
  predicate ClientSays(x: Msg, draws: seq<nat>, m: Msg) {
    match m
    case DataReq(n, u1, u2, want) =>
      if x == PingResp then Opens(draws, n, u1, u2, want)
      else
        && (x.FinResp? || (x.LockResp? && !x.ok)) && n == (x.n + 64) % U32
        && Fresh(draws, 0, u1) && Fresh(draws, 1, u2)
    case LockReq(n, _, _, _) => x == DataResp(n)
    case FinReq(n, _, _, _, _) => x == LockResp(n, true)
    case _ => false
  }

  /** The server sends m at once when it takes x. */
  predicate ServerSays(x: Msg, m: Msg) {
    match m
    case PingResp => x == Ping
    case DataResp(n) => x.DataReq? && x.n == n
    case _ => false
  }

  /** The server sends m when it is done with the request x. */
  predicate ServerReplies(x: Msg, m: Msg) {
    match m
    case LockResp(n, _) => x.LockReq? && x.n == n
    case FinResp(n) => x.FinReq? && x.n == n
    case _ => false
  }

  predicate Enters(th: Thread, th': Thread, m: Msg) { th'.net[m] > th.net[m] }

  /** The step is one of thread t's own, and brings m in answer to what it takes out. */
  predicate Cause(s: State, s': State, e: Event, t: nat, m: Msg)
    requires t < |s.threads| == |s'.threads|
  {
    var th, th' := s.threads[t], s'.threads[t];
    && e.t == t
    && match e
       case Client(_, x, draws) => ClientSays(x, draws, m) && x in th.net && th'.net[x] == th.net[x] - 1
       case Take(_, x) => ServerSays(x, m) && x in th.net && th'.net[x] == th.net[x] - 1
       case Serve(_, _) => !th.work.Free? && ServerReplies(th.work.m, m) && th'.work.Free?
  }

  lemma OpeningSays(draws: seq<nat>, m: Msg)
    requires m in InitialRequests(InitSlots(draws))
    ensures ClientSays(PingResp, draws, m)
  {
    var i :| 0 <= i < SLOTS && m == DataRequest(InitSlots(draws)[i]);
  }

  lemma ResponseSays(sl: Slot, x: Msg, draws: seq<nat>)
    requires IsReply(x)
    ensures ClientSays(x, draws, Respond(sl, x, draws).1)
  {
  }

  lemma ClientCause(th: Thread, x: Msg, draws: seq<nat>, m: Msg)
    requires Enters(th, ClientStep(th, x, draws), m)
    ensures ClientSays(x, draws, m) && x in th.net && ClientStep(th, x, draws).net[x] == th.net[x] - 1
  {
    if x == PingResp {
      var ms := multiset(InitialRequests(InitSlots(draws)));
      assert ms[m] > 0 && ms[PingResp] == 0;
      OpeningSays(draws, m);
    } else {
      ResponseSays(th.slots[x.n % SLOTS], x, draws);
    }
  }

  lemma TakeCause(th: Thread, x: Msg, m: Msg)
    requires Enters(th, TakeStep(th, x), m)
    ensures ServerSays(x, m) && x in th.net && TakeStep(th, x).net[x] == th.net[x] - 1
  {
  }

  lemma ServeCause(mode: Mode, s: State, t: nat, v: nat, m: Msg)
    requires t < |s.threads| && Enters(s.threads[t], ServeStep(mode, s, t, v).threads[t], m)
    ensures !s.threads[t].work.Free? && ServerReplies(s.threads[t].work.m, m)
    ensures ServeStep(mode, s, t, v).threads[t].work.Free?
  {
  }

  /** In every state, reachable or not, and for both forms of the lock flag: a message comes into the
      network of a thread only in answer to the one that is taken out in the same step. GET_LOCK n
      answers the data of n, FINISH n the granted locks of n; GET_DATA follows the ping, or, with the
      next number of the slot and freshly drawn accounts, a refusal or the end of a transaction. */
  lemma MessagesEnter(mode: Mode, s: State, e: Event, t: nat, m: Msg)
    requires t < |s.threads| && Enters(s.threads[t], Step(mode, s, e).threads[t], m)
    ensures Cause(s, Step(mode, s, e), e, t, m)
  {
    match e
    case Client(_, x, draws) => ClientCause(s.threads[t], x, draws, m);
    case Take(_, x) => TakeCause(s.threads[t], x, m);
    case Serve(_, v) => ServeCause(mode, s, t, v, m);
  }

  // ----- every message is answered -----------------------------------------------------------------------

  lemma ClientAnswers(th: Thread, x: Msg, draws: seq<nat>) returns (m: Msg)
    requires IsReply(x) && x in th.net && x.n % SLOTS < |th.slots|
    ensures ClientSays(x, draws, m)
    ensures var th' := ClientStep(th, x, draws);
            th'.net == th.net - multiset{x} + multiset{m} && th'.work == th.work
  {
    m := Respond(th.slots[x.n % SLOTS], x, draws).1;
    ResponseSays(th.slots[x.n % SLOTS], x, draws);
  }

  /** Whenever a reply is under way the client takes it and sends exactly the one message that follows. */
  lemma RepliesAreAnswered(mode: Mode, n: nat, events: seq<Event>, t: nat, x: Msg, draws: seq<nat>) returns (m: Msg)
    requires t < n && x in Run(mode, n, events).threads[t].net && IsReply(x)
    ensures ClientSays(x, draws, m)
    ensures var s, s' := Run(mode, n, events), Run(mode, n, events + [Client(t, x, draws)]);
            && s'.threads[t].net == s.threads[t].net - multiset{x} + multiset{m}
            && s'.owner == s.owner && s'.balance == s.balance
  {
    RunTalks(mode, n, events);
    var s := Run(mode, n, events);
    var th := s.threads[t];
    assert ThreadTalks(th) && x in Out(th);
    RunAppend(mode, n, events, Client(t, x, draws));
    m := ClientAnswers(th, x, draws);
  }

  /** th' is th with the request x taken off its network. */
  predicate Taken(th: Thread, th': Thread, x: Msg) {
    && th'.slots == th.slots
    && (x.DataReq? ==> th'.net == th.net - multiset{x} + multiset{DataResp(x.n)} && th'.work.Free?)
    && (x.LockReq? ==> th'.net == th.net - multiset{x} && th'.work == Locking(x, 0, NO_FLAGS, false))
    && (x.FinReq? ==> th'.net == th.net - multiset{x} && th'.work == Finishing(x, 0))
  }

  lemma TakeTakes(th: Thread, x: Msg)
    requires x in th.net && th.work.Free?
    ensures IsRequest(x) ==> Taken(th, TakeStep(th, x), x)
  {
  }

  /** Whenever a request is under way a free server takes it: GET_DATA is answered at once, GET_LOCK and
      FINISH become its work from their first step on. */
  lemma RequestsAreTaken(mode: Mode, n: nat, events: seq<Event>, t: nat, x: Msg)
    requires t < n && x in Run(mode, n, events).threads[t].net && IsRequest(x)
    requires Run(mode, n, events).threads[t].work.Free?
    ensures Taken(Run(mode, n, events).threads[t], Run(mode, n, events + [Take(t, x)]).threads[t], x)
  {
    RunAppend(mode, n, events, Take(t, x));
    TakeTakes(Run(mode, n, events).threads[t], x);
  }

  lemma OpensAll(draws: seq<nat>, net: multiset<Msg>)
    requires net == multiset(InitialRequests(InitSlots(draws)))
    ensures forall m :: m in net ==> m.DataReq? && Opens(draws, m.n, m.u1, m.u2, m.want)
  {
    forall m | m in net ensures m.DataReq? && Opens(draws, m.n, m.u1, m.u2, m.want) {
      assert m in InitialRequests(InitSlots(draws));
      OpeningSays(draws, m);
    }
  }

  /** The ping reply is answered by one GET_DATA request per slot, for all 64 slots. */
  lemma PingIsAnswered(mode: Mode, n: nat, events: seq<Event>, t: nat, draws: seq<nat>)
    requires t < n && PingResp in Run(mode, n, events).threads[t].net
    ensures var net := Run(mode, n, events + [Client(t, PingResp, draws)]).threads[t].net;
            && OnePer(net, 64)
            && forall m :: m in net ==> m.DataReq? && Opens(draws, m.n, m.u1, m.u2, m.want)
  {
    RunTalks(mode, n, events);
    var th := Run(mode, n, events).threads[t];
    assert ThreadTalks(th);
    StillWaiting(th);
    RunAppend(mode, n, events, Client(t, PingResp, draws));
    ClientStarts(th, draws);
    var th' := ClientStep(th, PingResp, draws);
    assert th'.net == Out(th') == multiset(InitialRequests(InitSlots(draws)));
    OpensAll(draws, th'.net);
  }

  lemma StillWaiting(th: Thread)
    requires ThreadTalks(th) && PingResp in th.net
    ensures Waiting(th)
  {
    assert PingResp in Out(th);
  }

  // ----- one transaction -----------------------------------------------------------------------------------

  /** No GET_DATA request of slot r comes in. */
  ghost predicate NoneEnters(th: Thread, th': Thread, r: nat) {
    forall m: Msg :: m.DataReq? && Res(m) == r ==> !Enters(th, th', m)
  }

  /** What the slots of a thread say their last GET_DATA requests were, before and after a step: either the
      request of slot r has just come in, or none has and the slot still says the same. */
  ghost predicate Remembers(th: Thread, th': Thread, r: nat)
    requires r < SLOTS
  {
    th'.slots == [] ||
    (|th'.slots| == SLOTS &&
     (|| Enters(th, th', DataRequest(th'.slots[r]))
      || (|th.slots| == SLOTS && DataRequest(th'.slots[r]) == DataRequest(th.slots[r]) && NoneEnters(th, th', r))))
  }

  lemma StartRemembers(th: Thread, draws: seq<nat>, r: nat)
    requires Waiting(th) && PingResp in th.net && r < SLOTS
    ensures Remembers(th, ClientStep(th, PingResp, draws), r)
  {
    var slots := InitSlots(draws);
    assert InitialRequests(slots)[r] == DataRequest(slots[r]);
    assert multiset(InitialRequests(slots))[DataRequest(slots[r])] > 0;
  }

  lemma AnswerRemembers(th: Thread, x: Msg, draws: seq<nat>, r: nat)
    requires Talking(th) && x in th.net && IsReply(x) && r < SLOTS
    ensures Remembers(th, ClientStep(th, x, draws), r)
  {
    assert x in Out(th) && |th.slots| == SLOTS;
    NextId(x.n);
    AnswersRemembered(th, x, draws, r);
  }

  lemma AnswersRemembered(th: Thread, x: Msg, draws: seq<nat>, r: nat)
    requires |th.slots| == SLOTS && x in th.net && IsReply(x) && r < SLOTS
    requires ((x.n + SLOTS) % U32) % SLOTS == x.n % SLOTS
    ensures Remembers(th, ClientStep(th, x, draws), r)
  {
    var (sl, m) := Respond(th.slots[x.n % SLOTS], x, draws);
    assert ClientStep(th, x, draws) == Answer(th, x, x.n % SLOTS, sl, m);
  }

  lemma ClientRemembers(th: Thread, x: Msg, draws: seq<nat>, r: nat)
    requires ThreadTalks(th) && r < SLOTS
    ensures Remembers(th, ClientStep(th, x, draws), r)
  {
    if x in th.net && x == PingResp {
      StillWaiting(th);
      StartRemembers(th, draws, r);
    } else if x in th.net && IsReply(x) {
      AnswerRemembers(th, x, draws, r);
    }
  }

  lemma ServerKeepsSlots(mode: Mode, s: State, e: Event, t: nat)
    requires t < |s.threads| && !(e.Client? && e.t == t)
    ensures Step(mode, s, e).threads[t].slots == s.threads[t].slots
  {
  }

  lemma ServerAsksNothing(mode: Mode, s: State, e: Event, t: nat, r: nat)
    requires t < |s.threads| && !(e.Client? && e.t == t)
    ensures NoneEnters(s.threads[t], Step(mode, s, e).threads[t], r)
  {
    var th, th' := s.threads[t], Step(mode, s, e).threads[t];
    forall m: Msg | m.DataReq? && Res(m) == r ensures !Enters(th, th', m) {
      if Enters(th, th', m) {
        MessagesEnter(mode, s, e, t, m);
      }
    }
  }

  lemma ServerRemembers(mode: Mode, s: State, e: Event, t: nat, r: nat)
    requires t < |s.threads| && ThreadTalks(s.threads[t]) && r < SLOTS && !(e.Client? && e.t == t)
    ensures Remembers(s.threads[t], Step(mode, s, e).threads[t], r)
  {
    ServerKeepsSlots(mode, s, e, t);
    ServerAsksNothing(mode, s, e, t, r);
  }

  lemma StepRemembers(mode: Mode, s: State, e: Event, t: nat, r: nat)
    requires t < |s.threads| && ThreadTalks(s.threads[t]) && r < SLOTS
    ensures Remembers(s.threads[t], Step(mode, s, e).threads[t], r)
  {
    if e.Client? && e.t == t {
      ClientRemembers(s.threads[t], e.m, e.draws, r);
    } else {
      ServerRemembers(mode, s, e, t, r);
    }
  }

  type History = nat -> Thread

  /** Step number j has brought m in, and no later one another GET_DATA request of that slot. */
  ghost predicate AskedAt(h: History, len: nat, m: Msg, j: nat) {
    && j < len && Enters(h(j), h(j + 1), m)
    && forall i: nat :: j < i < len ==> NoneEnters(h(i), h(i + 1), Res(m))
  }

  ghost predicate AskedIn(h: History, len: nat, m: Msg) {
    exists j: nat :: AskedAt(h, len, m, j)
  }

  lemma StillAsked(h: History, h': History, len: nat, m: Msg)
    requires (forall i: nat :: i <= len ==> h'(i) == h(i)) && AskedIn(h, len, m)
    requires NoneEnters(h'(len), h'(len + 1), Res(m))
    ensures AskedIn(h', len + 1, m)
  {
    var j: nat :| AskedAt(h, len, m, j);
    forall i: nat | j < i < len + 1 ensures NoneEnters(h'(i), h'(i + 1), Res(m)) {
      if i < len {
        assert NoneEnters(h(i), h(i + 1), Res(m));
      }
    }
    assert AskedAt(h', len + 1, m, j);
  }

  /** Thread t after each prefix of the events. */
  function HistoryOf(mode: Mode, n: nat, events: seq<Event>, t: nat): History
    requires t < n
  {
    (i: nat) => Run(mode, n, if i <= |events| then events[..i] else events).threads[t]
  }

  /** m is the last GET_DATA request of its slot. */
  ghost predicate LastAsked(mode: Mode, n: nat, events: seq<Event>, t: nat, m: Msg)
    requires t < n
  {
    m.DataReq? && AskedIn(HistoryOf(mode, n, events, t), |events|, m)
  }

  lemma LongerHistory(mode: Mode, n: nat, events: seq<Event>, t: nat, k: nat)
    requires t < n && |events| == k + 1
    ensures var h, h' := HistoryOf(mode, n, events[..k], t), HistoryOf(mode, n, events, t);
            && (forall i: nat :: i <= k ==> h'(i) == h(i))
            && h'(k) == Run(mode, n, events[..k]).threads[t] && h'(k + 1) == Run(mode, n, events).threads[t]
  {
    var before := events[..k];
    forall i: nat | i <= k ensures events[..i] == before[..i] {
    }
    assert before[..k] == before && events[..k + 1] == events;
  }

  lemma {:induction false} SlotRemembers(mode: Mode, n: nat, events: seq<Event>, t: nat, r: nat)
    requires t < n && r < SLOTS && Run(mode, n, events).threads[t].slots != []
    ensures var slots := Run(mode, n, events).threads[t].slots;
            |slots| == SLOTS && LastAsked(mode, n, events, t, DataRequest(slots[r]))
  {
    if events != [] {
      var k := |events| - 1;
      var before := events[..k];
      var s, th' := Run(mode, n, before), Run(mode, n, events).threads[t];
      RunTalks(mode, n, before);
      assert ThreadTalks(s.threads[t]);
      StepRemembers(mode, s, events[k], t, r);
      LongerHistory(mode, n, events, t, k);
      var h, h', m := HistoryOf(mode, n, before, t), HistoryOf(mode, n, events, t), DataRequest(th'.slots[r]);
      if Enters(h'(k), h'(k + 1), m) {
        assert AskedAt(h', k + 1, m, k);
      } else {
        SlotRemembers(mode, n, before, t, r);
        ResOfSlot(mode, n, events, t, r);
        StillAsked(h, h', k, m);
      }
    }
  }

  lemma ResOfSlot(mode: Mode, n: nat, events: seq<Event>, t: nat, r: nat)
    requires t < n && r < SLOTS && |Run(mode, n, events).threads[t].slots| == SLOTS
    ensures Res(DataRequest(Run(mode, n, events).threads[t].slots[r])) == r
  {
    RunTalks(mode, n, events);
    var th := Run(mode, n, events).threads[t];
    assert ThreadTalks(th);
    assert Present(Out(th), r);
    var m :| m in Out(th) && Res(m) == r;
    assert Sound(ViewOf(th, m), r);
  }

  ghost predicate Typecast(slots: seq<Slot>) {
    forall r: nat :: r < |slots| ==> slots[r].locks == LocksOf(r)
  }

  lemma StepKeepsTypes(mode: Mode, s: State, e: Event, t: nat)
    requires t < |s.threads| && Typecast(s.threads[t].slots)
    ensures Typecast(Step(mode, s, e).threads[t].slots)
  {
    if !(e.Client? && e.t == t) {
      ServerKeepsSlots(mode, s, e, t);
    }
  }

  /** A slot runs transactions of one type for ever. */
  lemma {:induction false} SlotsKeepTypes(mode: Mode, n: nat, events: seq<Event>, t: nat)
    requires t < n
    ensures Typecast(Run(mode, n, events).threads[t].slots)
  {
    if events != [] {
      SlotsKeepTypes(mode, n, events[..|events| - 1], t);
      StepKeepsTypes(mode, Run(mode, n, events[..|events| - 1]), events[|events| - 1], t);
    }
  }

  /** Every message of a slot belongs to the last GET_DATA request of the slot: it has its number, and
      GET_LOCK and FINISH name the accounts and the locks of that request. FINISH changes and unlocks
      exactly what was locked, and what that is never changes from one transaction of the slot to the next. */
  lemma OneTransaction(mode: Mode, n: nat, events: seq<Event>, t: nat, x: Msg) returns (m: Msg)
    requires t < n && x in Out(Run(mode, n, events).threads[t]) && IsTxn(x)
    ensures LastAsked(mode, n, events, t, m) && m.n == x.n && m.want == LocksOf(x.n % 64)
    ensures x.DataReq? ==> x == m
    ensures x.LockReq? ==> x == LockReq(m.n, m.u1, m.u2, m.want)
    ensures x.FinReq? ==> x == FinReq(m.n, m.u1, m.u2, m.want, m.want)
  {
    RunTalks(mode, n, events);
    var th := Run(mode, n, events).threads[t];
    assert ThreadTalks(th) && !Waiting(th);
    assert Sound(ViewOf(th, x), Res(x));
    SlotRemembers(mode, n, events, t, Res(x));
    SlotsKeepTypes(mode, n, events, t);
    m := DataRequest(th.slots[Res(x)]);
  }

  lemma RunAppend(mode: Mode, n: nat, events: seq<Event>, e: Event)
    ensures Run(mode, n, events + [e]) == Step(mode, Run(mode, n, events), e)
  {
    assert (events + [e])[..|events|] == events;
  }
}
