/** The reflector: a packet is rewritten in its receive buffer and sent from there. The thread
    returns the receive queue (RQ) entry as soon as it has rung the send queue's (SQ) doorbell, so
    whether the frame is still in the buffer when the SQ reads it is a race between the SQ and the
    next lap of arriving packets. */
module Reflector {
  import opened Bits
  import opened ReceivePath

  /** `memory` holds the receive buffers with the rewriting done in place, `sent` what the SQ has
      read; the SQ reads the frames in the order in which they were posted. */
  datatype Both = Both(rx: State, memory: seq<ReceivePath.Packet>, sent: seq<ReceivePath.Packet>)

  type Rewrite = ReceivePath.Packet -> ReceivePath.Packet

  ghost predicate KeepsLength(f: Rewrite) {
    forall p :: |f(p)| == |p|
  }

  function Write(memory: seq<ReceivePath.Packet>, b: int, p: ReceivePath.Packet): (m: seq<ReceivePath.Packet>)
    ensures |m| == |memory|
  {
    if 0 <= b < |memory| then memory[b := Overlay(memory[b], p)] else memory
  }

  function First(data: ReceivePath.Packet, n: nat): ReceivePath.Packet {
    if n <= |data| then data[..n] else data
  }

  datatype Action = Incoming(p: ReceivePath.Packet) | Loop | SqReads

  /** `lag` bounds how far the SQ may be behind: an RQ entry is returned only while at most `lag`
      posted frames are unread. The device code has no such wait; the bound describes the
      schedules considered. */
  function Act(g: Rings, f: Rewrite, lag: nat, s: Both, a: Action): (s': Both)
    requires Shape(g, s.rx) && |s.memory| == g.rq
    ensures Shape(g, s'.rx) && |s'.memory| == g.rq
  {
    match a
    case Incoming(p) =>
      var rx := Arrive(g, s.rx, p);
      if |rx.arrived| == |s.rx.arrived| then s
      else s.(rx := rx, memory := Write(s.memory, |s.rx.arrived| % g.rq, p))
    case Loop =>
      if s.rx.pc == AtStepRq && |s.rx.handled| > |s.sent| + lag then s
      else
        var rx, k := Software(g, s.rx), |s.rx.handled|;
        s.(rx := rx,
           memory := if |rx.handled| == k then s.memory else Write(s.memory, k % g.rq, f(rx.handled[|rx.handled| - 1])))
    case SqReads =>
      var k := |s.sent|;
      if k >= |s.rx.handled| then s
      else s.(sent := s.sent + [First(s.memory[k % g.rq], |s.rx.handled[k]|)])
  }

  function Start(g: Rings): (s: Both)
    requires g.Valid()
    ensures Shape(g, s.rx) && |s.memory| == g.rq
  {
    Both(Init(g), seq(g.rq, i => []), [])
  }

  function After(g: Rings, f: Rewrite, lag: nat, actions: seq<Action>): (s: Both)
    requires g.Valid()
    ensures Shape(g, s.rx) && |s.memory| == g.rq
  {
    if actions == [] then Start(g)
    else Act(g, f, lag, After(g, f, lag, actions[..|actions| - 1]), actions[|actions| - 1])
  }

  /** What the SQ has read is what the thread posted. */
  predicate Faithful(f: Rewrite, s: Both) {
    && |s.sent| <= |s.rx.handled|
    && forall k: nat :: k < |s.sent| ==> s.sent[k] == f(s.rx.handled[k])
  }

  // ----- an SQ that keeps up ----------------------------------------------------------------------------

  /** Packet number i, rewritten if it has been handled, is in its buffer. */
  predicate Kept(g: Rings, f: Rewrite, s: Both, i: nat)
    requires |s.memory| == g.rq > 0 && i < |s.rx.arrived|
  {
    (if i < |s.rx.handled| then f(s.rx.arrived[i]) else s.rx.arrived[i]) <= s.memory[i % g.rq]
  }

  ghost predicate AllKept(g: Rings, f: Rewrite, s: Both) {
    && |s.memory| == g.rq > 0
    && forall i: nat :: |s.sent| <= i < |s.rx.arrived| ==> Kept(g, f, s, i)
  }

  ghost predicate Together(g: Rings, f: Rewrite, s: Both) {
    && Inv(g, s.rx) && AllKept(g, f, s) && Faithful(f, s) && RqSteps(s.rx) <= |s.sent|
  }

  lemma ArrivalKeeps(g: Rings, f: Rewrite, s: Both, s': Both, p: ReceivePath.Packet, i: nat)
    requires |s.memory| == g.rq > 0 && |s.rx.handled| <= |s.rx.arrived|
    requires s'.rx.arrived == s.rx.arrived + [p] && s'.rx.handled == s.rx.handled
    requires s'.memory == Write(s.memory, |s.rx.arrived| % g.rq, p)
    requires i <= |s.rx.arrived| < i + g.rq && (i < |s.rx.arrived| ==> Kept(g, f, s, i))
    ensures Kept(g, f, s', i)
  {
    if i < |s.rx.arrived| {
      DistinctSlots(i, |s.rx.arrived|, g.rq);
    }
  }

  lemma IncomingKeepsAll(g: Rings, f: Rewrite, s: Both, p: ReceivePath.Packet)
    requires g.Valid() && Together(g, f, s)
    ensures AllKept(g, f, Act(g, f, 0, s, Incoming(p)))
  {
    var n, s' := |s.rx.arrived|, Act(g, f, 0, s, Incoming(p));
    ArriveAccepts(g, s.rx, p);
    if |s'.rx.arrived| > n {
      forall i: nat | |s.sent| <= i < n + 1 ensures Kept(g, f, s', i) {
        ArrivalKeeps(g, f, s, s', p, i);
      }
    }
  }

  lemma IncomingTogether(g: Rings, f: Rewrite, s: Both, p: ReceivePath.Packet)
    requires g.Valid() && Together(g, f, s)
    ensures Together(g, f, Act(g, f, 0, s, Incoming(p)))
  {
    ArriveKeepsInv(g, s.rx, p);
    IncomingKeepsAll(g, f, s, p);
  }

  /** What the loop does to the counters. */
  lemma LoopCounts(g: Rings, s: State)
    requires g.Valid() && g.logRq <= g.logCq && Inv(g, s)
    ensures var s' := Software(g, s);
            && s'.arrived == s.arrived && s.handled <= s'.handled && |s'.handled| <= |s.handled| + 1
            && RqSteps(s') <= (if s.pc == AtStepRq then |s.handled| else RqSteps(s))
    ensures var s', k := Software(g, s), |s.handled|;
            |s'.handled| > k ==> k < |s.arrived| && s'.handled[k] == s.arrived[k]
  {
    SoftwareKeepsInv(g, s);
  }

  lemma HandlingKeeps(g: Rings, f: Rewrite, s: Both, s': Both, i: nat)
    requires |s.memory| == g.rq > 0 && |s.rx.handled| < |s.rx.arrived|
    requires s'.rx.arrived == s.rx.arrived && |s'.rx.handled| == |s.rx.handled| + 1
    requires s'.memory == Write(s.memory, |s.rx.handled| % g.rq, f(s.rx.arrived[|s.rx.handled|]))
    requires i < |s.rx.arrived| && i - g.rq < |s.rx.handled| < i + g.rq && Kept(g, f, s, i)
    ensures Kept(g, f, s', i)
  {
    if i < |s.rx.handled| {
      DistinctSlots(i, |s.rx.handled|, g.rq);
    } else if |s.rx.handled| < i {
      DistinctSlots(|s.rx.handled|, i, g.rq);
    }
  }

  lemma LoopKeepsAll(g: Rings, f: Rewrite, s: Both)
    requires g.Valid() && g.logRq <= g.logCq && Together(g, f, s)
    ensures AllKept(g, f, Act(g, f, 0, s, Loop))
  {
    var s' := Act(g, f, 0, s, Loop);
    LoopCounts(g, s.rx);
    forall i: nat | |s.sent| <= i < |s.rx.arrived| ensures Kept(g, f, s', i) {
      assert Kept(g, f, s, i);
      if |s'.rx.handled| > |s.rx.handled| {
        HandlingKeeps(g, f, s, s', i);
      }
    }
  }

  lemma LoopTogether(g: Rings, f: Rewrite, s: Both)
    requires g.Valid() && g.logRq <= g.logCq && Together(g, f, s)
    ensures Together(g, f, Act(g, f, 0, s, Loop))
  {
    SoftwareKeepsInv(g, s.rx);
    LoopCounts(g, s.rx);
    LoopKeepsAll(g, f, s);
  }

  lemma ReadTogether(g: Rings, f: Rewrite, s: Both)
    requires g.Valid() && KeepsLength(f) && Together(g, f, s)
    ensures Together(g, f, Act(g, f, 0, s, SqReads))
  {
    var k, s' := |s.sent|, Act(g, f, 0, s, SqReads);
    if k < |s.rx.handled| {
      assert Kept(g, f, s, k);
      assert s'.sent[k] == f(s.rx.handled[k]);
      forall i: nat | k + 1 <= i < |s.rx.arrived| ensures Kept(g, f, s', i) {
        assert Kept(g, f, s, i);
      }
    }
  }

  lemma StartTogether(g: Rings, f: Rewrite)
    requires g.Valid()
    ensures Together(g, f, Start(g))
  {
    InitInv(g);
  }

  lemma {:induction false} AfterTogether(g: Rings, f: Rewrite, actions: seq<Action>)
    requires g.Valid() && g.logRq <= g.logCq && KeepsLength(f)
    ensures Together(g, f, After(g, f, 0, actions))
  {
    if actions == [] {
      StartTogether(g, f);
    } else {
      var before := actions[..|actions| - 1];
      AfterTogether(g, f, before);
      match actions[|actions| - 1]
      case Incoming(p) => IncomingTogether(g, f, After(g, f, 0, before), p);
      case Loop => LoopTogether(g, f, After(g, f, 0, before));
      case SqReads => ReadTogether(g, f, After(g, f, 0, before));
    }
  }

  // ----- an SQ one frame behind ---------------------------------------------------------------------------

  lemma AfterAppend(g: Rings, f: Rewrite, lag: nat, actions: seq<Action>, a: Action)
    requires g.Valid()
    ensures After(g, f, lag, actions + [a]) == Act(g, f, lag, After(g, f, lag, actions), a)
  {
    assert (actions + [a])[..|actions|] == actions;
  }

  ghost predicate Filled(g: Rings, s: Both, m: nat) {
    && Inv(g, s.rx) && |s.rx.arrived| == m && s.rx.handled == [] && s.rx.pc == AtPoll && s.sent == []
    && |s.memory| == g.rq && (m > 0 ==> s.rx.arrived[0] == [0])
  }

  lemma {:induction false} Fill(g: Rings, f: Rewrite, lag: nat, m: nat) returns (actions: seq<Action>)
    requires g.Valid() && m <= g.rq
    ensures Filled(g, After(g, f, lag, actions), m)
  {
    actions := [];
    if m == 0 {
      InitInv(g);
    } else {
      actions := Fill(g, f, lag, m - 1);
      ArriveKeepsInv(g, After(g, f, lag, actions).rx, [0]);
      AfterAppend(g, f, lag, actions, Incoming([0]));
      actions := actions + [Incoming([0])];
    }
  }

  /** The first packet is posted and its RQ entry returned, but not yet read by the SQ. */
  ghost predicate Returned(g: Rings, s: Both) {
    && Inv(g, s.rx) && |s.rx.arrived| == g.rq && s.rx.handled == [[0]] && s.rx.pc == AtStepCq && s.sent == []
    && |s.memory| == g.rq
  }

  lemma HandleFirst(g: Rings, f: Rewrite, lag: nat, s: Both)
    requires g.Valid() && g.logRq <= g.logCq && lag > 0 && Filled(g, s, g.rq)
    ensures Returned(g, Act(g, f, lag, Act(g, f, lag, s, Loop), Loop))
  {
    PollExactHere(g, s.rx);
    SoftwareKeepsInv(g, s.rx);
    var s1 := Act(g, f, lag, s, Loop);
    assert s1.rx.handled == s1.rx.arrived[..1] == [[0]];
    SoftwareKeepsInv(g, s1.rx);
  }

  lemma LostFrame(g: Rings, f: Rewrite, lag: nat, s: Both, x: nat)
    requires g.Valid() && KeepsLength(f) && Returned(g, s) && x != f([0])[0]
    ensures !Faithful(f, Act(g, f, lag, Act(g, f, lag, s, Incoming([x])), SqReads))
  {
    ArriveAccepts(g, s.rx, [x]);
    NextLap(0, g.rq);
    ResidueOf(0, 0, 0, g.rq);
    var s1 := Act(g, f, lag, s, Incoming([x]));
    assert s1.memory[0] == Overlay(s.memory[0], [x]);
    var s2 := Act(g, f, lag, s1, SqReads);
    assert s2.sent[0] == [x];
  }

  /** The entry of the first packet is returned while the SQ is one frame behind, the next lap
      of packets reaches it, and the SQ sends the bytes of another packet. */
  lemma OverwrittenRun(g: Rings, f: Rewrite, lag: nat) returns (actions: seq<Action>)
    requires g.Valid() && g.logRq <= g.logCq && KeepsLength(f) && lag > 0
    ensures !Faithful(f, After(g, f, lag, actions))
  {
    var a0 := Fill(g, f, lag, g.rq);
    HandleFirst(g, f, lag, After(g, f, lag, a0));
    AfterAppend(g, f, lag, a0, Loop);
    var a2 := a0 + [Loop] + [Loop];
    AfterAppend(g, f, lag, a0 + [Loop], Loop);
    var x := f([0])[0] + 1;
    LostFrame(g, f, lag, After(g, f, lag, a2), x);
    AfterAppend(g, f, lag, a2, Incoming([x]));
    AfterAppend(g, f, lag, a2 + [Incoming([x])], SqReads);
    actions := a2 + [Incoming([x])] + [SqReads];
  }

  ghost predicate AlwaysFaithful(g: Rings, f: Rewrite, lag: nat)
    requires g.Valid()
  {
    forall actions: seq<Action> :: Faithful(f, After(g, f, lag, actions))
  }

  /** Every reflected frame is sent as the thread rewrote it, in every run in which the SQ is
      at most `lag` frames behind when an RQ entry is returned, if and only if it is never behind:
      one unread frame is enough to lose it, for every depth of the rings and every rewriting. */
  lemma ReflectedIffNoLag(g: Rings, f: Rewrite, lag: nat)
    requires g.Valid() && g.logRq <= g.logCq && KeepsLength(f)
    ensures AlwaysFaithful(g, f, lag) <==> lag == 0
  {
    if lag == 0 {
      forall actions: seq<Action> ensures Faithful(f, After(g, f, lag, actions)) {
        AfterTogether(g, f, actions);
      }
    } else {
      var actions := OverwrittenRun(g, f, lag);
    }
  }
}
