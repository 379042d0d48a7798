/** The receive path of a DPA device thread: a completion queue (CQ) polled by an ownership
    bit, a receive queue (RQ) refilled through a 16-bit doorbell record, and the network
    hardware as a second party that only looks at the doorbell. */
module ReceivePath {
  import opened Bits
  import opened Common

  type Packet = seq<nat>

  datatype Cqe = Cqe(owner: nat, wqeCounter: nat, byteCount: nat)

  /** LOG_CQ_RING_DEPTH, LOG_RQ_RING_DEPTH and the depths they stand for. */
  datatype Rings = Rings(logCq: nat, logRq: nat, cq: nat, rq: nat) {
    /** A CQ index is a uint32, an RQ depth may not exceed 2^15. */
    predicate Valid() {
      cq == Pow2(logCq) && rq == Pow2(logRq) && logCq <= 31 && logRq <= 15
    }
  }

  /** Where the polling loop stands: at the ownership test, after processing the packet,
      or after returning the RQ entry. */
  datatype Pc = AtPoll | AtStepRq | AtStepCq

  /** `arrived` and `handled` record the packets the hardware accepted and the packets the
      loop processed; neither is read by the device code. */
  datatype State = State(
    cqRing: seq<Cqe>, buffers: seq<Packet>,
    cqIdx: nat, cqe: nat, ownerBit: nat, ciDbr: nat, rqDbr: nat,
    pc: Pc, arrived: seq<Packet>, handled: seq<Packet>)

  predicate Shape(g: Rings, s: State) {
    && g.cq > 0 && g.rq > 0
    && |s.cqRing| == g.cq && |s.buffers| == g.rq
    && s.cqe < g.cq && s.rqDbr < U16
  }

  /** The receive counter the host writes into the RQ doorbell record. */
  function InitialDoorbell(logRq: nat): nat {
    BitAnd(Pow2(logRq), 0xffff)
  }

  /** Host allocation (every CQE owned by 1) followed by init_cq. */
  function Init(g: Rings): (s: State)
    requires g.Valid()
    ensures Shape(g, s)
  {
    State(seq(g.cq, i => Cqe(1, 0, 0)), seq(g.rq, i => []),
          0, 0, 1, 0, InitialDoorbell(g.logRq), AtPoll, [], [])
  }

  /** A DMA write leaves the tail of a longer previous packet in the buffer. */
  function Overlay(was: Packet, p: Packet): (r: Packet)
    ensures p <= r
  {
    if |p| < |was| then p + was[|p|..] else p
  }

  /** Hardware: accept a packet if the doorbell shows an RQ entry, otherwise drop it.
      The CQE carries the parity of the lap as owner and the 16-bit WQE counter. */
  function Arrive(g: Rings, s: State, p: Packet): (s': State)
    requires Shape(g, s)
    ensures Shape(g, s')
  {
    var n := |s.arrived|;
    if (s.rqDbr - n % U16) % U16 == 0 then s
    else
      var b := n % g.rq;
      var c := n % g.cq;
      s.(buffers := s.buffers[b := Overlay(s.buffers[b], p)],
         cqRing := s.cqRing[c := Cqe((n / g.cq) % 2, n % U16, |p|)],
         arrived := s.arrived + [p])
  }

  /** The test that guards the polling loop. */
  predicate CqeIsNew(g: Rings, s: State)
    requires Shape(g, s)
  {
    s.cqRing[s.cqe].owner != s.ownerBit
  }

  /** receive_packet: the bytes the current CQE points at. */
  function ReceivePacket(g: Rings, s: State): Packet
    requires Shape(g, s)
  {
    var cqe := s.cqRing[s.cqe];
    var data := s.buffers[BitAnd(cqe.wqeCounter, g.rq - 1)];
    if cqe.byteCount <= |data| then data[..cqe.byteCount] else data
  }

  function StepRq(s: State): State {
    s.(rqDbr := (s.rqDbr + 1) % U16)
  }

  function StepCq(g: Rings, s: State): (s': State)
    requires Shape(g, s)
    ensures Shape(g, s')
  {
    var idx := (s.cqIdx + 1) % U32;
    var slot := BitAnd(idx, g.cq - 1);
    s.(cqIdx := idx, cqe := slot,
       ownerBit := if slot == 0 then (if s.ownerBit == 0 then 1 else 0) else s.ownerBit,
       ciDbr := idx)
  }

  /** One atomic step of the device thread. */
  function Software(g: Rings, s: State): (s': State)
    requires Shape(g, s)
    ensures Shape(g, s')
  {
    match s.pc
    case AtPoll =>
      if CqeIsNew(g, s) then s.(handled := s.handled + [ReceivePacket(g, s)], pc := AtStepRq) else s
    case AtStepRq => StepRq(s).(pc := AtStepCq)
    case AtStepCq => StepCq(g, s).(pc := AtPoll)
  }

  datatype Event = Packet(p: Packet) | Thread

  function Step(g: Rings, s: State, e: Event): (s': State)
    requires Shape(g, s)
    ensures Shape(g, s')
  {
    match e
    case Packet(p) => Arrive(g, s, p)
    case Thread => Software(g, s)
  }

  /** The state after an interleaving, the last event last. */
  function Run(g: Rings, events: seq<Event>): (s: State)
    requires g.Valid()
    ensures Shape(g, s)
  {
    if events == [] then Init(g) else Step(g, Run(g, events[..|events| - 1]), events[|events| - 1])
  }

  function CqSteps(s: State): int {
    if s.pc == AtPoll then |s.handled| else |s.handled| - 1
  }

  function RqSteps(s: State): int {
    if s.pc == AtStepRq then |s.handled| - 1 else |s.handled|
  }

  // ----- what every step keeps ------------------------------------------------

  /** The CQE and the buffer written for packet number i are still in place. */
  predicate CqeOf(g: Rings, s: State, i: nat)
    requires Shape(g, s) && i < |s.arrived|
  {
    s.cqRing[i % g.cq] == Cqe((i / g.cq) % 2, i % U16, |s.arrived[i]|)
  }

  predicate BufferOf(g: Rings, s: State, i: nat)
    requires Shape(g, s) && i < |s.arrived|
  {
    s.arrived[i] <= s.buffers[i % g.rq]
  }

  predicate Registers(g: Rings, s: State)
    requires Shape(g, s)
  {
    && (s.pc != AtPoll ==> |s.handled| > 0)
    && CqSteps(s) >= 0
    && s.cqIdx == CqSteps(s) % U32 && s.ciDbr == s.cqIdx
    && s.cqe == CqSteps(s) % g.cq
    && s.ownerBit == LapOwner(CqSteps(s), g.cq)
    && s.rqDbr == (g.rq + RqSteps(s)) % U16
  }

  ghost predicate CqMemory(g: Rings, s: State)
    requires Shape(g, s)
  {
    && (forall i: nat :: |s.arrived| - g.cq <= i < |s.arrived| ==> CqeOf(g, s, i))
    && (forall j: nat :: |s.arrived| <= j < g.cq ==> s.cqRing[j].owner == 1)
  }

  ghost predicate RqMemory(g: Rings, s: State)
    requires Shape(g, s)
  {
    forall i: nat :: |s.arrived| - g.rq <= i < |s.arrived| ==> BufferOf(g, s, i)
  }

  ghost predicate Inv(g: Rings, s: State) {
    && Shape(g, s) && Registers(g, s) && CqMemory(g, s) && RqMemory(g, s)
    && |s.handled| <= |s.arrived| <= RqSteps(s) + g.rq
    && s.handled == s.arrived[..|s.handled|]
  }

  /** The doorbell the host writes shows the whole ring exactly for depths below 2^16;
      from 2^16 on it shows an empty ring. */
  lemma DoorbellShowsDepth(logRq: nat)
    ensures InitialDoorbell(logRq) == Pow2(logRq) <==> logRq < 16
    ensures logRq >= 16 ==> InitialDoorbell(logRq) == 0
  {
    var d := Pow2(logRq);
    AndMask16(d);
    Pow2Words();
    if logRq < 16 {
      Pow2Monotone(logRq, 16);
      ResidueOf(d, 0, d, U16);
    } else {
      Pow2Split(16, logRq - 16);
      ResidueOf(d, Pow2(logRq - 16), 0, U16);
    }
  }

  lemma RqFitsDoorbell(g: Rings)
    requires g.Valid()
    ensures 2 * g.rq <= U16
  {
    Pow2Words();
    Pow2Monotone(g.logRq, 16);
  }

  lemma InitInv(g: Rings)
    requires g.Valid()
    ensures Inv(g, Init(g))
  {
    DoorbellShowsDepth(g.logRq);
    RqFitsDoorbell(g);
    var s := Init(g);
    ResidueOf(g.rq, 0, g.rq, U16);
    ResidueOf(0, 0, 0, g.cq);
  }

  lemma CreditOf(dbr: int, entries: int, n: int)
    requires dbr == entries % U16 && 0 <= entries - n < U16
    ensures (dbr - n % U16) % U16 == entries - n
  {
    WrapDistance(entries, n, U16);
  }

  /** The 16-bit difference the hardware computes is the number of free RQ entries. */
  lemma CreditExact(g: Rings, s: State)
    requires g.Valid() && Inv(g, s)
    ensures (s.rqDbr - |s.arrived| % U16) % U16 == g.rq + RqSteps(s) - |s.arrived|
  {
    RqFitsDoorbell(g);
    CreditOf(s.rqDbr, g.rq + RqSteps(s), |s.arrived|);
  }

  lemma ArriveCqMemory(g: Rings, s: State, p: Packet)
    requires Shape(g, s) && CqMemory(g, s)
    ensures CqMemory(g, Arrive(g, s, p))
  {
    var n, s' := |s.arrived|, Arrive(g, s, p);
    if s' != s {
      forall i: nat | n + 1 - g.cq <= i < n + 1
        ensures CqeOf(g, s', i)
      {
        if i < n {
          DistinctSlots(i, n, g.cq);
          assert CqeOf(g, s, i);
        }
      }
      forall j: nat | n + 1 <= j < g.cq
        ensures s'.cqRing[j].owner == 1
      {
        ResidueOf(n, 0, n, g.cq);
      }
    }
  }

  lemma ArriveRqMemory(g: Rings, s: State, p: Packet)
    requires Shape(g, s) && RqMemory(g, s)
    ensures RqMemory(g, Arrive(g, s, p))
  {
    var n, s' := |s.arrived|, Arrive(g, s, p);
    if s' != s {
      forall i: nat | n + 1 - g.rq <= i < n + 1
        ensures BufferOf(g, s', i)
      {
        if i < n {
          DistinctSlots(i, n, g.rq);
          assert BufferOf(g, s, i);
        }
      }
    }
  }

  lemma SameRegisters(g: Rings, s: State, s': State)
    requires Shape(g, s) && Shape(g, s') && Registers(g, s)
    requires CqSteps(s') == CqSteps(s) && RqSteps(s') == RqSteps(s) && (s'.pc != AtPoll ==> |s'.handled| > 0)
    requires s'.cqIdx == s.cqIdx && s'.ciDbr == s.ciDbr && s'.cqe == s.cqe
    requires s'.ownerBit == s.ownerBit && s'.rqDbr == s.rqDbr
    ensures Registers(g, s')
  {
  }

  lemma ArriveAccepts(g: Rings, s: State, p: Packet)
    requires g.Valid() && Inv(g, s)
    ensures Arrive(g, s, p).arrived ==
            if |s.arrived| < RqSteps(s) + g.rq then s.arrived + [p] else s.arrived
  {
    CreditExact(g, s);
  }

  lemma ArriveKeepsInv(g: Rings, s: State, p: Packet)
    requires g.Valid() && Inv(g, s)
    ensures Inv(g, Arrive(g, s, p))
    ensures Arrive(g, s, p).arrived ==
            if |s.arrived| < RqSteps(s) + g.rq then s.arrived + [p] else s.arrived
  {
    ArriveAccepts(g, s, p);
    ArriveCqMemory(g, s, p);
    ArriveRqMemory(g, s, p);
    SameRegisters(g, s, Arrive(g, s, p));
  }

  lemma OwnerWhenNew(g: Rings, s: State)
    requires Inv(g, s) && s.pc == AtPoll && g.rq <= g.cq && |s.handled| < |s.arrived|
    ensures CqeOf(g, s, |s.handled|) && BufferOf(g, s, |s.handled|) && CqeIsNew(g, s)
  {
  }

  /** The owner bit of this lap is the parity of the previous one. */
  lemma OwnerOfLastLap(n: nat, c: nat)
    requires 0 < c <= n
    ensures (n - c) % c == n % c && ((n - c) / c) % 2 == LapOwner(n, c)
  {
    NextLap(n - c, c);
    var lap := (n - c) / c;
    assert (lap + 1) % 2 == 1 - lap % 2;
  }

  lemma OwnerOfFirstLap(n: nat, c: nat)
    requires n < c
    ensures n % c == n && LapOwner(n, c) == 1
  {
    ResidueOf(n, 0, n, c);
  }

  lemma OwnerWhenOld(g: Rings, s: State)
    requires Inv(g, s) && s.pc == AtPoll && |s.handled| == |s.arrived|
    ensures !CqeIsNew(g, s)
  {
    var n := |s.arrived|;
    if n < g.cq {
      OwnerOfFirstLap(n, g.cq);
    } else {
      OwnerOfLastLap(n, g.cq);
      assert CqeOf(g, s, n - g.cq);
    }
  }

  /** The ownership test tells new from old: it succeeds exactly when a packet has arrived
      that the loop has not handled. It needs the RQ to be no deeper than the CQ. */
  lemma PollExactHere(g: Rings, s: State)
    requires g.Valid() && Inv(g, s) && s.pc == AtPoll && g.logRq <= g.logCq
    ensures CqeIsNew(g, s) <==> |s.handled| < |s.arrived|
  {
    Pow2Monotone(g.logRq, g.logCq);
    if |s.handled| < |s.arrived| {
      OwnerWhenNew(g, s);
    } else {
      OwnerWhenOld(g, s);
    }
  }

  lemma ReceivesCurrent(g: Rings, s: State, k: nat)
    requires g.Valid() && Shape(g, s) && k < |s.arrived| && s.cqe == k % g.cq
    requires CqeOf(g, s, k) && BufferOf(g, s, k)
    ensures ReceivePacket(g, s) == s.arrived[k]
  {
    RqSlot(g, k);
  }

  lemma HandlingKeepsInv(g: Rings, s: State)
    requires g.Valid() && Inv(g, s) && s.pc == AtPoll && g.rq <= g.cq && |s.handled| < |s.arrived|
    ensures Inv(g, Software(g, s))
  {
    var k := |s.handled|;
    OwnerWhenNew(g, s);
    ReceivesCurrent(g, s, k);
    assert s.handled + [s.arrived[k]] == s.arrived[..k + 1];
    SameMemory(g, s, Software(g, s));
    SameRegisters(g, s, Software(g, s));
  }

  lemma PollKeepsInv(g: Rings, s: State)
    requires g.Valid() && Inv(g, s) && s.pc == AtPoll && g.logRq <= g.logCq
    ensures Inv(g, Software(g, s))
  {
    PollExactHere(g, s);
    if |s.handled| < |s.arrived| {
      Pow2Monotone(g.logRq, g.logCq);
      HandlingKeepsInv(g, s);
    }
  }

  /** The 16-bit WQE counter, masked, is the RQ entry the packet was written to. */
  lemma RqSlot(g: Rings, k: nat)
    requires g.Valid()
    ensures BitAnd(k % U16, g.rq - 1) == k % g.rq
  {
    MaskedCounter16(k, g.logRq, g.rq);
  }

  lemma StepCqRegisters(g: Rings, idx: nat)
    requires g.logCq <= 31 && g.cq == Pow2(g.logCq)
    ensures var slot := BitAnd((idx % U32 + 1) % U32, g.cq - 1);
            slot == (idx + 1) % g.cq
  {
    WrapAdd(idx, 1, U32);
    MaskedCounter(idx + 1, g.logCq, g.cq);
  }

  lemma StepRqKeepsRegisters(g: Rings, s: State)
    requires g.Valid() && Shape(g, s) && Registers(g, s) && s.pc == AtStepRq
    ensures Registers(g, Software(g, s))
  {
    WrapAdd(g.rq + RqSteps(s), 1, U16);
  }

  lemma StepRqKeepsInv(g: Rings, s: State)
    requires g.Valid() && Inv(g, s) && s.pc == AtStepRq
    ensures Inv(g, Software(g, s))
  {
    StepRqKeepsRegisters(g, s);
    SameMemory(g, s, Software(g, s));
  }

  function LapOwner(k: nat, depth: nat): nat
    requires depth > 0
  {
    1 - (k / depth) % 2
  }

  /** `!bit` at slot 0 turns the lap's owner bit into the next lap's. */
  lemma OwnerFlip(k: nat, depth: nat)
    requires depth > 0
    ensures LapOwner(k + 1, depth) ==
            if (k + 1) % depth != 0 then LapOwner(k, depth)
            else if LapOwner(k, depth) == 0 then 1 else 0
  {
    StepSlot(k, depth);
    var lap := k / depth;
    assert (lap + 1) % 2 == 1 - lap % 2;
  }

  lemma StepCqValues(g: Rings, s: State, k: nat)
    requires g.Valid() && Shape(g, s)
    requires s.cqIdx == k % U32 && s.ownerBit == LapOwner(k, g.cq)
    ensures var s' := StepCq(g, s);
            && s'.cqIdx == (k + 1) % U32 && s'.ciDbr == s'.cqIdx
            && s'.cqe == (k + 1) % g.cq && s'.ownerBit == LapOwner(k + 1, g.cq)
  {
    StepCqRegisters(g, k);
    WrapAdd(k, 1, U32);
    OwnerFlip(k, g.cq);
  }

  lemma StepCqKeepsRegisters(g: Rings, s: State)
    requires g.Valid() && Shape(g, s) && Registers(g, s) && s.pc == AtStepCq
    ensures Registers(g, Software(g, s))
  {
    StepCqValues(g, s, |s.handled| - 1);
  }

  lemma StepCqKeepsInv(g: Rings, s: State)
    requires g.Valid() && Inv(g, s) && s.pc == AtStepCq
    ensures Inv(g, Software(g, s))
  {
    StepCqKeepsRegisters(g, s);
    SameMemory(g, s, Software(g, s));
  }

  lemma SoftwareKeepsInv(g: Rings, s: State)
    requires g.Valid() && Inv(g, s) && g.logRq <= g.logCq
    ensures Inv(g, Software(g, s))
  {
    match s.pc
    case AtPoll => PollKeepsInv(g, s);
    case AtStepRq => StepRqKeepsInv(g, s);
    case AtStepCq => StepCqKeepsInv(g, s);
  }

  lemma SameMemory(g: Rings, s: State, s': State)
    requires Shape(g, s) && Shape(g, s') && CqMemory(g, s) && RqMemory(g, s)
    requires s'.cqRing == s.cqRing && s'.buffers == s.buffers && s'.arrived == s.arrived
    ensures CqMemory(g, s') && RqMemory(g, s')
  {
    forall i: nat | |s.arrived| - g.cq <= i < |s.arrived| ensures CqeOf(g, s', i) {
      assert CqeOf(g, s, i);
    }
    forall i: nat | |s.arrived| - g.rq <= i < |s.arrived| ensures BufferOf(g, s', i) {
      assert BufferOf(g, s, i);
    }
  }

  lemma {:induction false} RunInv(g: Rings, events: seq<Event>)
    requires g.Valid() && g.logRq <= g.logCq
    ensures Inv(g, Run(g, events))
  {
    if events == [] {
      InitInv(g);
    } else {
      var before := events[..|events| - 1];
      RunInv(g, before);
      match events[|events| - 1]
      case Packet(p) => ArriveKeepsInv(g, Run(g, before), p);
      case Thread => SoftwareKeepsInv(g, Run(g, before));
    }
  }

  // ----- main results -----------------------------------------------------------

  /** In every interleaving, across any number of laps and of wraps of the 32-bit and 16-bit
      registers, the packets handled are the packets accepted, each once, in order and with
      unchanged content. */
  lemma EveryPacketOnceInOrder(g: Rings, events: seq<Event>)
    requires g.Valid() && g.logRq <= g.logCq
    ensures var s := Run(g, events);
            && s.handled <= s.arrived
            && |s.arrived| - |s.handled| <= g.rq
            && (s.pc == AtPoll ==> (CqeIsNew(g, s) <==> s.handled != s.arrived))
  {
    RunInv(g, events);
    var s := Run(g, events);
    if s.pc == AtPoll {
      PollExactHere(g, s);
    }
  }

  /** Steps the thread still has to take for the packets accepted so far. */
  function Backlog(s: State): int {
    3 * |s.arrived| - (|s.handled| + RqSteps(s) + CqSteps(s))
  }

  lemma StepReducesBacklog(g: Rings, s: State)
    requires g.Valid() && g.logRq <= g.logCq && Inv(g, s)
    ensures Backlog(s) >= 0 && Software(g, s).arrived == s.arrived
    ensures Backlog(s) > 0 ==> Backlog(Software(g, s)) == Backlog(s) - 1
    ensures Backlog(s) == 0 ==> s.handled == s.arrived && s.pc == AtPoll
  {
    if s.pc == AtPoll {
      PollExactHere(g, s);
    }
  }

  lemma ThreadReducesBacklog(g: Rings, events: seq<Event>)
    requires g.Valid() && g.logRq <= g.logCq
    ensures var s, s' := Run(g, events), Run(g, events + [Thread]);
            && Backlog(s) >= 0 && s'.arrived == s.arrived
            && (Backlog(s) > 0 ==> Backlog(s') == Backlog(s) - 1)
            && (Backlog(s) == 0 ==> s.handled == s.arrived && s.pc == AtPoll)
  {
    RunInv(g, events);
    RunAppend(g, events, Thread);
    StepReducesBacklog(g, Run(g, events));
  }

  /** Every packet accepted in s is handled in s'. */
  predicate CaughtUp(s: State, s': State) {
    s'.arrived == s.arrived && s'.handled == s'.arrived && s'.pc == AtPoll
  }

  lemma ThreadFirst(events: seq<Event>, m: nat)
    ensures events + Repeat(Thread, 0) == events
    ensures events + Repeat(Thread, m + 1) == events + [Thread] + Repeat(Thread, m)
  {
  }

  lemma {:induction false} RunMore(g: Rings, events: seq<Event>, m: nat)
    requires g.Valid() && g.logRq <= g.logCq && m == Backlog(Run(g, events))
    ensures CaughtUp(Run(g, events), Run(g, events + Repeat(Thread, m)))
    decreases m
  {
    ThreadReducesBacklog(g, events);
    if m == 0 {
      ThreadFirst(events, m);
    } else {
      ThreadFirst(events, m - 1);
      RunMore(g, events + [Thread], m - 1);
    }
  }

  /** The loop catches up: whenever the traffic pauses, finitely many steps of the thread
      alone handle every accepted packet. */
  lemma LoopCatchesUp(g: Rings, events: seq<Event>)
    requires g.Valid() && g.logRq <= g.logCq
    ensures exists m: nat :: CaughtUp(Run(g, events), Run(g, events + Repeat(Thread, m)))
  {
    ThreadReducesBacklog(g, events);
    RunMore(g, events, Backlog(Run(g, events)));
  }

  // ----- the exact depth conditions ------------------------------------------------

  /** m packets, none of them handled. */
  lemma {:induction false} BurstFills(g: Rings, m: nat) returns (events: seq<Event>)
    requires g.Valid() && m <= g.rq
    ensures var s := Run(g, events);
            Inv(g, s) && |s.arrived| == m && s.handled == [] && s.pc == AtPoll
  {
    events := [];
    if m == 0 {
      InitInv(g);
    } else {
      events := BurstFills(g, m - 1);
      ArriveKeepsInv(g, Run(g, events), []);
      RunAppend(g, events, Packet([]));
      events := events + [Packet([])];
    }
  }

  ghost predicate PollExactInEveryRun(g: Rings)
    requires g.Valid()
  {
    forall events: seq<Event> :: var s := Run(g, events);
      s.pc == AtPoll ==> (CqeIsNew(g, s) <==> s.handled != s.arrived)
  }

  /** One packet more than a CQ lap makes the oldest CQE look consumed. */
  lemma ExtraPacketHidesAll(g: Rings, s: State)
    requires g.Valid() && Inv(g, s) && |s.arrived| == g.cq + 1 && s.handled == [] && s.pc == AtPoll
    ensures !CqeIsNew(g, s)
  {
    assert CqeOf(g, s, g.cq);
    NextLap(0, g.cq);
  }

  lemma PollExactInRun(g: Rings)
    requires g.Valid() && g.logRq <= g.logCq
    ensures PollExactInEveryRun(g)
  {
    forall events: seq<Event> | Run(g, events).pc == AtPoll
      ensures CqeIsNew(g, Run(g, events)) <==> Run(g, events).handled != Run(g, events).arrived
    {
      EveryPacketOnceInOrder(g, events);
    }
  }

  /** The ownership test can be trusted in every run if and only if the RQ is no deeper
      than the CQ. */
  lemma PollExactIffDepths(g: Rings)
    requires g.Valid()
    ensures PollExactInEveryRun(g) <==> g.logRq <= g.logCq
  {
    if g.logRq <= g.logCq {
      PollExactInRun(g);
    } else {
      Pow2Monotone(g.logCq, g.logRq);
      var events := BurstFills(g, g.cq + 1);
      ExtraPacketHidesAll(g, Run(g, events));
    }
  }

  /** The hardware holds more unread CQEs than the CQ has entries, judged by the consumer
      index the thread has published. */
  predicate Overrun(g: Rings, s: State) {
    |s.arrived| - CqSteps(s) > g.cq
  }

  lemma StepKeepsRegisters(g: Rings, s: State, e: Event)
    requires g.Valid() && Shape(g, s) && Registers(g, s)
    ensures Registers(g, Step(g, s, e))
  {
    var s' := Step(g, s, e);
    if e.Packet? || s.pc == AtPoll {
      SameRegisters(g, s, s');
    } else if s.pc == AtStepRq {
      StepRqKeepsRegisters(g, s);
    } else {
      StepCqKeepsRegisters(g, s);
    }
  }

  lemma {:induction false} RunRegisters(g: Rings, events: seq<Event>)
    requires g.Valid()
    ensures Registers(g, Run(g, events))
  {
    if events == [] {
      InitInv(g);
    } else {
      var before := events[..|events| - 1];
      RunRegisters(g, before);
      StepKeepsRegisters(g, Run(g, before), events[|events| - 1]);
    }
  }

  /** The published consumer index is the wrapped number of CQEs consumed, whatever the depths. */
  lemma PublishedIndex(g: Rings, events: seq<Event>)
    requires g.Valid()
    ensures var s := Run(g, events); s.ciDbr == CqSteps(s) % U32
  {
    RunRegisters(g, events);
  }

  lemma RunAppend(g: Rings, events: seq<Event>, e: Event)
    requires g.Valid()
    ensures Run(g, events + [e]) == Step(g, Run(g, events), e)
  {
    var es := events + [e];
    assert es[..|es| - 1] == events;
  }

  /** Handle the first of a full ring, return its RQ entry, and let one more packet in. */
  lemma OverrunFrom(g: Rings, s: State)
    requires g.Valid() && g.logRq == g.logCq && Inv(g, s)
    requires s.pc == AtPoll && s.handled == [] && |s.arrived| == g.rq
    ensures Overrun(g, Arrive(g, Software(g, Software(g, s)), []))
  {
    PollExactHere(g, s);
    PollKeepsInv(g, s);
    var s1 := Software(g, s);
    StepRqKeepsInv(g, s1);
    ArriveKeepsInv(g, Software(g, s1), []);
  }

  lemma OverrunRun(g: Rings) returns (events: seq<Event>)
    requires g.Valid() && g.logRq >= g.logCq
    ensures Overrun(g, Run(g, events))
  {
    Pow2Monotone(g.logCq, g.logRq);
    if g.logRq > g.logCq {
      events := BurstFills(g, g.cq + 1);
    } else {
      var b := BurstFills(g, g.rq);
      OverrunFrom(g, Run(g, b));
      RunAppend(g, b, Thread);
      RunAppend(g, b + [Thread], Thread);
      RunAppend(g, b + [Thread] + [Thread], Packet([]));
      events := b + [Thread] + [Thread] + [Packet([])];
    }
  }

  ghost predicate NeverOverrun(g: Rings)
    requires g.Valid()
  {
    forall events: seq<Event> :: !Overrun(g, Run(g, events))
  }

  /** The loop returns the RQ entry before it publishes the consumer index. The CQ is never
      overrun in between if and only if it is strictly deeper than the RQ; with the equal
      depths of the benchmarks one CQE too many can be outstanding, although none is lost. */
  lemma NoOverrunIffStrictlyDeeper(g: Rings)
    requires g.Valid()
    ensures NeverOverrun(g) <==> g.logRq < g.logCq
  {
    if g.logRq < g.logCq {
      forall events: seq<Event>
        ensures !Overrun(g, Run(g, events))
      {
        RunInv(g, events);
        Pow2Monotone(g.logRq, g.logCq);
      }
    } else {
      var events := OverrunRun(g);
      assert Overrun(g, Run(g, events));
    }
  }

  // ----- the device code itself ---------------------------------------------------

  /** The context a device thread updates in place. `arrived` and `handled` as above. */
  class Device {
    const g: Rings
    const cqRing: array<Cqe>
    const buffers: array<Packet>
    var cqIdx: nat
    var cqe: nat
    var ownerBit: nat
    var ciDbr: nat
    var rqDbr: nat
    ghost var arrived: seq<Packet>
    ghost var handled: seq<Packet>

    ghost function At(pc: Pc): State
      reads this, cqRing, buffers
    {
      State(cqRing[..], buffers[..], cqIdx, cqe, ownerBit, ciDbr, rqDbr, pc, arrived, handled)
    }

    /** allocate_cq_memory, the RQ doorbell of the host, and init_cq. */
    constructor (g: Rings)
      requires g.Valid()
      ensures this.g == g && fresh(cqRing) && fresh(buffers)
      ensures At(AtPoll) == Init(g)
    {
      this.g := g;
      cqRing := new Cqe[g.cq](i => Cqe(0, 0, 0));
      buffers := new Packet[g.rq](i => []);
      cqIdx, cqe, ownerBit, ciDbr := 0, 0, 1, 0;
      rqDbr := InitialDoorbell(g.logRq);
      arrived, handled := [], [];
      new;
      for i := 0 to cqRing.Length
        modifies cqRing
        invariant forall j :: 0 <= j < i ==> cqRing[j] == Cqe(1, 0, 0)
      {
        cqRing[i] := Cqe(1, 0, 0);
      }
      assert cqRing[..] == Init(g).cqRing;
      assert buffers[..] == Init(g).buffers;
    }

    method StepRqInPlace()
      modifies this`rqDbr
      ensures At(AtPoll) == StepRq(old(At(AtPoll)))
    {
      rqDbr := (rqDbr + 1) % U16;
    }

    method StepCqInPlace()
      requires Shape(g, At(AtPoll))
      modifies this`cqIdx, this`cqe, this`ownerBit, this`ciDbr
      ensures At(AtPoll) == StepCq(g, old(At(AtPoll)))
    {
      cqIdx := (cqIdx + 1) % U32;
      cqe := BitAnd(cqIdx, g.cq - 1);
      if cqe == 0 {
        ownerBit := if ownerBit == 0 then 1 else 0;
      }
      ciDbr := cqIdx;
    }

    /** The body of the polling loop without interference, as three steps of `Software`. */
    lemma BodyIsThreeSteps(s: State)
      requires Shape(g, s) && s.pc == AtPoll && CqeIsNew(g, s)
      ensures var t := s.(handled := s.handled + [ReceivePacket(g, s)]);
              StepCq(g, StepRq(t)) == Software(g, Software(g, Software(g, s)))
    {
      var t := s.(handled := s.handled + [ReceivePacket(g, s)]);
      assert Software(g, s) == t.(pc := AtStepRq);
      assert Software(g, t.(pc := AtStepRq)) == StepRq(t).(pc := AtStepCq);
      assert Software(g, StepRq(t).(pc := AtStepCq)) == StepCq(g, StepRq(t)).(pc := AtPoll);
    }

    /** The body of the loop: hand the packet on, return the RQ entry, consume the CQE. */
    method HandleOne() returns (packet: Packet)
      requires g.Valid() && g.logRq <= g.logCq && Inv(g, At(AtPoll)) && |handled| < |arrived|
      modifies this`cqIdx, this`cqe, this`ownerBit, this`ciDbr, this`rqDbr, this`handled
      ensures Inv(g, At(AtPoll)) && handled == old(handled) + [packet]
    {
      ghost var s := At(AtPoll);
      PollExactHere(g, s);
      BodyIsThreeSteps(s);
      SoftwareKeepsInv(g, s);
      SoftwareKeepsInv(g, Software(g, s));
      SoftwareKeepsInv(g, Software(g, Software(g, s)));
      var c := cqRing[cqe];
      var data := buffers[BitAnd(c.wqeCounter, g.rq - 1)];
      packet := if c.byteCount <= |data| then data[..c.byteCount] else data;
      handled := handled + [packet];
      StepRqInPlace();
      StepCqInPlace();
    }

    /** The loop of the event handler, run while no packet arrives: it hands every pending
        packet to the application, in order, and stops with nothing left. */
    method HandleEvents() returns (processed: seq<Packet>)
      requires g.Valid() && g.logRq <= g.logCq && Inv(g, At(AtPoll))
      modifies this`cqIdx, this`cqe, this`ownerBit, this`ciDbr, this`rqDbr, this`handled
      ensures Inv(g, At(AtPoll)) && handled == arrived
      ensures old(handled) + processed == arrived
    {
      processed := [];
      PollExactHere(g, At(AtPoll));
      while cqRing[cqe].owner != ownerBit
        invariant Inv(g, At(AtPoll)) && handled == old(handled) + processed
        invariant cqRing[cqe].owner != ownerBit <==> |handled| < |arrived|
        decreases |arrived| - |handled|
      {
        var packet := HandleOne();
        processed := processed + [packet];
        PollExactHere(g, At(AtPoll));
      }
    }
  }
}
