/** The send queue (SQ) of a DPA device thread. The ring of work queue entries (WQEs), four
    segments each, is filled once; afterwards a send patches the data segment of the next WQE
    and the doorbell announces it. The hardware is a second party that fetches WQEs. */
module SendQueue {
  import opened Bits

  datatype Seg =
    | Blank
    | Ctrl(index: nat, sqNumber: nat)
    | Eth
    | Data(size: nat, lkey: nat, addr: nat)

  datatype Frame = Frame(addr: nat, size: nat)

  /** Depth of the ring in WQEs; the index mask of the code is 4 * depth - 1. */
  datatype Ring = Ring(log: nat, depth: nat, sqNumber: nat, lkey: nat) {
    predicate Valid() { depth == Pow2(log) && log <= 29 }
    function Mask(): int { 4 * depth - 1 }
  }

  /** `frames` lists what was prepared, `rung` counts the WQEs announced, `fetched` those the
      hardware has read and `sent` what it read; the device code uses none of them. */
  datatype State = State(
    ring: seq<Seg>, segIdx: nat, pi: nat,
    frames: seq<Frame>, rung: nat, fetched: nat, sent: seq<Frame>)

  predicate Shape(g: Ring, s: State) {
    g.depth > 0 && |s.ring| == 4 * g.depth
  }

  /** The segments of WQE w as init_send_sq leaves them. */
  function InitialSeg(g: Ring, j: nat): Seg {
    match j % 4
    case 0 => Ctrl(j / 4, g.sqNumber)
    case 1 => Eth
    case 2 => Data(0, g.lkey, 0)
    case _ => Blank
  }

  function Init(g: Ring): (s: State)
    requires g.depth > 0
    ensures Shape(g, s)
  {
    State(seq(4 * g.depth, j requires j >= 0 => InitialSeg(g, j)), 0, 0, [], 0, 0, [])
  }

  /** Size and address stored into a segment. */
  function Patched(seg: Seg, f: Frame): Seg {
    if seg.Data? then seg.(size := f.size, addr := f.addr) else Data(f.size, 0, f.addr)
  }

  /** prepare_send_packet: get_next_data_sqe, then size and address into that segment. */
  function Prepare(g: Ring, s: State, f: Frame): (s': State)
    requires Shape(g, s)
    ensures Shape(g, s')
  {
    var j := BitAnd((s.segIdx + 2) % U32, g.Mask());
    s.(ring := s.ring[j := Patched(s.ring[j], f)],
       segIdx := (s.segIdx + 4) % U32,
       frames := s.frames + [f])
  }

  /** finish_send_packet (n == 1) and finish_send_packet_batch. */
  function RingDoorbell(s: State, n: nat): State {
    s.(pi := (s.pi + n) % U32, rung := s.rung + n)
  }

  function Slot(g: Ring, w: nat): (j: nat)
    requires g.depth > 0
    ensures j + 3 < 4 * g.depth && j % 4 == 0
  {
    4 * (w % g.depth)
  }

  /** Hardware: if the doorbell is ahead, read the next WQE. */
  function Fetch(g: Ring, s: State): (s': State)
    requires Shape(g, s)
    ensures Shape(g, s')
  {
    if (s.pi - s.fetched % U32) % U32 == 0 then s
    else
      var d := s.ring[Slot(g, s.fetched) + 2];
      s.(fetched := s.fetched + 1,
         sent := s.sent + [if d.Data? then Frame(d.addr, d.size) else Frame(0, 0)])
  }

  datatype Event = Post(f: Frame) | Doorbell(n: nat) | Hardware

  function Step(g: Ring, s: State, e: Event): (s': State)
    requires Shape(g, s)
    ensures Shape(g, s')
  {
    match e
    case Post(f) => Prepare(g, s, f)
    case Doorbell(n) => RingDoorbell(s, n)
    case Hardware => Fetch(g, s)
  }

  function Run(g: Ring, events: seq<Event>): (s: State)
    requires g.depth > 0
    ensures Shape(g, s)
  {
    if events == [] then Init(g) else Step(g, Run(g, events[..|events| - 1]), events[|events| - 1])
  }

  // ----- what every sequence of posts and doorbells keeps ---------------------------

  /** WQE w is as initialised but for the size and address of its data segment. */
  predicate WqeIntact(g: Ring, s: State, w: nat)
    requires Shape(g, s) && w < g.depth
  {
    && s.ring[4 * w] == Ctrl(w, g.sqNumber) && s.ring[4 * w + 1] == Eth
    && s.ring[4 * w + 2].Data? && s.ring[4 * w + 2].lkey == g.lkey
    && s.ring[4 * w + 3] == Blank
  }

  ghost predicate Untouched(g: Ring, s: State)
    requires Shape(g, s)
  {
    forall w: nat :: w < g.depth ==> WqeIntact(g, s, w)
  }

  predicate Holds(g: Ring, s: State, w: nat)
    requires Shape(g, s) && w < |s.frames|
  {
    s.ring[Slot(g, w) + 2] == Data(s.frames[w].size, g.lkey, s.frames[w].addr)
  }

  /** The last `depth` frames sit in the data segments of the WQEs with their number. */
  ghost predicate Window(g: Ring, s: State)
    requires Shape(g, s)
  {
    forall w: nat :: |s.frames| - g.depth <= w < |s.frames| ==> Holds(g, s, w)
  }

  ghost predicate Inv(g: Ring, s: State) {
    && Shape(g, s) && Untouched(g, s) && Window(g, s)
    && s.segIdx == (4 * |s.frames|) % U32
    && s.pi == s.rung % U32
    && |s.sent| == s.fetched
  }

  lemma SegmentCount(g: Ring)
    requires g.Valid()
    ensures Pow2(g.log + 2) == 4 * g.depth && 8 * g.depth <= U32
  {
    assert Pow2(g.log + 2) == 2 * Pow2(g.log + 1);
    Pow2Words();
    Pow2Monotone(g.log + 2, 32);
  }

  lemma WqeSlot(g: Ring, p: nat)
    requires g.Valid()
    ensures BitAnd(((4 * p) % U32 + 2) % U32, g.Mask()) == Slot(g, p) + 2
  {
    WrapAdd(4 * p, 2, U32);
    SegmentCount(g);
    MaskedCounter(4 * p + 2, g.log + 2, 4 * g.depth);
    ScaledResidue(p, g.depth, 4, 2);
  }

  lemma PrepareAt(g: Ring, s: State, f: Frame, w: nat)
    requires Shape(g, s) && w < g.depth && WqeIntact(g, s, w)
    requires BitAnd((s.segIdx + 2) % U32, g.Mask()) == 4 * w + 2
    ensures Prepare(g, s, f).ring == s.ring[4 * w + 2 := Data(f.size, g.lkey, f.addr)]
  {
  }

  lemma PrepareRing(g: Ring, s: State, f: Frame)
    requires g.Valid() && Shape(g, s) && Untouched(g, s) && s.segIdx == (4 * |s.frames|) % U32
    ensures Prepare(g, s, f).ring ==
            s.ring[Slot(g, |s.frames|) + 2 := Data(f.size, g.lkey, f.addr)]
  {
    WqeSlot(g, |s.frames|);
    PrepareAt(g, s, f, |s.frames| % g.depth);
  }

  lemma PatchUntouched(g: Ring, s: State, s': State, v: nat, f: Frame)
    requires Shape(g, s) && Untouched(g, s) && v < g.depth
    requires s'.ring == s.ring[4 * v + 2 := Data(f.size, g.lkey, f.addr)]
    ensures Shape(g, s') && Untouched(g, s')
  {
    forall w: nat | w < g.depth ensures WqeIntact(g, s', w) {
      assert WqeIntact(g, s, w);
    }
  }

  lemma PrepareUntouched(g: Ring, s: State, f: Frame)
    requires g.Valid() && Shape(g, s) && Untouched(g, s) && s.segIdx == (4 * |s.frames|) % U32
    ensures Untouched(g, Prepare(g, s, f))
  {
    PrepareRing(g, s, f);
    PatchUntouched(g, s, Prepare(g, s, f), |s.frames| % g.depth, f);
  }

  lemma PrepareWindow(g: Ring, s: State, f: Frame)
    requires g.Valid() && Inv(g, s)
    ensures Window(g, Prepare(g, s, f))
  {
    var p, s' := |s.frames|, Prepare(g, s, f);
    PrepareRing(g, s, f);
    forall w: nat | p + 1 - g.depth <= w < p + 1
      ensures Holds(g, s', w)
    {
      if w < p {
        DistinctSlots(w, p, g.depth);
        assert Holds(g, s, w);
      }
    }
  }

  lemma PrepareKeepsInv(g: Ring, s: State, f: Frame)
    requires g.Valid() && Inv(g, s)
    ensures Inv(g, Prepare(g, s, f))
  {
    PrepareUntouched(g, s, f);
    PrepareWindow(g, s, f);
    WrapAdd(4 * |s.frames|, 4, U32);
  }

  lemma SameRing(g: Ring, s: State, s': State)
    requires Shape(g, s) && Untouched(g, s) && Window(g, s)
    requires s'.ring == s.ring && s'.frames == s.frames
    ensures Shape(g, s') && Untouched(g, s') && Window(g, s')
  {
    forall w: nat | |s.frames| - g.depth <= w < |s.frames| ensures Holds(g, s', w) {
      assert Holds(g, s, w);
    }
    forall w: nat | w < g.depth ensures WqeIntact(g, s', w) {
      assert WqeIntact(g, s, w);
    }
  }

  lemma StepKeepsInv(g: Ring, s: State, e: Event)
    requires g.Valid() && Inv(g, s)
    ensures Inv(g, Step(g, s, e))
  {
    match e
    case Post(f) => PrepareKeepsInv(g, s, f);
    case Doorbell(n) =>
      WrapAdd(s.rung, n, U32);
      SameRing(g, s, RingDoorbell(s, n));
    case Hardware =>
      SameRing(g, s, Fetch(g, s));
  }

  lemma InitWqe(g: Ring, w: nat)
    requires w < g.depth
    ensures WqeIntact(g, Init(g), w)
  {
    assert (4 * w) / 4 == w;
  }

  lemma InitInv(g: Ring)
    requires g.Valid()
    ensures Inv(g, Init(g))
  {
    forall w: nat | w < g.depth ensures WqeIntact(g, Init(g), w) {
      InitWqe(g, w);
    }
  }

  lemma {:induction false} RunInv(g: Ring, events: seq<Event>)
    requires g.Valid()
    ensures Inv(g, Run(g, events))
  {
    if events == [] {
      InitInv(g);
    } else {
      RunInv(g, events[..|events| - 1]);
      StepKeepsInv(g, Run(g, events[..|events| - 1]), events[|events| - 1]);
    }
  }

  /** After any sequence of posts, doorbells and fetches: both registers are the wrapped
      counts, no control or Ethernet segment and no memory key has changed, and frame p of the
      last `depth` sits in slot p mod depth, so any `depth` consecutive posts use different
      slots. */
  lemma RingLayout(g: Ring, events: seq<Event>)
    requires g.Valid()
    ensures var s := Run(g, events);
            && s.segIdx == (4 * |s.frames|) % U32 && s.pi == s.rung % U32
            && Untouched(g, s) && Window(g, s)
    ensures forall v: nat, w: nat :: v < w < v + g.depth ==> Slot(g, v) != Slot(g, w)
  {
    RunInv(g, events);
    forall v: nat, w: nat | v < w < v + g.depth
      ensures Slot(g, v) != Slot(g, w)
    {
      DistinctSlots(v, w, g.depth);
    }
  }

  // ----- what the hardware sends ------------------------------------------------------

  /** The caller's part: the doorbell never announces a WQE that was not prepared. */
  ghost predicate Announced(s: State) {
    s.fetched <= s.rung <= |s.frames|
  }

  /** Room in the ring for one more WQE. */
  predicate HasRoom(g: Ring, s: State) {
    |s.frames| < s.fetched + g.depth
  }

  ghost predicate Disciplined(g: Ring, events: seq<Event>)
    requires g.depth > 0
  {
    events == [] ||
    var s := Run(g, events[..|events| - 1]);
    && Disciplined(g, events[..|events| - 1])
    && match events[|events| - 1]
       case Post(f) => HasRoom(g, s)
       case Doorbell(n) => s.rung + n <= |s.frames|
       case Hardware => true
  }

  lemma RunAppend(g: Ring, events: seq<Event>, e: Event)
    requires g.depth > 0
    ensures Run(g, events + [e]) == Step(g, Run(g, events), e)
    ensures Disciplined(g, events + [e]) <==>
            var s := Run(g, events);
            && Disciplined(g, events)
            && match e
               case Post(f) => HasRoom(g, s)
               case Doorbell(n) => s.rung + n <= |s.frames|
               case Hardware => true
  {
    var es := events + [e];
    assert es[..|es| - 1] == events;
  }

  lemma FetchExact(g: Ring, s: State)
    requires g.Valid() && Inv(g, s) && Announced(s) && |s.frames| <= s.fetched + g.depth
    requires s.sent <= s.frames
    ensures var s' := Fetch(g, s);
            && s'.sent <= s'.frames && Announced(s')
            && (s'.fetched == s.fetched <==> s.fetched == s.rung)
  {
    SegmentCount(g);
    var x, y := s.rung, s.fetched;
    WrapDistance(x, y, U32);
    assert (s.pi - y % U32) % U32 == x - y;
    if y < x {
      assert Holds(g, s, y);
      assert s.frames[..y] + [s.frames[y]] == s.frames[..y + 1];
    }
  }

  /** In every run in which posts wait for room and doorbells announce prepared WQEs only, the
      hardware sends the prepared frames, each once and in order. */
  lemma {:induction false} SentInOrder(g: Ring, events: seq<Event>)
    requires g.Valid() && Disciplined(g, events)
    ensures var s := Run(g, events);
            && s.sent <= s.frames && |s.sent| == s.fetched
            && Announced(s) && |s.frames| <= s.fetched + g.depth
  {
    if events != [] {
      var before := events[..|events| - 1];
      SentInOrder(g, before);
      RunInv(g, before);
      var s := Run(g, before);
      match events[|events| - 1]
      case Post(f) =>
      case Doorbell(n) =>
      case Hardware => FetchExact(g, s);
    }
  }

  /** Waiting for room is exactly what keeps the frames the hardware has not yet fetched:
      a post leaves all of them in the ring if and only if there is room (a post equal to the
      frame it overwrites does no harm). */
  lemma PostSafeIffRoom(g: Ring, s: State, f: Frame)
    requires g.Valid() && Inv(g, s) && s.fetched <= |s.frames| <= s.fetched + g.depth
    requires s.fetched < |s.frames| ==> f != s.frames[s.fetched]
    ensures (forall w: nat :: s.fetched <= w < |s.frames| ==> Holds(g, Prepare(g, s, f), w))
            <==> HasRoom(g, s)
  {
    var s' := Prepare(g, s, f);
    PrepareWindow(g, s, f);
    PrepareRing(g, s, f);
    if HasRoom(g, s) {
      forall w: nat | s.fetched <= w < |s.frames| ensures Holds(g, s', w) {
      }
    } else {
      var w := s.fetched;
      NextLap(w, g.depth);
      assert Slot(g, w) == Slot(g, |s.frames|);
      assert !Holds(g, s', w);
    }
  }

  // ----- data buffers -----------------------------------------------------------------

  /** get_next_send_buf: the byte offset handed out for counter value idx. */
  function BufferOffset(idx: nat, depth: nat, logEntry: nat): nat
    requires depth > 0
  {
    (BitAnd(idx % U32, depth - 1) * Pow2(logEntry)) % U32
  }

  /** Buffer n starts at entry n mod depth, across wraps of the 32-bit counter, as long as
      the whole buffer area is addressable with 32 bits; all entries lie inside the area. */
  lemma BufferSlot(g: Ring, n: nat, logEntry: nat)
    requires g.Valid() && g.log + logEntry <= 32
    ensures BufferOffset(n, g.depth, logEntry) == (n % g.depth) * Pow2(logEntry)
    ensures BufferOffset(n, g.depth, logEntry) + Pow2(logEntry) <= g.depth * Pow2(logEntry)
  {
    MaskedCounter(n, g.log, g.depth);
    var e := Pow2(logEntry);
    assert g.depth * e <= U32 by {
      Pow2Split(g.log, logEntry);
      Pow2Fits32(g.log + logEntry);
    }
    ScaledFits(n % g.depth, g.depth, e, U32);
  }

  lemma ScaledFits(x: nat, d: nat, e: nat, m: nat)
    requires x < d && e > 0 && d * e <= m
    ensures (x * e) % m == x * e && x * e + e <= d * e
  {
    MulGap(x, d, e);
    ResidueOf(x * e, 0, x * e, m);
  }

  /** The SmallBank client takes `depth` buffers to write their headers and from then on one
      buffer per send. The buffer of send p is therefore the entry with the number of the WQE
      that points at it: a buffer is handed out again exactly when its WQE is reused. */
  lemma BufferFollowsWqe(g: Ring, p: nat, logEntry: nat)
    requires g.Valid() && g.log + logEntry <= 32
    ensures 4 * BufferOffset(g.depth + p, g.depth, logEntry) == Slot(g, p) * Pow2(logEntry)
  {
    BufferSlot(g, p + g.depth, logEntry);
    NextLap(p, g.depth);
    Reassociate(p % g.depth, Pow2(logEntry));
  }

  lemma Reassociate(x: nat, e: nat)
    ensures 4 * (x * e) == (4 * x) * e
  {
  }

  // ----- the device code itself ---------------------------------------------------------

  class SqContext {
    const g: Ring
    const ring: array<Seg>
    var segIdx: nat
    var pi: nat
    ghost var frames: seq<Frame>
    ghost var rung: nat
    ghost var fetched: nat
    ghost var sent: seq<Frame>

    ghost function Abs(): State
      reads this, ring
    {
      State(ring[..], segIdx, pi, frames, rung, fetched, sent)
    }

    ghost predicate LaidOut(w: nat)
      reads ring
    {
      && 4 * w + 3 < ring.Length
      && ring[4 * w] == Ctrl(w, g.sqNumber) && ring[4 * w + 1] == Eth
      && ring[4 * w + 2] == Data(0, g.lkey, 0) && ring[4 * w + 3] == Blank
    }

    /** get_next_sqe: the masked index, in the first lap the segments one after the other. */
    method GetNextSqe() returns (j: nat)
      requires ring.Length == 4 * g.depth && g.Valid() && segIdx < U32
      modifies this`segIdx
      ensures segIdx == (old(segIdx) + 1) % U32 && j == old(segIdx) % (4 * g.depth)
      ensures old(segIdx) < 4 * g.depth ==> segIdx == old(segIdx) + 1 && j == old(segIdx)
    {
      SegIndexMasked(g, segIdx);
      if segIdx < 4 * g.depth {
        SegIndexFirstLap(g, segIdx);
      }
      j := BitAnd(segIdx, g.Mask());
      segIdx := (segIdx + 1) % U32;
    }

    /** One pass of the loop of init_send_sq. */
    method FillWqe(i: nat)
      requires ring.Length == 4 * g.depth && g.Valid() && i < g.depth && segIdx == 4 * i < U32
      modifies this`segIdx, ring
      ensures segIdx == 4 * i + 4
      ensures ring[4 * i] == Ctrl(i, g.sqNumber) && ring[4 * i + 1] == Eth
      ensures ring[4 * i + 2] == Data(0, g.lkey, 0)
      ensures forall j: nat :: j < 4 * i || 4 * i + 3 <= j < ring.Length ==> ring[j] == old(ring[j])
    {
      SegmentCount(g);
      var swqe := GetNextSqe();
      ring[swqe] := Ctrl(i, g.sqNumber);
      swqe := GetNextSqe();
      ring[swqe] := Eth;
      swqe := GetNextSqe();
      ring[swqe] := Data(0, g.lkey, 0);
      swqe := GetNextSqe();
    }

    method InitSendSq()
      requires ring.Length == 4 * g.depth && g.Valid() && segIdx == 0
      requires forall j: nat :: j < ring.Length ==> ring[j] == Blank
      modifies this`segIdx, ring
      ensures segIdx == 0 && ring[..] == Init(g).ring
    {
      SegmentCount(g);
      var i := 0;
      while i < g.depth
        invariant 0 <= i <= g.depth && segIdx == 4 * i
        invariant forall w: nat :: w < i ==> LaidOut(w)
        invariant forall j: nat :: 4 * i <= j < ring.Length ==> ring[j] == Blank
      {
        label lap:
        FillWqe(i);
        forall w: nat | w < i ensures LaidOut(w) {
          assert old@lap(LaidOut(w));
        }
        i := i + 1;
      }
      segIdx := 0;
      forall j: nat | j < ring.Length ensures ring[j] == InitialSeg(g, j) {
        assert LaidOut(j / 4);
      }
    }

    /** init_sq and init_send_sq over a fresh ring. */
    constructor (g: Ring)
      requires g.Valid()
      ensures this.g == g && fresh(ring) && Abs() == Init(g)
    {
      this.g := g;
      ring := new Seg[4 * g.depth](i => Blank);
      segIdx, pi := 0, 0;
      frames, rung, fetched, sent := [], 0, 0, [];
      new;
      InitSendSq();
    }

    method StoreFrame(j: nat, f: Frame)
      requires j < ring.Length
      modifies ring
      ensures ring[..] == old(ring[..])[j := Patched(old(ring[j]), f)]
    {
      var seg := ring[j];
      ring[j] := if seg.Data? then seg.(size := f.size, addr := f.addr) else Data(f.size, 0, f.addr);
    }

    /** get_next_data_sqe and the two stores into that segment. */
    method PatchNextWqe(f: Frame)
      requires Shape(g, Abs())
      modifies this`segIdx, this`frames, ring
      ensures Abs() == Prepare(g, old(Abs()), f)
    {
      var j := BitAnd((segIdx + 2) % U32, g.Mask());
      segIdx := (segIdx + 4) % U32;
      StoreFrame(j, f);
      frames := frames + [f];
    }

    method PrepareSendPacket(f: Frame)
      requires Shape(g, Abs())
      modifies this`segIdx, this`frames, ring
      ensures Abs() == Prepare(g, old(Abs()), f)
      ensures g.Valid() && old(Inv(g, Abs())) ==> Inv(g, Abs())
    {
      if g.Valid() && Inv(g, Abs()) {
        PrepareKeepsInv(g, Abs(), f);
      }
      PatchNextWqe(f);
    }

    method FinishSendPacketBatch(n: nat) returns (doorbell: nat)
      modifies this`pi, this`rung
      ensures Abs() == RingDoorbell(old(Abs()), n) && doorbell == pi
      ensures old(pi == rung % U32) ==> doorbell == rung % U32
    {
      if pi == rung % U32 {
        WrapAdd(rung, n, U32);
      }
      pi := (pi + n) % U32;
      rung := rung + n;
      doorbell := pi;
    }

    /** The burst a client posts after the ping reply: prepare all, one doorbell. */
    method SendBatch(fs: seq<Frame>) returns (doorbell: nat)
      requires g.Valid() && Inv(g, Abs()) && rung == |frames|
      modifies this`segIdx, this`frames, this`pi, this`rung, ring
      ensures Inv(g, Abs()) && frames == old(frames) + fs && rung == |frames|
      ensures doorbell == |frames| % U32 && fetched == old(fetched)
    {
      for i := 0 to |fs|
        invariant Inv(g, Abs()) && frames == old(frames) + fs[..i] && rung == old(rung)
      {
        PrepareSendPacket(fs[i]);
      }
      StepKeepsInv(g, Abs(), Doorbell(|fs|));
      doorbell := FinishSendPacketBatch(|fs|);
    }
  }

  lemma SegIndexMasked(g: Ring, j: nat)
    requires g.Valid()
    ensures BitAnd(j, g.Mask()) == j % (4 * g.depth)
  {
    SegmentCount(g);
    AndMask(j, g.log + 2);
  }

  lemma SegIndexFirstLap(g: Ring, j: nat)
    requires g.Valid() && j < 4 * g.depth
    ensures j % (4 * g.depth) == j && (j + 1) % U32 == j + 1
  {
    SegmentCount(g);
    ResidueOf(j, 0, j, 4 * g.depth);
    ResidueOf(j + 1, 0, j + 1, U32);
  }
}
