/** The DMA benchmark over a message channel: a sender grants itself credits from a shared
    completion counter and sends copy descriptors, a receiver hands them to the DMA engine and
    bumps the counter asynchronously. Sender, receiver, DMA engine and sync event are four
    parties that take steps in any order. */
module DmaChannel {
  import opened Bits

  /** payload, batch_size and mmap_length are uint32 in the configuration. `inOrder` says
      whether the DMA engine finishes copies in the order of submission. */
  datatype Config = Config(batch: nat, payload: nat, mmap: nat, isRead: bool, inOrder: bool) {
    predicate Valid() { batch < U32 && payload < U32 && mmap < U32 && Modulus() != 0 }
    /** mmap_length - payload in uint32 arithmetic. */
    function Modulus(): nat { (mmap - payload) % U32 }
  }

  datatype Desc = Desc(localOffset: nat, remoteOffset: nat)

  datatype Msg = Descriptor(d: Desc) | Success

  datatype SenderPc = SInit(i: nat) | SHead | SSend(left: nat) | SClosing | SDone

  datatype ReceiverPc = RInit(i: nat) | RPoll | RRecv | RWaitSe | RDrainDma | RDrainSe | RDone

  /** The variables of the two loops. */
  datatype SenderVars = SenderVars(pc: SenderPc, start: nat, waitIdx: nat, sendNum: nat, inflight: int)
  datatype ReceiverVars = ReceiverVars(pc: ReceiverPc, inflight: int, polled: nat, seNum: int)

  /** The message channel, with all descriptors ever sent and the number received. */
  datatype Channel = Channel(toReceiver: seq<Msg>, toSender: seq<Msg>, log: seq<Desc>, got: nat)

  /** The DMA work queue: copies by descriptor number, completions not yet polled, and all
      copies ever made. */
  datatype Dma = Dma(submitted: seq<nat>, finished: nat, copied: seq<nat>)

  /** The sync event: its value, additions submitted, and additions applied but not polled. */
  datatype Sync = Sync(counter: nat, pending: nat, ready: nat)

  datatype State = State(snd: SenderVars, rcv: ReceiverVars, net: Channel, dma: Dma, se: Sync)

  const START := State(SenderVars(SInit(0), 0, 0, 0, 0), ReceiverVars(RInit(0), 0, 0, 0),
                       Channel([], [], [], 0), Dma([], 0, []), Sync(0, 0, 0))

  function RoundUp(n: nat, factor: nat): nat
    requires factor > 0
  {
    n + factor - 1 - (n + factor - 1) % factor
  }

  const CACHE_LINE := 64       // CACHE_LINE_SZ
  const LAST_DRAW := 0x7fff_ffff // INT32_MAX, the largest value of the distribution

  /** The offset drawn for the mmap side, rounded up to a cache line before the reduction. */
  function RandOffset(c: Config, draw: nat): nat
    requires c.Modulus() != 0
  {
    RoundUp(draw, CACHE_LINE) % c.Modulus()
  }

  function MakeDesc(c: Config, start: nat, rand: nat): Desc {
    if c.isRead then Desc(rand, start) else Desc(start, rand)
  }

  /** The fixed-slot offset and the random offset of a descriptor. */
  function SlotOffset(c: Config, d: Desc): nat {
    if c.isRead then d.remoteOffset else d.localOffset
  }

  function MmapOffset(c: Config, d: Desc): nat {
    if c.isRead then d.localOffset else d.remoteOffset
  }

  // ----- steps ------------------------------------------------------------------------

  function Post(c: Config, net: Channel, start: nat, draw: nat): Channel
    requires c.Valid()
  {
    var d := MakeDesc(c, start, RandOffset(c, draw));
    net.(toReceiver := net.toReceiver + [Descriptor(d)], log := net.log + [d])
  }

  function Sender(c: Config, s: State, draw: nat, stop: bool): State
    requires c.Valid()
  {
    var v := s.snd;
    match v.pc
    case SInit(i) =>
      if i < c.batch then
        s.(snd := v.(pc := SInit(i + 1), start := v.start + c.payload),
           net := Post(c, s.net, v.start, draw))
      else s.(snd := SenderVars(SHead, 0, 0, c.batch, c.batch))
    case SHead =>
      if stop then
        s.(snd := v.(pc := SClosing), net := s.net.(toReceiver := s.net.toReceiver + [Success]))
      else
        var need := (s.se.counter + c.batch - v.sendNum) % U64;
        s.(snd := v.(pc := SSend(need), waitIdx := s.se.counter, inflight := v.inflight - need))
    case SSend(left) =>
      if left == 0 || c.batch == 0 then s.(snd := v.(pc := SHead))
      else
        var start := if (v.sendNum + 1) % c.batch == 0 then 0 else v.start + c.payload;
        s.(snd := SenderVars(SSend(left - 1), start, v.waitIdx, v.sendNum + 1, v.inflight + 1),
           net := Post(c, s.net, v.start, draw))
    case SClosing =>
      if s.net.toSender != [] && s.net.toSender[0] == Success
      then s.(snd := v.(pc := SDone), net := s.net.(toSender := s.net.toSender[1..])) else s
    case SDone => s
  }

  /** Take the next message and hand its copy to the DMA engine. */
  function Submit(s: State, v: ReceiverVars): State
    requires s.net.toReceiver != []
  {
    s.(rcv := v,
       net := s.net.(toReceiver := s.net.toReceiver[1..], got := s.net.got + 1),
       dma := s.dma.(submitted := s.dma.submitted + [s.net.got]))
  }

  /** `miss` makes a non-blocking poll come back empty-handed. */
  function Receiver(c: Config, s: State, miss: bool): State {
    var v := s.rcv;
    match v.pc
    case RInit(i) =>
      if i < c.batch then
        if s.net.toReceiver != [] && s.net.toReceiver[0].Descriptor?
        then Submit(s, v.(pc := RInit(i + 1))) else s
      else s.(rcv := ReceiverVars(RPoll, c.batch, 0, 0))
    case RPoll =>
      if miss || s.dma.finished == 0 then s.(rcv := v.(pc := RRecv))
      else s.(rcv := ReceiverVars(RRecv, v.inflight - 1, v.polled + 1, v.seNum + 1),
              dma := s.dma.(finished := s.dma.finished - 1),
              se := s.se.(pending := s.se.pending + 1))
    case RRecv =>
      if miss || s.net.toReceiver == [] then s.(rcv := v.(pc := RPoll))
      else if s.net.toReceiver[0].Success?
      then s.(rcv := v.(pc := RDrainDma), net := s.net.(toReceiver := s.net.toReceiver[1..]))
      else Submit(s, v.(pc := RWaitSe, inflight := v.inflight + 1))
    case RWaitSe =>
      if s.se.ready == 0 then s
      else s.(rcv := v.(pc := RPoll, seNum := v.seNum - 1), se := s.se.(ready := s.se.ready - 1))
    case RDrainDma =>
      if v.inflight == 0 then s.(rcv := v.(pc := RDrainSe))
      else if s.dma.finished == 0 then s
      else s.(rcv := v.(inflight := v.inflight - 1), dma := s.dma.(finished := s.dma.finished - 1))
    case RDrainSe =>
      if v.seNum == 0
      then s.(rcv := v.(pc := RDone), net := s.net.(toSender := s.net.toSender + [Success]))
      else if s.se.ready == 0 then s
      else s.(rcv := v.(seNum := v.seNum - 1), se := s.se.(ready := s.se.ready - 1))
    case RDone => s
  }

  function Engine(c: Config, d: Dma, i: nat): Dma {
    if i >= |d.submitted| || (c.inOrder && i != 0) then d
    else Dma(d.submitted[..i] + d.submitted[i + 1..], d.finished + 1, d.copied + [d.submitted[i]])
  }

  function Apply(e: Sync): Sync {
    if e.pending == 0 then e else Sync(e.counter + 1, e.pending - 1, e.ready + 1)
  }

  datatype Event = SenderStep(draw: nat, stop: bool) | ReceiverStep(miss: bool)
                 | EngineStep(i: nat) | SyncEventStep

  function Step(c: Config, s: State, e: Event): State
    requires c.Valid()
  {
    match e
    case SenderStep(draw, stop) => Sender(c, s, draw, stop)
    case ReceiverStep(miss) => Receiver(c, s, miss)
    case EngineStep(i) => s.(dma := Engine(c, s.dma, i))
    case SyncEventStep => s.(se := Apply(s.se))
  }

  function Run(c: Config, events: seq<Event>): State
    requires c.Valid()
  {
    if events == [] then START else Step(c, Run(c, events[..|events| - 1]), events[|events| - 1])
  }

  // ----- invariant -----------------------------------------------------------------------

  function Iota(n: nat): (r: seq<nat>)
    ensures |r| == n && forall i :: 0 <= i < n ==> r[i] == i
  {
    seq(n, i requires i >= 0 => i)
  }

  function Messages(ds: seq<Desc>): (r: seq<Msg>)
    ensures |r| == |ds| && forall i :: 0 <= i < |r| ==> r[i] == Descriptor(ds[i])
  {
    seq(|ds|, i requires 0 <= i < |ds| => Descriptor(ds[i]))
  }

  predicate SenderClosed(pc: SenderPc) { pc.SClosing? || pc.SDone? }
  predicate ReceiverClosed(pc: ReceiverPc) { pc.RDrainDma? || pc.RDrainSe? || pc.RDone? }

  /** The slot the next descriptor will use. */
  function NextStart(c: Config, n: nat): nat {
    if c.batch == 0 then 0 else (n % c.batch) * c.payload
  }

  /** n descriptors sent so far. */
  predicate SenderInv(c: Config, v: SenderVars, n: nat, counter: nat) {
    match v.pc
    case SInit(i) => n == i <= c.batch && v.start == n * c.payload
    case SHead =>
      && n == v.sendNum == v.waitIdx + c.batch && v.inflight == c.batch
      && v.waitIdx <= counter && v.start == NextStart(c, n)
    case SSend(left) =>
      && n == v.sendNum && n + left == v.waitIdx + c.batch && v.inflight + left == c.batch
      && v.waitIdx <= counter && v.start == NextStart(c, n) && left <= c.batch
    case _ => n == v.waitIdx + c.batch && v.waitIdx <= counter
  }

  function Closing(spc: SenderPc, rpc: ReceiverPc): seq<Msg> {
    if SenderClosed(spc) && !ReceiverClosed(rpc) then [Success] else []
  }

  predicate ChannelInv(spc: SenderPc, rpc: ReceiverPc, net: Channel) {
    && net.got <= |net.log|
    && net.toReceiver == Messages(net.log[net.got..]) + Closing(spc, rpc)
    && (ReceiverClosed(rpc) ==> SenderClosed(spc) && net.got == |net.log|)
    && net.toSender == (if rpc.RDone? && spc.SClosing? then [Success] else [])
    && (spc.SDone? ==> rpc.RDone?)
  }

  predicate ReceiverInv(c: Config, v: ReceiverVars, d: Dma, e: Sync, got: nat) {
    && e.counter + e.pending == v.polled
    && e.pending + e.ready == v.seNum
    && |d.copied| + |d.submitted| == got
    && v.polled + d.finished <= |d.copied|
    && match v.pc
       case RInit(i) =>
         got == i <= c.batch && |d.submitted| + d.finished == i && v.polled == 0 && v.seNum == 0
         && v.inflight == 0
       case RPoll => Balanced(c, v, d, got, 0)
       case RRecv => Balanced(c, v, d, got, 0)
       case RWaitSe => Balanced(c, v, d, got, 1)
       case RDrainDma =>
         v.inflight == |d.submitted| + d.finished && v.seNum == v.polled + c.batch - got
       case RDrainSe => d.submitted == [] && d.finished == 0 && v.inflight == 0 && v.seNum <= c.batch
       case RDone => d.submitted == [] && d.finished == 0 && v.inflight == 0 && v.seNum == 0
  }

  /** In the main loop: every received copy is in flight or polled, and every polled copy
      beyond those answered by a new descriptor has its addition outstanding. */
  predicate Balanced(c: Config, v: ReceiverVars, d: Dma, got: nat, owed: nat) {
    && got >= c.batch
    && v.inflight == |d.submitted| + d.finished
    && got == v.polled + v.inflight
    && v.seNum == v.polled + c.batch - got + owed
  }

  ghost predicate CopyInv(c: Config, d: Dma, got: nat) {
    && multiset(d.submitted) + multiset(d.copied) == multiset(Iota(got))
    && (c.inOrder ==> d.copied + d.submitted == Iota(got))
  }

  predicate DescOk(c: Config, k: nat, d: Desc)
    requires c.Valid()
  {
    && c.batch > 0
    && (if c.isRead then d.remoteOffset else d.localOffset) == (k % c.batch) * c.payload
    && (if c.isRead then d.localOffset else d.remoteOffset) < c.Modulus()
  }

  predicate LogInv(c: Config, log: seq<Desc>)
    requires c.Valid()
  {
    forall k: nat :: k < |log| ==> DescOk(c, k, log[k])
  }

  /** The control state of the two loops, the channel and the queues. */
  ghost predicate Control(c: Config, s: State) {
    && SenderInv(c, s.snd, |s.net.log|, s.se.counter)
    && ChannelInv(s.snd.pc, s.rcv.pc, s.net)
    && ReceiverInv(c, s.rcv, s.dma, s.se, s.net.got)
  }

  ghost predicate Inv(c: Config, s: State)
    requires c.Valid()
  {
    Control(c, s) && CopyInv(c, s.dma, s.net.got) && LogInv(c, s.net.log)
  }

  lemma NextStartStep(c: Config, n: nat)
    requires c.batch > 0
    ensures NextStart(c, n + 1) ==
            if (n + 1) % c.batch == 0 then 0 else NextStart(c, n) + c.payload
  {
    StepSlot(n, c.batch);
    var x := n % c.batch;
    assert (x + 1) * c.payload == x * c.payload + c.payload;
  }

  lemma NextStartLap(c: Config)
    ensures NextStart(c, c.batch) == 0
  {
    if c.batch > 0 {
      ResidueOf(c.batch, 1, 0, c.batch);
    }
  }

  /** Descriptors sent never exceed the counter by more than a batch; additions applied and
      copies polled never exceed descriptors received. */
  lemma WithinWindow(c: Config, s: State)
    requires Control(c, s)
    ensures s.net.got <= |s.net.log| <= s.se.counter + c.batch
    ensures s.se.counter <= s.rcv.polled <= s.net.got
    ensures |s.dma.submitted| + s.dma.finished <= c.batch
  {
  }

  /** The credit computed at the head of the sender's loop: never negative, never more than
      a batch, so neither unsigned subtraction wraps. */
  lemma CreditExact(c: Config, s: State)
    requires c.Valid() && Control(c, s) && s.snd.pc == SHead
    ensures (s.se.counter + c.batch - s.snd.sendNum) % U64 == s.se.counter - s.snd.waitIdx <= c.batch
  {
    WithinWindow(c, s);
    var need := s.se.counter + c.batch - s.snd.sendNum;
    ResidueOf(need, 0, need, U64);
  }

  lemma PostKeepsChannel(c: Config, net: Channel, start: nat, draw: nat, spc: SenderPc, spc': SenderPc,
                         rpc: ReceiverPc)
    requires c.Valid() && ChannelInv(spc, rpc, net) && !SenderClosed(spc) && !SenderClosed(spc')
    ensures ChannelInv(spc', rpc, Post(c, net, start, draw))
  {
    var d := MakeDesc(c, start, RandOffset(c, draw));
    assert (net.log + [d])[net.got..] == net.log[net.got..] + [d];
    assert Messages(net.log[net.got..] + [d]) == Messages(net.log[net.got..]) + [Descriptor(d)];
  }

  lemma PostKeepsLog(c: Config, net: Channel, draw: nat)
    requires c.Valid() && LogInv(c, net.log) && c.batch > 0
    ensures LogInv(c, Post(c, net, NextStart(c, |net.log|), draw).log)
  {
    var n := |net.log|;
    var log' := Post(c, net, NextStart(c, n), draw).log;
    assert DescOk(c, n, log'[n]);
  }

  lemma SenderKeepsChannel(c: Config, s: State, draw: nat, stop: bool)
    requires c.Valid() && ChannelInv(s.snd.pc, s.rcv.pc, s.net)
    ensures var s' := Sender(c, s, draw, stop); ChannelInv(s'.snd.pc, s.rcv.pc, s'.net)
  {
    var s' := Sender(c, s, draw, stop);
    match s.snd.pc
    case SInit(i) =>
      if i < c.batch {
        PostKeepsChannel(c, s.net, s.snd.start, draw, s.snd.pc, s'.snd.pc, s.rcv.pc);
      }
    case SSend(left) =>
      if left != 0 && c.batch != 0 {
        PostKeepsChannel(c, s.net, s.snd.start, draw, s.snd.pc, s'.snd.pc, s.rcv.pc);
      }
    case _ =>
  }

  lemma SenderKeepsLog(c: Config, s: State, draw: nat, stop: bool)
    requires c.Valid() && SenderInv(c, s.snd, |s.net.log|, s.se.counter) && LogInv(c, s.net.log)
    ensures LogInv(c, Sender(c, s, draw, stop).net.log)
  {
    match s.snd.pc
    case SInit(i) =>
      if i < c.batch {
        ResidueOf(i, 0, i, c.batch);
        PostKeepsLog(c, s.net, draw);
      }
    case SSend(left) =>
      if left != 0 && c.batch != 0 {
        PostKeepsLog(c, s.net, draw);
      }
    case _ =>
  }

  lemma InitStepKeepsOwn(c: Config, s: State, draw: nat, i: nat)
    requires c.Valid() && SenderInv(c, s.snd, |s.net.log|, s.se.counter) && s.snd.pc == SInit(i)
    ensures var s' := Sender(c, s, draw, false);
            SenderInv(c, s'.snd, |s'.net.log|, s.se.counter)
  {
    NextStartLap(c);
    assert (i + 1) * c.payload == i * c.payload + c.payload;
  }

  lemma SendStepKeepsOwn(c: Config, s: State, draw: nat, left: nat)
    requires c.Valid() && SenderInv(c, s.snd, |s.net.log|, s.se.counter) && s.snd.pc == SSend(left)
    ensures var s' := Sender(c, s, draw, false);
            SenderInv(c, s'.snd, |s'.net.log|, s.se.counter)
  {
    if left > 0 {
      NextStartStep(c, |s.net.log|);
    }
  }

  lemma SenderKeepsOwn(c: Config, s: State, draw: nat, stop: bool)
    requires c.Valid() && SenderInv(c, s.snd, |s.net.log|, s.se.counter)
    requires s.snd.pc == SHead ==> s.se.counter - s.snd.waitIdx <= c.batch
    ensures var s' := Sender(c, s, draw, stop);
            SenderInv(c, s'.snd, |s'.net.log|, s.se.counter)
  {
    match s.snd.pc
    case SInit(i) => InitStepKeepsOwn(c, s, draw, i);
    case SSend(left) => SendStepKeepsOwn(c, s, draw, left);
    case _ =>
  }

  lemma SenderFrame(c: Config, s: State, draw: nat, stop: bool)
    requires c.Valid()
    ensures var s' := Sender(c, s, draw, stop);
            s'.rcv == s.rcv && s'.dma == s.dma && s'.se == s.se && s'.net.got == s.net.got
  {
  }

  lemma SenderKeepsControl(c: Config, s: State, draw: nat, stop: bool)
    requires c.Valid() && Control(c, s)
    ensures Control(c, Sender(c, s, draw, stop))
  {
    WithinWindow(c, s);
    SenderKeepsOwn(c, s, draw, stop);
    SenderKeepsChannel(c, s, draw, stop);
    SenderFrame(c, s, draw, stop);
  }

  lemma SubmitCopies(c: Config, d: Dma, got: nat)
    requires CopyInv(c, d, got)
    ensures CopyInv(c, d.(submitted := d.submitted + [got]), got + 1)
  {
    assert Iota(got + 1) == Iota(got) + [got];
    assert d.copied + (d.submitted + [got]) == (d.copied + d.submitted) + [got];
  }

  /** Taking a message: a descriptor exactly while some are on the way. */
  lemma FirstMessage(spc: SenderPc, rpc: ReceiverPc, net: Channel)
    requires ChannelInv(spc, rpc, net) && net.toReceiver != []
    ensures net.toReceiver[0].Descriptor? <==> net.got < |net.log|
    ensures net.got < |net.log| ==>
      net.toReceiver[1..] == Messages(net.log[net.got + 1..]) + Closing(spc, rpc)
    ensures net.got == |net.log| ==>
      net.toReceiver == [Success] && SenderClosed(spc) && !ReceiverClosed(rpc)
  {
    var tail := Closing(spc, rpc);
    var ms := Messages(net.log[net.got..]);
    if net.got < |net.log| {
      assert ms[1..] == Messages(net.log[net.got + 1..]);
      assert (ms + tail)[1..] == ms[1..] + tail;
    } else {
      assert ms + tail == tail;
    }
  }

  lemma TakingKeepsChannel(c: Config, s: State, miss: bool)
    requires ChannelInv(s.snd.pc, s.rcv.pc, s.net) && (s.rcv.pc.RInit? || s.rcv.pc.RRecv?)
    ensures var s' := Receiver(c, s, miss); ChannelInv(s.snd.pc, s'.rcv.pc, s'.net)
  {
    if s.net.toReceiver != [] {
      FirstMessage(s.snd.pc, s.rcv.pc, s.net);
      if s.net.got == |s.net.log| {
        assert s.net.toReceiver[1..] == [] && Messages(s.net.log[s.net.got..]) == [];
      }
    }
  }

  lemma ReceiverKeepsChannel(c: Config, s: State, miss: bool)
    requires ChannelInv(s.snd.pc, s.rcv.pc, s.net)
    ensures var s' := Receiver(c, s, miss); ChannelInv(s.snd.pc, s'.rcv.pc, s'.net)
  {
    if s.rcv.pc.RInit? || s.rcv.pc.RRecv? {
      TakingKeepsChannel(c, s, miss);
    }
  }

  lemma TakingKeepsOwn(c: Config, s: State, miss: bool)
    requires c.Valid() && ReceiverInv(c, s.rcv, s.dma, s.se, s.net.got) && (s.rcv.pc.RInit? || s.rcv.pc.RRecv?)
    requires ChannelInv(s.snd.pc, s.rcv.pc, s.net)
    requires |s.net.log| <= s.se.counter + c.batch
    ensures var s' := Receiver(c, s, miss); ReceiverInv(c, s'.rcv, s'.dma, s'.se, s'.net.got)
  {
    if s.net.toReceiver != [] {
      FirstMessage(s.snd.pc, s.rcv.pc, s.net);
    }
  }

  lemma PollingKeepsOwn(c: Config, s: State, miss: bool)
    requires ReceiverInv(c, s.rcv, s.dma, s.se, s.net.got) && (s.rcv.pc.RPoll? || s.rcv.pc.RWaitSe?)
    ensures var s' := Receiver(c, s, miss); ReceiverInv(c, s'.rcv, s'.dma, s'.se, s'.net.got)
  {
  }

  lemma DrainingKeepsOwn(c: Config, s: State, miss: bool)
    requires ReceiverInv(c, s.rcv, s.dma, s.se, s.net.got) && ReceiverClosed(s.rcv.pc)
    requires s.net.got <= s.se.counter + c.batch
    ensures var s' := Receiver(c, s, miss); ReceiverInv(c, s'.rcv, s'.dma, s'.se, s'.net.got)
  {
  }

  lemma ReceiverKeepsOwn(c: Config, s: State, miss: bool)
    requires c.Valid() && ReceiverInv(c, s.rcv, s.dma, s.se, s.net.got)
    requires ChannelInv(s.snd.pc, s.rcv.pc, s.net)
    requires |s.net.log| <= s.se.counter + c.batch
    ensures var s' := Receiver(c, s, miss); ReceiverInv(c, s'.rcv, s'.dma, s'.se, s'.net.got)
  {
    if s.rcv.pc.RInit? || s.rcv.pc.RRecv? {
      TakingKeepsOwn(c, s, miss);
    } else if ReceiverClosed(s.rcv.pc) {
      DrainingKeepsOwn(c, s, miss);
    } else {
      PollingKeepsOwn(c, s, miss);
    }
  }

  lemma ReceiverFrame(c: Config, s: State, miss: bool)
    ensures var s' := Receiver(c, s, miss);
            && s'.snd == s.snd && s'.net.log == s.net.log && s'.se.counter == s.se.counter
            && s'.dma.copied == s.dma.copied
            && (if s'.net.got == s.net.got then s'.dma.submitted == s.dma.submitted
                else s'.net.got == s.net.got + 1 && s'.dma.submitted == s.dma.submitted + [s.net.got])
  {
  }

  lemma ReceiverKeepsControl(c: Config, s: State, miss: bool)
    requires c.Valid() && Control(c, s)
    ensures Control(c, Receiver(c, s, miss))
  {
    WithinWindow(c, s);
    ReceiverKeepsChannel(c, s, miss);
    ReceiverKeepsOwn(c, s, miss);
    ReceiverFrame(c, s, miss);
  }

  lemma EngineKeepsCopies(c: Config, d: Dma, i: nat, got: nat)
    requires CopyInv(c, d, got)
    ensures CopyInv(c, Engine(c, d, i), got)
  {
    var d' := Engine(c, d, i);
    if d' != d {
      var x := d.submitted[i];
      assert d.submitted == d.submitted[..i] + [x] + d.submitted[i + 1..];
      if c.inOrder {
        assert d'.copied + d'.submitted == d.copied + d.submitted;
      }
    }
  }

  lemma EngineKeepsReceiver(c: Config, s: State, i: nat)
    requires ReceiverInv(c, s.rcv, s.dma, s.se, s.net.got)
    ensures ReceiverInv(c, s.rcv, Engine(c, s.dma, i), s.se, s.net.got)
  {
  }

  lemma ApplyKeepsControl(c: Config, s: State)
    requires Control(c, s)
    ensures Control(c, s.(se := Apply(s.se)))
  {
  }

  lemma StepKeepsControl(c: Config, s: State, e: Event)
    requires c.Valid() && Control(c, s)
    ensures Control(c, Step(c, s, e))
  {
    match e
    case SenderStep(draw, stop) => SenderKeepsControl(c, s, draw, stop);
    case ReceiverStep(miss) => ReceiverKeepsControl(c, s, miss);
    case EngineStep(i) => EngineKeepsReceiver(c, s, i);
    case SyncEventStep => ApplyKeepsControl(c, s);
  }

  lemma StepKeepsCopies(c: Config, s: State, e: Event)
    requires c.Valid() && CopyInv(c, s.dma, s.net.got)
    ensures var s' := Step(c, s, e); CopyInv(c, s'.dma, s'.net.got)
  {
    match e
    case SenderStep(draw, stop) => SenderFrame(c, s, draw, stop);
    case ReceiverStep(miss) =>
      ReceiverFrame(c, s, miss);
      SubmitCopies(c, s.dma, s.net.got);
    case EngineStep(i) => EngineKeepsCopies(c, s.dma, i, s.net.got);
    case SyncEventStep =>
  }

  lemma StepKeepsInv(c: Config, s: State, e: Event)
    requires c.Valid() && Inv(c, s)
    ensures Inv(c, Step(c, s, e))
  {
    StepKeepsControl(c, s, e);
    StepKeepsCopies(c, s, e);
    if e.SenderStep? {
      SenderKeepsLog(c, s, e.draw, e.stop);
    } else if e.ReceiverStep? {
      ReceiverFrame(c, s, e.miss);
    }
  }

  lemma {:induction false} RunInv(c: Config, events: seq<Event>)
    requires c.Valid()
    ensures Inv(c, Run(c, events))
  {
    if events == [] {
      assert Iota(0) == [];
    } else {
      RunInv(c, events[..|events| - 1]);
      StepKeepsInv(c, Run(c, events[..|events| - 1]), events[|events| - 1]);
    }
  }

  // ----- main results ----------------------------------------------------------------------

  /** The credit window, in every interleaving: descriptors sent stay within a batch of the
      counter, the credit subtraction never wraps, at most a batch of copies is in flight, and
      descriptor k always names slot k mod batch. */
  lemma CreditWindow(c: Config, events: seq<Event>)
    requires c.Valid()
    ensures var s := Run(c, events);
            && |s.net.log| <= s.se.counter + c.batch
            && (s.snd.pc == SHead ==> 0 <= s.se.counter + c.batch - s.snd.sendNum <= c.batch)
            && |s.dma.submitted| + s.dma.finished <= c.batch
            && 0 <= s.rcv.inflight <= c.batch
            && forall k: nat :: k < |s.net.log| ==> DescOk(c, k, s.net.log[k])
  {
    RunInv(c, events);
    var s := Run(c, events);
    WithinWindow(c, s);
    if s.snd.pc == SHead {
      CreditExact(c, s);
    }
  }

  /** The completion queue of the sync event: between 0 and a batch of additions are
      outstanding, and whenever the receiver waits for one, one has already completed. */
  lemma SyncEventQueue(c: Config, events: seq<Event>)
    requires c.Valid()
    ensures var s := Run(c, events);
            && 0 <= s.rcv.seNum <= c.batch
            && (s.rcv.pc == RWaitSe ==> s.se.ready >= 1)
            && (s.rcv.pc == RDrainDma && s.rcv.inflight > 0 ==>
                  |s.dma.submitted| + s.dma.finished > 0)
            && (s.rcv.pc == RDrainSe && s.rcv.seNum > 0 ==> s.se.pending + s.se.ready > 0)
  {
    RunInv(c, events);
    WithinWindow(c, Run(c, events));
  }

  /** When the sender has received the closing message, every descriptor it ever sent has been
      copied exactly once and nothing is left in any queue. */
  lemma CleanShutdown(c: Config, events: seq<Event>)
    requires c.Valid() && Run(c, events).snd.pc == SDone
    ensures var s := Run(c, events);
            && multiset(s.dma.copied) == multiset(Iota(|s.net.log|))
            && s.dma.submitted == [] && s.dma.finished == 0
            && s.se.pending == 0 && s.se.ready == 0 && s.rcv.seNum == 0
            && s.net.toReceiver == [] && s.net.toSender == []
  {
    RunInv(c, events);
    var s := Run(c, events);
    assert multiset(s.dma.submitted) == multiset{};
  }

  // ----- slots in use --------------------------------------------------------------------

  /** Two copies in the engine work on the same slot. */
  ghost predicate Collision(c: Config, s: State) {
    exists x: nat, y: nat :: x < y < |s.dma.submitted| && c.batch > 0
      && s.dma.submitted[x] % c.batch == s.dma.submitted[y] % c.batch
  }

  /** With an engine that finishes in order, the descriptors sent and not yet copied are the
      last ones, at most a batch, and so use pairwise different slots. */
  lemma InOrderSlots(c: Config, events: seq<Event>)
    requires c.Valid() && c.inOrder
    ensures var s := Run(c, events);
            && |s.net.log| - |s.dma.copied| <= c.batch
            && s.dma.copied == Iota(|s.dma.copied|)
            && (forall i: nat, j: nat :: |s.dma.copied| <= i < j < |s.net.log| ==>
                  i % c.batch != j % c.batch)
            && !Collision(c, s)
  {
    RunInv(c, events);
    var s := Run(c, events);
    WithinWindow(c, s);
    var d, got := s.dma, s.net.got;
    var m := |d.copied|;
    assert d.copied == (d.copied + d.submitted)[..m] == Iota(got)[..m] == Iota(m);
    assert d.submitted == (d.copied + d.submitted)[m..] == Iota(got)[m..];
    forall i: nat, j: nat | m <= i < j < |s.net.log|
      ensures i % c.batch != j % c.batch
    {
      DistinctSlots(i, j, c.batch);
    }
    assert forall x :: 0 <= x < |d.submitted| ==> d.submitted[x] == m + x;
  }

  // The same credits with an engine that may overtake: the run of `Overtaking`.

  lemma RunAppend(c: Config, events: seq<Event>, e: Event)
    requires c.Valid()
    ensures Run(c, events + [e]) == Step(c, Run(c, events), e)
  {
    var es := events + [e];
    assert es[..|es| - 1] == events;
  }

  const SEND := SenderStep(0, false)
  const RECEIVE := ReceiverStep(false)

  lemma {:induction false} AfterInitialSends(c: Config, i: nat) returns (events: seq<Event>)
    requires c.Valid() && i <= c.batch
    ensures var s := Run(c, events);
            && s.snd.pc == SInit(i) && s.rcv.pc == RInit(0) && |s.net.log| == i && s.net.got == 0
            && s.dma == Dma([], 0, []) && s.se == Sync(0, 0, 0)
  {
    events := [];
    if i > 0 {
      events := AfterInitialSends(c, i - 1);
      RunAppend(c, events, SEND);
      events := events + [SEND];
    }
  }

  predicate Loaded(c: Config, s: State, i: nat) {
    && s.snd.pc == SInit(c.batch) && s.rcv.pc == RInit(i) && |s.net.log| == c.batch
    && s.net.got == i && s.dma == Dma(Iota(i), 0, []) && s.se == Sync(0, 0, 0)
  }

  lemma LoadOne(c: Config, s: State, i: nat)
    requires c.Valid() && Inv(c, s) && Loaded(c, s, i) && i < c.batch
    ensures Loaded(c, Receiver(c, s, false), i + 1)
  {
    assert s.net.toReceiver != [];
    FirstMessage(s.snd.pc, s.rcv.pc, s.net);
    assert Iota(i + 1) == Iota(i) + [i];
  }

  lemma {:induction false} AfterInitialReceives(c: Config, i: nat) returns (events: seq<Event>)
    requires c.Valid() && i <= c.batch
    ensures Loaded(c, Run(c, events), i)
  {
    if i == 0 {
      events := AfterInitialSends(c, c.batch);
      assert Iota(0) == [];
    } else {
      events := AfterInitialReceives(c, i - 1);
      RunAppend(c, events, RECEIVE);
      RunInv(c, events);
      LoadOne(c, Run(c, events), i - 1);
      events := events + [RECEIVE];
    }
  }

  /** All descriptors of the first batch are submitted, copy 1 overtakes copy 0, and its
      completion raises the counter. */
  lemma CreditWithoutSlot(c: Config) returns (events: seq<Event>)
    requires c.Valid() && !c.inOrder && c.batch >= 2
    ensures var s := Run(c, events);
            && s.snd == SenderVars(SHead, 0, 0, c.batch, c.batch) && s.rcv.pc == RRecv
            && |s.net.log| == c.batch && s.net.got == c.batch && s.se.counter == 1
            && |s.dma.submitted| == c.batch - 1 && s.dma.submitted[0] == 0
  {
    var e0 := AfterInitialReceives(c, c.batch);
    var e1 := e0 + [SEND];
    var e2 := e1 + [RECEIVE];
    var e3 := e2 + [EngineStep(1)];
    var e4 := e3 + [RECEIVE];
    events := e4 + [SyncEventStep];
    RunAppend(c, e0, SEND);
    RunAppend(c, e1, RECEIVE);
    assert Run(c, e2).dma == Dma(Iota(c.batch), 0, []);
    RunAppend(c, e2, EngineStep(1));
    RunAppend(c, e3, RECEIVE);
    RunAppend(c, e4, SyncEventStep);
  }

  lemma CreditSpent(c: Config) returns (events: seq<Event>)
    requires c.Valid() && !c.inOrder && c.batch >= 2
    ensures var s := Run(c, events);
            && s.rcv.pc == RRecv && s.net.got == c.batch && |s.net.log| == c.batch + 1
            && |s.dma.submitted| == c.batch - 1 && s.dma.submitted[0] == 0
  {
    var e5 := CreditWithoutSlot(c);
    RunAppend(c, e5, SEND);
    assert Run(c, e5 + [SEND]).snd.pc == SSend(1);
    RunAppend(c, e5 + [SEND], SEND);
    events := e5 + [SEND] + [SEND];
  }

  lemma SlotTaken(c: Config, s: State)
    requires c.batch >= 2 && ChannelInv(s.snd.pc, s.rcv.pc, s.net) && s.rcv.pc == RRecv
    requires s.net.got == c.batch && |s.net.log| == c.batch + 1
    requires |s.dma.submitted| == c.batch - 1 && s.dma.submitted[0] == 0
    ensures Collision(c, Receiver(c, s, false))
  {
    assert s.net.toReceiver != [];
    FirstMessage(s.snd.pc, s.rcv.pc, s.net);
    var d := Receiver(c, s, false).dma.submitted;
    assert d == s.dma.submitted + [c.batch];
    ResidueOf(c.batch, 1, 0, c.batch);
    ResidueOf(0, 0, 0, c.batch);
    assert d[0] % c.batch == d[c.batch - 1] % c.batch;
  }

  /** That credit buys descriptor `batch`, which goes to slot 0 while copy 0 is still running. */
  lemma Overtaking(c: Config) returns (events: seq<Event>)
    requires c.Valid() && !c.inOrder && c.batch >= 2
    ensures Collision(c, Run(c, events))
  {
    var e7 := CreditSpent(c);
    RunAppend(c, e7, RECEIVE);
    RunInv(c, e7);
    SlotTaken(c, Run(c, e7));
    events := e7 + [RECEIVE];
  }

  ghost predicate NeverCollides(c: Config)
    requires c.Valid()
  {
    forall events: seq<Event> :: !Collision(c, Run(c, events))
  }

  /** Credits are counted, not tied to slots: copies never share a slot in any run if and only
      if the engine finishes in order or the batch is at most 1. */
  lemma SlotsExclusiveIffInOrder(c: Config)
    requires c.Valid()
    ensures NeverCollides(c) <==> c.inOrder || c.batch <= 1
  {
    if c.inOrder || c.batch <= 1 {
      forall events: seq<Event>
        ensures !Collision(c, Run(c, events))
      {
        if c.inOrder {
          InOrderSlots(c, events);
        } else {
          RunInv(c, events);
          WithinWindow(c, Run(c, events));
        }
      }
    } else {
      var events := Overtaking(c);
      assert Collision(c, Run(c, events));
    }
  }

  // ----- offsets and buffer sizes -------------------------------------------------------------

  /** A copy of `payload` bytes at the two offsets of a descriptor stays inside the local
      buffer, whose length is computed in uint32 arithmetic, and inside the mmap. */
  predicate Fits(c: Config, d: Desc) {
    && SlotOffset(c, d) + c.payload <= (c.batch * c.payload) % U32
    && MmapOffset(c, d) + c.payload <= c.mmap
  }

  /** Every descriptor of every run fits. */
  ghost predicate AlwaysFits(c: Config)
    requires c.Valid()
  {
    forall events: seq<Event>, k: nat :: k < |Run(c, events).net.log| ==> Fits(c, Run(c, events).net.log[k])
  }

  lemma SlotFits(c: Config, k: nat)
    requires k < c.batch && c.batch * c.payload < U32
    ensures k * c.payload + c.payload <= (c.batch * c.payload) % U32
  {
    MulGap(k, c.batch, c.payload);
    ResidueOf(c.batch * c.payload, 0, c.batch * c.payload, U32);
  }

  /** Both buffers are large enough. */
  predicate Roomy(c: Config) { c.payload < c.mmap && c.batch * c.payload < U32 }

  lemma DescFits(c: Config, k: nat, d: Desc)
    requires c.Valid() && DescOk(c, k, d) && Roomy(c)
    ensures Fits(c, d)
  {
    SlotFits(c, k % c.batch);
    ResidueOf(c.mmap - c.payload, 0, c.mmap - c.payload, U32);
  }

  lemma LastSlotTooFar(c: Config, d: Desc)
    requires c.Valid() && c.batch > 0 && DescOk(c, c.batch - 1, d) && !Roomy(c)
    ensures !Fits(c, d)
  {
    if c.payload < c.mmap {
      ResidueOf(c.batch - 1, 0, c.batch - 1, c.batch);
      assert (c.batch - 1) * c.payload + c.payload == c.batch * c.payload;
      assert (c.batch * c.payload) % U32 < U32;
    }
  }

  lemma FitInRun(c: Config, events: seq<Event>, k: nat)
    requires c.Valid() && k < |Run(c, events).net.log| && (c.batch == 0 || Roomy(c))
    ensures Fits(c, Run(c, events).net.log[k])
  {
    CreditWindow(c, events);
    DescFits(c, k, Run(c, events).net.log[k]);
  }

  lemma SomeMisfit(c: Config) returns (events: seq<Event>)
    requires c.Valid() && c.batch > 0 && !Roomy(c)
    ensures var log := Run(c, events).net.log; |log| == c.batch && !Fits(c, log[c.batch - 1])
  {
    events := AfterInitialSends(c, c.batch);
    CreditWindow(c, events);
    LastSlotTooFar(c, Run(c, events).net.log[c.batch - 1]);
  }

  /** Every copy of every run stays inside both buffers if and only if nothing is ever sent, or the
      payload is smaller than the mmap and the slots together are smaller than 4 GiB. */
  lemma AllFitIff(c: Config)
    requires c.Valid()
    ensures AlwaysFits(c) <==> c.batch == 0 || Roomy(c)
  {
    if c.batch == 0 || Roomy(c) {
      forall events: seq<Event>, k: nat | k < |Run(c, events).net.log| ensures Fits(c, Run(c, events).net.log[k]) {
        FitInRun(c, events, k);
      }
    } else {
      var events := SomeMisfit(c);
    }
  }

  // ----- rounding -------------------------------------------------------------------------------

  /** r is the least multiple of f that is not below n. */
  ghost predicate LeastMultiple(r: int, n: int, f: int) {
    n <= r && (exists k :: r == k * f) && forall k :: n <= k * f ==> r <= k * f
  }

  lemma RoundUpIs(n: nat, f: nat)
    requires f > 0
    ensures LeastMultiple(RoundUp(n, f), n, f) && RoundUp(n, f) < n + f && RoundUp(n, f) % f == 0
  {
    var x := n + f - 1;
    var q := x / f;
    assert RoundUp(n, f) == q * f;
    ResidueOf(q * f, q, 0, f);
    forall k | n <= k * f ensures q * f <= k * f {
      if k < q {
        MulGap(k, q, f);
      } else {
        MulMonotone(q, k, f);
      }
    }
  }

  // ----- the sender's loop itself ---------------------------------------------------------------

  /** The mmap offset is the least multiple of a cache line not below the draw, reduced. */
  ghost predicate AtLeastDraw(c: Config, d: Desc, draw: nat)
    requires c.Valid()
  {
    exists r: nat :: LeastMultiple(r, draw, CACHE_LINE) && MmapOffset(c, d) == r % c.Modulus()
  }

  /** The inner loop that spends `need` credits: it sends descriptors sendNum, sendNum + 1, ...,
      each with the slot of its number, and leaves `start` at the slot of the next one. */
  method SpendCredits(c: Config, start0: nat, sendNum0: nat, need: nat, draws: seq<nat>)
    returns (start: nat, sendNum: nat, sent: seq<Desc>)
    requires c.Valid() && (need > 0 ==> c.batch > 0) && |draws| == need
    requires start0 == NextStart(c, sendNum0)
    ensures sendNum == sendNum0 + need && |sent| == need && start == NextStart(c, sendNum)
    ensures forall i: nat :: i < need ==> DescOk(c, sendNum0 + i, sent[i])
    ensures forall i: nat :: i < need ==> AtLeastDraw(c, sent[i], draws[i])
  {
    start, sendNum, sent := start0, sendNum0, [];
    for i := 0 to need
      invariant sendNum == sendNum0 + i && |sent| == i && start == NextStart(c, sendNum)
      invariant forall j: nat :: j < i ==> DescOk(c, sendNum0 + j, sent[j])
      invariant forall j: nat :: j < i ==> AtLeastDraw(c, sent[j], draws[j])
    {
      RoundUpIs(draws[i], CACHE_LINE);
      NextStartStep(c, sendNum);
      sent := sent + [MakeDesc(c, start, RandOffset(c, draws[i]))];
      sendNum := sendNum + 1;
      start := start + c.payload;
      if sendNum % c.batch == 0 {
        start := 0;
      }
    }
  }
}
