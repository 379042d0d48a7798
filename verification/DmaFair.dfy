/** The end of the DMA benchmark: once the sender has stopped, every fair schedule finishes the
    closing handshake, and every run can be brought to that point. */
module DmaFair {
  import opened DmaChannel

  /** What is left to do after the sender has stopped, weighted so that every productive step
      counts down: receive, copy, poll, add, collect, and the phases of the two loops. */
  function Work(s: State): int {
    6 * (|s.net.log| - s.net.got) + 5 * |s.dma.submitted| + 4 * s.dma.finished + 2 * s.se.pending + s.se.ready
    + Phase(s.rcv.pc) + if s.snd.pc == SDone then 0 else 1
  }

  function Phase(pc: ReceiverPc): nat {
    match pc
    case RInit(_) => 5
    case RPoll => 4
    case RRecv => 4
    case RWaitSe => 4
    case RDrainDma => 3
    case RDrainSe => 2
    case RDone => 1
  }

  ghost predicate Stopped(c: Config, s: State) {
    Control(c, s) && SenderClosed(s.snd.pc)
  }

  /** An unproductive step changes at most the side of the polling loop. */
  predicate Turned(s: State, s': State) {
    s' == s || (s.rcv.pc == RPoll && s' == s.(rcv := s.rcv.(pc := RRecv)))
  }

  /** No poll that could succeed comes back empty-handed. */
  predicate Prompt(e: Event) { e.ReceiverStep? ==> !e.miss }

  // ----- one step ----------------------------------------------------------------------------------

  lemma SenderWork(c: Config, s: State, draw: nat, stop: bool)
    requires c.Valid() && SenderClosed(s.snd.pc)
    ensures var s' := Sender(c, s, draw, stop);
            SenderClosed(s'.snd.pc) && (Work(s') < Work(s) || s' == s)
    ensures s.snd.pc == SClosing && s.net.toSender == [Success] ==> Work(Sender(c, s, draw, stop)) < Work(s)
  {
  }

  /** A receiver waiting for a message finds one. */
  lemma MessageThere(c: Config, s: State)
    requires Stopped(c, s) && (s.rcv.pc.RInit? || s.rcv.pc.RRecv?)
    ensures s.net.toReceiver != []
    ensures s.rcv.pc.RInit? && s.rcv.pc.i < c.batch ==> s.net.toReceiver[0].Descriptor?
  {
    assert Closing(s.snd.pc, s.rcv.pc) == [Success];
    FirstMessage(s.snd.pc, s.rcv.pc, s.net);
  }

  lemma TakingWork(c: Config, s: State, miss: bool)
    requires s.net.toReceiver != [] && (s.rcv.pc.RInit? || s.rcv.pc.RRecv?)
    requires s.rcv.pc.RInit? && s.rcv.pc.i < c.batch ==> s.net.toReceiver[0].Descriptor?
    ensures Work(Receiver(c, s, miss)) <= Work(s)
    ensures Work(Receiver(c, s, false)) < Work(s)
  {
  }

  lemma PollingWork(c: Config, s: State, miss: bool)
    requires !s.rcv.pc.RInit? && !s.rcv.pc.RRecv?
    ensures var s' := Receiver(c, s, miss); Work(s') < Work(s) || Turned(s, s')
  {
  }

  lemma TurnedWork(s: State, s': State)
    requires Turned(s, s')
    ensures Work(s') == Work(s)
  {
  }

  lemma ReceiverWork(c: Config, s: State, miss: bool)
    requires Stopped(c, s)
    ensures var s' := Receiver(c, s, miss); Work(s') <= Work(s) && (miss || Work(s') < Work(s) || Turned(s, s'))
  {
    if s.rcv.pc.RInit? || s.rcv.pc.RRecv? {
      MessageThere(c, s);
      TakingWork(c, s, miss);
    } else {
      PollingWork(c, s, miss);
      if Turned(s, Receiver(c, s, miss)) {
        TurnedWork(s, Receiver(c, s, miss));
      }
    }
  }

  lemma StepWork(c: Config, s: State, e: Event)
    requires c.Valid() && Stopped(c, s)
    ensures var s' := Step(c, s, e); Work(s') <= Work(s) && (!Prompt(e) || Work(s') < Work(s) || Turned(s, s'))
  {
    match e
    case SenderStep(draw, stop) => SenderWork(c, s, draw, stop);
    case ReceiverStep(miss) => ReceiverWork(c, s, miss);
    case EngineStep(i) =>
    case SyncEventStep =>
  }

  lemma StepStopped(c: Config, s: State, e: Event)
    requires c.Valid() && Stopped(c, s)
    ensures Stopped(c, Step(c, s, e)) && (s.snd.pc == SDone ==> Step(c, s, e).snd.pc == SDone)
  {
    StepKeepsControl(c, s, e);
    if e.ReceiverStep? {
      ReceiverFrame(c, s, e.miss);
    }
  }

  // ----- who moves next ----------------------------------------------------------------------------

  datatype Party = TheSender | TheReceiver | TheEngine | TheSyncEvent

  predicate By(e: Event, p: Party) {
    match p
    case TheSender => e.SenderStep?
    case TheReceiver => e.ReceiverStep?
    case TheEngine => e == EngineStep(0)
    case TheSyncEvent => e.SyncEventStep?
  }

  function Mover(s: State): Party {
    if s.dma.submitted != [] then TheEngine
    else if s.se.pending > 0 then TheSyncEvent
    else if s.rcv.pc == RDone then TheSender
    else TheReceiver
  }

  /** Prompt steps of the mover that may still pass without progress. */
  function Delay(s: State): nat {
    if Mover(s) == TheReceiver && s.rcv.pc == RPoll && s.dma.finished == 0 then 1 else 0
  }

  lemma PollingMoves(c: Config, s: State)
    requires Stopped(c, s) && Mover(s) == TheReceiver && !s.rcv.pc.RInit? && !s.rcv.pc.RRecv?
    requires |s.net.log| <= s.se.counter + c.batch
    ensures var s' := Receiver(c, s, false); Work(s') < Work(s) || (Delay(s) == 1 && Delay(s') == 0)
  {
  }

  lemma ReceiverMoves(c: Config, s: State)
    requires Stopped(c, s) && Mover(s) == TheReceiver
    ensures var s' := Receiver(c, s, false); Work(s') < Work(s) || (Delay(s) == 1 && Delay(s') == 0)
  {
    WithinWindow(c, s);
    if s.rcv.pc.RInit? || s.rcv.pc.RRecv? {
      MessageThere(c, s);
      TakingWork(c, s, false);
    } else {
      PollingMoves(c, s);
    }
  }

  lemma MoverMoves(c: Config, s: State, e: Event)
    requires c.Valid() && Stopped(c, s) && s.snd.pc != SDone && Prompt(e) && By(e, Mover(s))
    ensures var s' := Step(c, s, e); Work(s') < Work(s) || (Delay(s) == 1 && Delay(s') == 0)
  {
    match Mover(s)
    case TheSender => SenderWork(c, s, e.draw, e.stop);
    case TheReceiver => ReceiverMoves(c, s);
    case TheEngine =>
    case TheSyncEvent =>
  }

  lemma SameMover(s: State, s': State)
    requires Turned(s, s')
    ensures Mover(s') == Mover(s) && Delay(s') <= Delay(s) && s'.snd == s.snd
  {
  }

  // ----- rounds ------------------------------------------------------------------------------------

  function RunFrom(c: Config, s: State, events: seq<Event>): State
    requires c.Valid()
    decreases events
  {
    if events == [] then s else RunFrom(c, Step(c, s, events[0]), events[1..])
  }

  function Count(events: seq<Event>, p: Party): nat {
    if events == [] then 0 else Count(events[1..], p) + if By(events[0], p) then 1 else 0
  }

  predicate AllPrompt(events: seq<Event>) { forall i :: 0 <= i < |events| ==> Prompt(events[i]) }

  /** Every party gets a turn, the receiver two, and no poll is unlucky. */
  predicate Fair(round: seq<Event>) {
    && AllPrompt(round)
    && Count(round, TheSender) >= 1 && Count(round, TheReceiver) >= 2
    && Count(round, TheEngine) >= 1 && Count(round, TheSyncEvent) >= 1
  }

  lemma {:induction false} WorkNeverGrows(c: Config, s: State, events: seq<Event>)
    requires c.Valid() && Stopped(c, s)
    ensures var s' := RunFrom(c, s, events);
            Stopped(c, s') && Work(s') <= Work(s) && (s.snd.pc == SDone ==> s'.snd.pc == SDone)
    decreases events
  {
    if events != [] {
      StepWork(c, s, events[0]);
      StepStopped(c, s, events[0]);
      WorkNeverGrows(c, Step(c, s, events[0]), events[1..]);
    }
  }

  lemma {:induction false} MoverGetsThere(c: Config, s: State, events: seq<Event>)
    requires c.Valid() && Stopped(c, s) && s.snd.pc != SDone && AllPrompt(events)
    requires Count(events, Mover(s)) > Delay(s)
    ensures Work(RunFrom(c, s, events)) < Work(s)
    decreases events
  {
    var e, rest := events[0], events[1..];
    var s' := Step(c, s, e);
    StepWork(c, s, e);
    StepStopped(c, s, e);
    if By(e, Mover(s)) {
      MoverMoves(c, s, e);
    }
    if Work(s') < Work(s) {
      WorkNeverGrows(c, s', rest);
    } else {
      SameMover(s, s');
      MoverGetsThere(c, s', rest);
    }
  }

  function RunRounds(c: Config, s: State, rounds: seq<seq<Event>>): State
    requires c.Valid()
    decreases rounds
  {
    if rounds == [] then s else RunRounds(c, RunFrom(c, s, rounds[0]), rounds[1..])
  }

  function FairRounds(rounds: seq<seq<Event>>): nat {
    if rounds == [] then 0 else FairRounds(rounds[1..]) + if Fair(rounds[0]) then 1 else 0
  }

  lemma WorkPositive(c: Config, s: State)
    requires Stopped(c, s) && s.snd.pc != SDone
    ensures Work(s) >= 2
  {
  }

  lemma {:induction false} FairFrom(c: Config, s: State, rounds: seq<seq<Event>>)
    requires c.Valid() && Stopped(c, s) && (s.snd.pc == SDone || FairRounds(rounds) + 1 >= Work(s))
    ensures RunRounds(c, s, rounds).snd.pc == SDone
    decreases rounds
  {
    if s.snd.pc != SDone {
      WorkPositive(c, s);
    }
    if rounds != [] {
      WorkNeverGrows(c, s, rounds[0]);
      if s.snd.pc != SDone && Fair(rounds[0]) {
        MoverGetsThere(c, s, rounds[0]);
      }
      FairFrom(c, RunFrom(c, s, rounds[0]), rounds[1..]);
    }
  }

  /** Once the sender has stopped, it receives the closing message under every schedule with
      enough fair rounds among its rounds, whatever happens in the others. */
  lemma FairFinishes(c: Config, events: seq<Event>, rounds: seq<seq<Event>>)
    requires c.Valid() && SenderClosed(Run(c, events).snd.pc)
    requires FairRounds(rounds) + 1 >= Work(Run(c, events))
    ensures RunRounds(c, Run(c, events), rounds).snd.pc == SDone
  {
    RunInv(c, events);
    FairFrom(c, Run(c, events), rounds);
  }

  // ----- every run can finish --------------------------------------------------------------------------

  function SenderRank(c: Config, pc: SenderPc): int {
    match pc
    case SInit(i) => c.batch - i + 3
    case SSend(left) => left + 3
    case _ => 2
  }

  lemma SenderStops(c: Config, s: State)
    requires c.Valid() && Control(c, s) && !SenderClosed(s.snd.pc)
    ensures var s' := Sender(c, s, 0, true);
            SenderClosed(s'.snd.pc) || 0 <= SenderRank(c, s'.snd.pc) < SenderRank(c, s.snd.pc)
  {
  }

  lemma {:induction false} CanStop(c: Config, events: seq<Event>) returns (more: seq<Event>)
    requires c.Valid()
    ensures SenderClosed(Run(c, more).snd.pc) && events <= more
    decreases SenderRank(c, Run(c, events).snd.pc)
  {
    more := events;
    RunInv(c, events);
    if !SenderClosed(Run(c, events).snd.pc) {
      SenderStops(c, Run(c, events));
      RunAppend(c, events, SenderStep(0, true));
      more := events + [SenderStep(0, true)];
      if !SenderClosed(Run(c, more).snd.pc) {
        more := CanStop(c, more);
      }
    }
  }

  lemma {:induction false} RunOn(c: Config, events: seq<Event>, more: seq<Event>)
    requires c.Valid()
    ensures Run(c, events + more) == RunFrom(c, Run(c, events), more)
    decreases more
  {
    if more == [] {
      assert events + more == events;
    } else {
      var first := events + [more[0]];
      assert events + more == first + more[1..];
      RunOn(c, first, more[1..]);
      RunAppend(c, events, more[0]);
    }
  }

  const ROUND := [EngineStep(0), SyncEventStep, ReceiverStep(false), ReceiverStep(false), SenderStep(0, true)]

  lemma RoundIsFair()
    ensures Fair(ROUND)
  {
    var r1, r2, r3, r4 := ROUND[1..], ROUND[2..], ROUND[3..], ROUND[4..];
    assert r1[1..] == r2 && r2[1..] == r3 && r3[1..] == r4 && r4[1..] == [];
    forall p ensures Count(ROUND, p) >= if p == TheReceiver then 2 else 1 {
      assert Count(r4, p) == (if p == TheSender then 1 else 0) + Count([], p);
      assert Count(r3, p) == Count(r4, p) + if p == TheReceiver then 1 else 0;
      assert Count(r2, p) == Count(r3, p) + if p == TheReceiver then 1 else 0;
      assert Count(r1, p) == Count(r2, p) + if p == TheSyncEvent then 1 else 0;
    }
  }

  lemma {:induction false} FinishStopped(c: Config, events: seq<Event>) returns (more: seq<Event>)
    requires c.Valid() && SenderClosed(Run(c, events).snd.pc)
    ensures Run(c, more).snd.pc == SDone && events <= more
    decreases Work(Run(c, events))
  {
    var s := Run(c, events);
    more := events;
    if s.snd.pc != SDone {
      RunInv(c, events);
      WorkPositive(c, s);
      RoundIsFair();
      MoverGetsThere(c, s, ROUND);
      WorkNeverGrows(c, s, ROUND);
      RunOn(c, events, ROUND);
      more := FinishStopped(c, events + ROUND);
    }
  }

  /** No interleaving can paint the protocol into a corner: every run, whatever it has done so
      far, extends to one in which the sender has received the closing message. */
  lemma CanAlwaysFinish(c: Config, events: seq<Event>) returns (more: seq<Event>)
    requires c.Valid()
    ensures Run(c, more).snd.pc == SDone && events <= more
  {
    var stopped := CanStop(c, events);
    more := FinishStopped(c, stopped);
  }
}
