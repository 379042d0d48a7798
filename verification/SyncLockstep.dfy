/** The sync-event ping-pong: two parties, each polling the event the other publishes and
    publishing its own in four updates (add, add, set, set) per round, up to a limit. Every
    fetch, every update and the final bump of the local index is a separate step. */
module SyncLockstep {
  import opened Common

  /** AtFetch: about to read the other event. AtTest(v): about to test the value read.
      AtAdd1 .. AtSet4: about to make that update. AtBump: all four are published, the local
      index is still the old one. */
  datatype Pc = AtFetch | AtTest(v: nat) | AtAdd1 | AtAdd2 | AtSet3 | AtSet4 | AtBump | Done

  datatype Party = Party(pc: Pc, wait: nat)

  /** `pub` is the event the sender publishes, `sub` the one the receiver publishes. */
  datatype State = State(snd: Party, rcv: Party, pub: nat, sub: nat)

  const START := State(Party(AtFetch, 0), Party(AtFetch, 0), 0, 0)

  function SenderTest(limit: nat, wait: nat, v: nat): Pc {
    if v == wait then (if wait == limit then Done else AtAdd1) else AtFetch
  }

  function ReceiverTest(limit: nat, wait: nat, v: nat): Pc {
    if wait == limit then Done else if v == wait + 4 then AtAdd1 else AtFetch
  }

  /** One step of a party: its own variables, and the event it publishes. */
  function Local(p: Party, other: nat, test: Pc): Party {
    match p.pc
    case AtFetch => p.(pc := AtTest(other))
    case AtTest(v) => p.(pc := test)
    case AtAdd1 => p.(pc := AtAdd2)
    case AtAdd2 => p.(pc := AtSet3)
    case AtSet3 => p.(pc := AtSet4)
    case AtSet4 => p.(pc := AtBump)
    case AtBump => Party(AtFetch, p.wait + 4)
    case Done => p
  }

  function Publish(p: Party, event: nat): nat {
    match p.pc
    case AtAdd1 => event + 1
    case AtAdd2 => event + 1
    case AtSet3 => p.wait + 3
    case AtSet4 => p.wait + 4
    case _ => event
  }

  function Step(limit: nat, s: State, sender: bool): State {
    if sender then
      var t := if s.snd.pc.AtTest? then SenderTest(limit, s.snd.wait, s.snd.pc.v) else Done;
      s.(snd := Local(s.snd, s.sub, t), pub := Publish(s.snd, s.pub))
    else
      var t := if s.rcv.pc.AtTest? then ReceiverTest(limit, s.rcv.wait, s.rcv.pc.v) else Done;
      s.(rcv := Local(s.rcv, s.pub, t), sub := Publish(s.rcv, s.sub))
  }

  /** Run a schedule from a state, first turn first. */
  function RunFrom(limit: nat, s: State, turns: seq<bool>): State
    decreases |turns|
  {
    if turns == [] then s else RunFrom(limit, Step(limit, s, turns[0]), turns[1..])
  }

  function Run(limit: nat, turns: seq<bool>): State {
    RunFrom(limit, START, turns)
  }

  // ----- invariant ------------------------------------------------------------------------

  /** How far into the current round a party has published. */
  function Progress(pc: Pc): nat {
    match pc
    case AtAdd2 => 1
    case AtSet3 => 2
    case AtSet4 => 3
    case AtBump => 4
    case _ => 0
  }

  predicate Publishing(pc: Pc) {
    pc.AtAdd1? || pc.AtAdd2? || pc.AtSet3? || pc.AtSet4?
  }

  /** The index as published: the bump already counted. */
  function Index(p: Party): nat {
    if p.pc.AtBump? then p.wait + 4 else p.wait
  }

  predicate Inv(limit: nat, s: State) {
    && s.pub == s.snd.wait + Progress(s.snd.pc)
    && s.sub == s.rcv.wait + Progress(s.rcv.pc)
    && s.snd.wait % 4 == 0 && s.rcv.wait % 4 == 0
    && (Index(s.snd) == Index(s.rcv) || Index(s.snd) == Index(s.rcv) + 4)
    && (Publishing(s.snd.pc) ==> Index(s.snd) == Index(s.rcv) && s.snd.wait != limit)
    && (Publishing(s.rcv.pc) ==> Index(s.snd) == Index(s.rcv) + 4 && s.rcv.wait != limit)
    && (s.snd.pc.AtTest? ==> s.snd.pc.v <= s.sub)
    && (s.rcv.pc.AtTest? ==> s.rcv.pc.v <= s.pub)
    && (s.snd.pc.Done? ==> s.snd.wait == limit && Index(s.rcv) == limit)
    && (s.rcv.pc.Done? ==> s.rcv.wait == limit)
    && (limit % 4 == 0 ==> Index(s.snd) <= limit)
  }

  lemma SenderKeepsInv(limit: nat, s: State)
    requires Inv(limit, s)
    ensures Inv(limit, Step(limit, s, true))
  {
  }

  lemma ReceiverKeepsInv(limit: nat, s: State)
    requires Inv(limit, s)
    ensures Inv(limit, Step(limit, s, false))
  {
  }

  lemma StepKeepsInv(limit: nat, s: State, sender: bool)
    requires Inv(limit, s)
    ensures Inv(limit, Step(limit, s, sender))
  {
    if sender {
      SenderKeepsInv(limit, s);
    } else {
      ReceiverKeepsInv(limit, s);
    }
  }

  lemma {:induction false} RunFromInv(limit: nat, s: State, turns: seq<bool>)
    requires Inv(limit, s)
    ensures Inv(limit, RunFrom(limit, s, turns))
    decreases |turns|
  {
    if turns != [] {
      StepKeepsInv(limit, s, turns[0]);
      RunFromInv(limit, Step(limit, s, turns[0]), turns[1..]);
    }
  }

  // ----- lockstep ---------------------------------------------------------------------------

  /** In every interleaving the published indices are equal or the sender's is exactly 4
      ahead; at most one party is publishing; each event stays within 4 of the other. */
  lemma Lockstep(limit: nat, turns: seq<bool>)
    ensures var s := Run(limit, turns);
            && (Index(s.snd) == Index(s.rcv) || Index(s.snd) == Index(s.rcv) + 4)
            && !(Publishing(s.snd.pc) && Publishing(s.rcv.pc))
            && s.sub <= s.pub <= s.sub + 4
  {
    RunFromInv(limit, START, turns);
  }

  /** The local indices themselves are in lockstep except in two windows: a party has published
      but not yet bumped, and the other has already gone on. */
  lemma LocalLockstepIff(limit: nat, turns: seq<bool>)
    ensures var s := Run(limit, turns);
            (s.snd.wait == s.rcv.wait || s.snd.wait == s.rcv.wait + 4)
            <==> !(s.snd.pc.AtBump? && !s.rcv.pc.AtBump? && s.pub == s.sub)
                 && !(s.rcv.pc.AtBump? && !s.snd.pc.AtBump? && s.pub == s.sub + 4)
  {
    RunFromInv(limit, START, turns);
  }

  lemma {:induction false} RunConcat(limit: nat, s: State, a: seq<bool>, b: seq<bool>)
    ensures RunFrom(limit, s, a + b) == RunFrom(limit, RunFrom(limit, s, a), b)
    decreases |a|
  {
    if a == [] {
      assert a + b == b;
    } else {
      assert (a + b)[1..] == a[1..] + b;
      RunConcat(limit, Step(limit, s, a[0]), a[1..], b);
    }
  }

  lemma OneTurn(limit: nat, s: State, sender: bool, n: nat)
    ensures RunFrom(limit, s, Repeat(sender, n + 1)) ==
            RunFrom(limit, Step(limit, s, sender), Repeat(sender, n))
  {
    assert Repeat(sender, n + 1)[1..] == Repeat(sender, n);
  }

  /** Six turns: fetch, test, four updates. */
  lemma SixTurns(limit: nat, s: State, sender: bool)
    ensures RunFrom(limit, s, Repeat(sender, 6)) ==
            Step(limit, Step(limit, Step(limit, Step(limit, Step(limit, Step(limit, s,
              sender), sender), sender), sender), sender), sender)
  {
    var s1 := Step(limit, s, sender);
    var s2 := Step(limit, s1, sender);
    var s3 := Step(limit, s2, sender);
    var s4 := Step(limit, s3, sender);
    var s5 := Step(limit, s4, sender);
    OneTurn(limit, s, sender, 5);
    OneTurn(limit, s1, sender, 4);
    OneTurn(limit, s2, sender, 3);
    OneTurn(limit, s3, sender, 2);
    OneTurn(limit, s4, sender, 1);
    OneTurn(limit, s5, sender, 0);
  }

  /** Both windows occur, for every limit beyond the first rounds: the sender's local index can
      be 4 behind the receiver's, and 8 ahead of it. */
  lemma LocalIndicesDrift(limit: nat)
    requires limit >= 8
    ensures var s := Run(limit, Repeat(true, 6) + (Repeat(false, 6) + [false]));
            s.snd.wait == 0 && s.rcv.wait == 4
    ensures var s := Run(limit, Repeat(true, 6) + ([true] + (Repeat(false, 6) + (Repeat(true, 6) + [true]))));
            s.snd.wait == 8 && s.rcv.wait == 0
  {
    SixTurns(limit, START, true);
    var a := RunFrom(limit, START, Repeat(true, 6));
    assert a == State(Party(AtBump, 0), Party(AtFetch, 0), 4, 0);
    // the receiver overtakes
    RunConcat(limit, START, Repeat(true, 6), Repeat(false, 6) + [false]);
    RunConcat(limit, a, Repeat(false, 6), [false]);
    SixTurns(limit, a, false);
    var b := RunFrom(limit, a, Repeat(false, 6));
    assert b == State(Party(AtBump, 0), Party(AtBump, 0), 4, 4);
    // the sender runs ahead
    var c := Step(limit, a, true);
    RunConcat(limit, START, Repeat(true, 6), [true] + (Repeat(false, 6) + (Repeat(true, 6) + [true])));
    RunConcat(limit, a, [true], Repeat(false, 6) + (Repeat(true, 6) + [true]));
    RunConcat(limit, c, Repeat(false, 6), Repeat(true, 6) + [true]);
    SixTurns(limit, c, false);
    var d := RunFrom(limit, c, Repeat(false, 6));
    assert d == State(Party(AtFetch, 4), Party(AtBump, 0), 4, 4);
    RunConcat(limit, d, Repeat(true, 6), [true]);
    SixTurns(limit, d, true);
    var e := RunFrom(limit, d, Repeat(true, 6));
    assert e == State(Party(AtBump, 4), Party(AtBump, 0), 8, 4);
  }

  /** Neither event ever decreases: every step leaves it or raises it by exactly 1, so the
      other party can see every value. */
  lemma EventsCountUp(limit: nat, turns: seq<bool>, sender: bool)
    ensures var s := Run(limit, turns);
            var s' := Step(limit, s, sender);
            && s.pub <= s'.pub <= s.pub + 1 && s.sub <= s'.sub <= s.sub + 1
            && (s'.pub == s.pub || s'.sub == s.sub)
  {
    RunFromInv(limit, START, turns);
  }

  // ----- termination -------------------------------------------------------------------------

  predicate BothDone(s: State) {
    s.snd.pc.Done? && s.rcv.pc.Done?
  }

  function Stage(pc: Pc): nat {
    match pc
    case AtFetch => 0
    case AtTest(_) => 0
    case AtAdd1 => 1
    case AtAdd2 => 2
    case AtSet3 => 3
    case AtSet4 => 4
    case AtBump => 5
    case Done => 1
  }

  /** Productive steps a party has made: six per round, and one to leave the loop. */
  function Made(p: Party): nat {
    6 * (p.wait / 4) + Stage(p.pc)
  }

  function Work(s: State): nat {
    Made(s.snd) + Made(s.rcv)
  }

  function Total(limit: nat): nat {
    12 * (limit / 4) + 2
  }

  lemma WorkBounded(limit: nat, s: State)
    requires Inv(limit, s) && limit % 4 == 0
    ensures Work(s) <= Total(limit)
    ensures Work(s) == Total(limit) <==> BothDone(s)
  {
  }

  /** What the party waits for already holds, or it waits for nothing. */
  predicate Ready(limit: nat, s: State, sender: bool) {
    if sender then
      !s.snd.pc.Done? && (s.snd.pc.AtFetch? || s.snd.pc.AtTest? ==> s.sub == s.snd.wait)
    else
      !s.rcv.pc.Done? && (s.rcv.pc.AtFetch? || s.rcv.pc.AtTest? ==>
                            s.rcv.wait == limit || s.pub == s.rcv.wait + 4)
  }

  /** Some party can always move. */
  lemma SomePartyReady(limit: nat, s: State)
    requires Inv(limit, s) && limit % 4 == 0 && !BothDone(s)
    ensures Ready(limit, s, true) || Ready(limit, s, false)
  {
  }

  /** Turns a ready party needs at most until its next productive step. */
  function Distance(s: State, sender: bool): nat {
    var p, other := if sender then s.snd else s.rcv, if sender then s.sub else s.pub;
    match p.pc
    case AtFetch => 2
    case AtTest(v) => if v == other then 1 else 3
    case _ => 1
  }

  lemma BumpMade(p: Party)
    ensures p.pc.AtBump? ==> Made(Party(AtFetch, p.wait + 4)) == Made(p) + 1
  {
    assert (p.wait + 4) / 4 == p.wait / 4 + 1;
  }

  lemma SenderTurn(limit: nat, s: State)
    requires Inv(limit, s)
    ensures var s' := Step(limit, s, true);
            && (Work(s') == Work(s) || Work(s') == Work(s) + 1)
            && (Work(s') == Work(s) && Ready(limit, s, true) ==>
                  Ready(limit, s', true) && Distance(s', true) < Distance(s, true))
            && (Work(s') == Work(s) && Ready(limit, s, false) ==>
                  Ready(limit, s', false) && Distance(s', false) == Distance(s, false))
  {
    BumpMade(s.snd);
  }

  lemma ReceiverTurn(limit: nat, s: State)
    requires Inv(limit, s)
    ensures var s' := Step(limit, s, false);
            && (Work(s') == Work(s) || Work(s') == Work(s) + 1)
            && (Work(s') == Work(s) && Ready(limit, s, false) ==>
                  Ready(limit, s', false) && Distance(s', false) < Distance(s, false))
            && (Work(s') == Work(s) && Ready(limit, s, true) ==>
                  Ready(limit, s', true) && Distance(s', true) == Distance(s, true))
  {
    BumpMade(s.rcv);
  }

  function Count(turns: seq<bool>, sender: bool): nat {
    if turns == [] then 0 else (if turns[0] == sender then 1 else 0) + Count(turns[1..], sender)
  }

  lemma {:induction false} WorkMonotone(limit: nat, s: State, turns: seq<bool>)
    requires Inv(limit, s)
    ensures Work(s) <= Work(RunFrom(limit, s, turns))
    decreases |turns|
  {
    if turns != [] {
      StepKeepsInv(limit, s, turns[0]);
      if turns[0] {
        SenderTurn(limit, s);
      } else {
        ReceiverTurn(limit, s);
      }
      WorkMonotone(limit, Step(limit, s, turns[0]), turns[1..]);
    }
  }

  /** A turn makes progress, or brings a ready party closer to it and leaves it ready. */
  predicate Nearer(limit: nat, s: State, s': State, sender: bool, mine: bool) {
    || Work(s') > Work(s)
    || (Work(s') == Work(s) && Ready(limit, s', sender)
        && Distance(s', sender) <= Distance(s, sender) - if mine then 1 else 0)
  }

  lemma TurnWorks(limit: nat, s: State, turn: bool, sender: bool)
    requires Inv(limit, s) && Ready(limit, s, sender)
    ensures Nearer(limit, s, Step(limit, s, turn), sender, turn == sender)
  {
    if turn {
      SenderTurn(limit, s);
    } else {
      ReceiverTurn(limit, s);
    }
  }

  lemma {:induction false} SegmentWorks(limit: nat, s: State, turns: seq<bool>, sender: bool)
    requires Inv(limit, s) && Ready(limit, s, sender) && Count(turns, sender) >= Distance(s, sender)
    ensures Work(RunFrom(limit, s, turns)) > Work(s)
    decreases |turns|
  {
    var s' := Step(limit, s, turns[0]);
    StepKeepsInv(limit, s, turns[0]);
    TurnWorks(limit, s, turns[0], sender);
    if Work(s') > Work(s) {
      WorkMonotone(limit, s', turns[1..]);
    } else {
      SegmentWorks(limit, s', turns[1..], sender);
    }
  }

  /** A round of a fair schedule: either party gets at least three turns. */
  predicate FairRound(turns: seq<bool>) {
    Count(turns, true) >= 3 && Count(turns, false) >= 3
  }

  function RunRounds(limit: nat, s: State, rounds: seq<seq<bool>>): State
    decreases |rounds|
  {
    if rounds == [] then s else RunRounds(limit, RunFrom(limit, s, rounds[0]), rounds[1..])
  }

  lemma RoundWorks(limit: nat, s: State, turns: seq<bool>)
    requires Inv(limit, s) && limit % 4 == 0 && FairRound(turns) && !BothDone(s)
    ensures Work(RunFrom(limit, s, turns)) > Work(s)
  {
    SomePartyReady(limit, s);
    if Ready(limit, s, true) {
      SegmentWorks(limit, s, turns, true);
    } else {
      SegmentWorks(limit, s, turns, false);
    }
  }

  lemma {:induction false} RoundsFinish(limit: nat, s: State, rounds: seq<seq<bool>>)
    requires Inv(limit, s) && limit % 4 == 0
    requires forall i :: 0 <= i < |rounds| ==> FairRound(rounds[i])
    requires Work(s) + |rounds| >= Total(limit)
    ensures BothDone(RunRounds(limit, s, rounds))
    decreases |rounds|
  {
    WorkBounded(limit, s);
    if rounds != [] {
      var s' := RunFrom(limit, s, rounds[0]);
      RunFromInv(limit, s, rounds[0]);
      WorkMonotone(limit, s, rounds[0]);
      if !BothDone(s) {
        RoundWorks(limit, s, rounds[0]);
      }
      WorkBounded(limit, s');
      RoundsFinish(limit, s', rounds[1..]);
    }
  }

  lemma {:induction false} RoundsInv(limit: nat, s: State, rounds: seq<seq<bool>>)
    requires Inv(limit, s)
    ensures Inv(limit, RunRounds(limit, s, rounds))
    decreases |rounds|
  {
    if rounds != [] {
      RunFromInv(limit, s, rounds[0]);
      RoundsInv(limit, RunFrom(limit, s, rounds[0]), rounds[1..]);
    }
  }

  /** Under every fair schedule both loops are left within 12 * (limit / 4) + 2 rounds if and
      only if the limit is a multiple of 4; otherwise neither loop is ever left. */
  lemma TerminatesIffMultipleOfFour(limit: nat, rounds: seq<seq<bool>>)
    requires forall i :: 0 <= i < |rounds| ==> FairRound(rounds[i])
    requires |rounds| >= Total(limit)
    ensures BothDone(RunRounds(limit, START, rounds)) <==> limit % 4 == 0
    ensures limit % 4 != 0 ==>
      !RunRounds(limit, START, rounds).snd.pc.Done? && !RunRounds(limit, START, rounds).rcv.pc.Done?
  {
    if limit % 4 == 0 {
      RoundsFinish(limit, START, rounds);
    } else {
      RoundsInv(limit, START, rounds);
    }
  }
}
