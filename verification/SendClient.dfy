/** The SmallBank client as a user of its send queue: a ping, then CONCURRENCY requests at once,
    then one request for every reply. The client never looks at the send queue's completions; a
    reply is its only sign that a work queue entry (WQE) has been fetched. */
module SendClient {
  import opened SendQueue

  const CONCURRENCY := 64

  /** `trace` is what happened at the send queue. `replies` counts the packets taken from the
      receive queue; the current handler has `left` posts to make and `owed` to announce. */
  datatype Client = Client(trace: seq<Event>, replies: nat, left: nat, owed: nat)

  datatype Action = Fetching | TakeReply | PostNext(f: Frame) | Announce

  /** The server answers a request only after the hardware has fetched and sent it, so the
      replies taken never outnumber the WQEs fetched. */
  function Act(g: Ring, c: Client, a: Action): Client
    requires g.depth > 0
  {
    match a
    case Fetching => c.(trace := c.trace + [Hardware])
    case TakeReply =>
      if c.left == 0 && c.owed == 0 && c.replies < Run(g, c.trace).fetched
      then c.(replies := c.replies + 1, left := if c.replies == 0 then CONCURRENCY else 1) else c
    case PostNext(f) =>
      if c.left > 0 then c.(trace := c.trace + [Post(f)], left := c.left - 1, owed := c.owed + 1) else c
    case Announce =>
      if c.left == 0 && c.owed > 0 then c.(trace := c.trace + [Doorbell(c.owed)], owed := 0) else c
  }

  function After(g: Ring, actions: seq<Action>): Client
    requires g.depth > 0
  {
    if actions == [] then Client([], 0, 1, 0)
    else Act(g, After(g, actions[..|actions| - 1]), actions[|actions| - 1])
  }

  /** Posts made and still to make: the ping, the burst, one for every later reply. */
  function Wanted(replies: nat): nat {
    if replies == 0 then 1 else CONCURRENCY + replies
  }

  /** Posts announced: all that were wanted before the current handler, and its own once it is done. */
  function Announced(c: Client): nat {
    if c.left == 0 && c.owed == 0 then Wanted(c.replies) else if c.replies == 0 then 0 else Wanted(c.replies - 1)
  }

  ghost predicate Inv(g: Ring, c: Client)
    requires g.depth > 0
  {
    var s := Run(g, c.trace);
    && Disciplined(g, c.trace)
    && |s.frames| + c.left == Wanted(c.replies) && s.rung + c.owed == |s.frames|
    && c.replies <= s.fetched && s.rung == Announced(c)
  }

  lemma FetchFrame(g: Ring, s: State)
    requires Shape(g, s)
    ensures var s' := Fetch(g, s); s'.frames == s.frames && s'.rung == s.rung && s'.fetched >= s.fetched
  {
  }

  lemma ActKeepsInv(g: Ring, c: Client, a: Action)
    requires g.Valid() && g.depth >= CONCURRENCY && Inv(g, c)
    ensures Inv(g, Act(g, c, a))
  {
    SentInOrder(g, c.trace);
    match a
    case Fetching =>
      RunAppend(g, c.trace, Hardware);
      FetchFrame(g, Run(g, c.trace));
    case TakeReply =>
    case PostNext(f) => RunAppend(g, c.trace, Post(f));
    case Announce => RunAppend(g, c.trace, Doorbell(c.owed));
  }

  lemma {:induction false} AfterInv(g: Ring, actions: seq<Action>)
    requires g.Valid() && g.depth >= CONCURRENCY
    ensures Inv(g, After(g, actions))
  {
    if actions != [] {
      AfterInv(g, actions[..|actions| - 1]);
      ActKeepsInv(g, After(g, actions[..|actions| - 1]), actions[|actions| - 1]);
    }
  }

  lemma AfterAppend(g: Ring, actions: seq<Action>, a: Action)
    requires g.depth > 0
    ensures After(g, actions + [a]) == Act(g, After(g, actions), a)
  {
    assert (actions + [a])[..|actions|] == actions;
  }

  // ----- a ring that is too small --------------------------------------------------------------------

  /** The ping has been answered and k requests of the burst are posted. */
  ghost predicate InBurst(g: Ring, c: Client, k: nat)
    requires g.depth > 0
  {
    var s := Run(g, c.trace);
    c.replies == 1 && c.left + k == CONCURRENCY && |s.frames| == k + 1 && s.fetched == 1
  }

  /** The ping is posted, announced (pi == 1) or not, and not yet fetched. */
  ghost predicate PingPosted(g: Ring, c: Client, pi: nat)
    requires g.depth > 0
  {
    var s := Run(g, c.trace);
    && c.replies == 0 && c.left == 0 && c.owed + pi == 1
    && |s.frames| == 1 && s.pi == pi && s.fetched == 0
  }

  lemma PrepareFrame(g: Ring, s: State, f: Frame)
    requires Shape(g, s)
    ensures var s' := Prepare(g, s, f); s'.frames == s.frames + [f] && s'.pi == s.pi && s'.fetched == s.fetched
  {
  }

  lemma PostPing(g: Ring, c: Client, f: Frame)
    requires g.Valid() && c.replies == 0 && c.left == 1 && c.owed == 0 && Run(g, c.trace) == Init(g)
    ensures PingPosted(g, Act(g, c, PostNext(f)), 0)
  {
    RunAppend(g, c.trace, Post(f));
    PrepareFrame(g, Init(g), f);
  }

  lemma AnnouncePing(g: Ring, c: Client)
    requires g.Valid() && PingPosted(g, c, 0)
    ensures PingPosted(g, Act(g, c, Announce), 1)
  {
    RunAppend(g, c.trace, Doorbell(c.owed));
  }

  lemma AnswerPing(g: Ring, c: Client)
    requires g.Valid() && PingPosted(g, c, 1)
    ensures InBurst(g, Act(g, Act(g, c, Fetching), TakeReply), 0)
  {
    RunAppend(g, c.trace, Hardware);
  }

  lemma Pinged(g: Ring, f: Frame, none: seq<Action>) returns (actions: seq<Action>)
    requires g.Valid() && none == []
    ensures InBurst(g, After(g, actions), 0)
  {
    PostPing(g, After(g, none), f);
    AfterAppend(g, none, PostNext(f));
    var a1 := none + [PostNext(f)];
    AnnouncePing(g, After(g, a1));
    AfterAppend(g, a1, Announce);
    var a2 := a1 + [Announce];
    AnswerPing(g, After(g, a2));
    AfterAppend(g, a2, Fetching);
    var a3 := a2 + [Fetching];
    AfterAppend(g, a3, TakeReply);
    actions := a3 + [TakeReply];
  }

  lemma PostInBurst(g: Ring, c: Client, k: nat, f: Frame)
    requires g.Valid() && InBurst(g, c, k) && k < CONCURRENCY
    ensures var c' := Act(g, c, PostNext(f));
            InBurst(g, c', k + 1) && (k >= g.depth ==> !Disciplined(g, c'.trace))
  {
    RunAppend(g, c.trace, Post(f));
  }

  lemma {:induction false} Burst(g: Ring, k: nat, f: Frame) returns (actions: seq<Action>)
    requires g.Valid() && k <= CONCURRENCY
    ensures InBurst(g, After(g, actions), k)
    ensures k > g.depth ==> !Disciplined(g, After(g, actions).trace)
  {
    if k == 0 {
      actions := Pinged(g, f, []);
    } else {
      var before := Burst(g, k - 1, f);
      PostInBurst(g, After(g, before), k - 1, f);
      AfterAppend(g, before, PostNext(f));
      actions := before + [PostNext(f)];
    }
  }

  // ----- main results -----------------------------------------------------------------------------------

  ghost predicate AlwaysDisciplined(g: Ring)
    requires g.depth > 0
  {
    forall actions: seq<Action> :: Disciplined(g, After(g, actions).trace)
  }

  /** Replies are credit enough: the client finds room in the ring at every post of every run and
      announces prepared WQEs only, if and only if the ring holds CONCURRENCY WQEs. */
  lemma ClientDisciplinedIff(g: Ring)
    requires g.Valid()
    ensures AlwaysDisciplined(g) <==> g.depth >= CONCURRENCY
  {
    if g.depth >= CONCURRENCY {
      forall actions: seq<Action> ensures Disciplined(g, After(g, actions).trace) {
        AfterInv(g, actions);
      }
    } else {
      var actions := Burst(g, g.depth + 1, Frame(0, 0));
    }
  }

  /** With the ring of 2^7 entries of the benchmark, every request of every run is sent once, in
      order and as posted, at most CONCURRENCY of them wait in the ring, and the doorbell announces the
      requests of a handler together. */
  lemma ClientSendsInOrder(g: Ring, actions: seq<Action>)
    requires g.Valid() && g.depth >= CONCURRENCY
    ensures var s := Run(g, After(g, actions).trace);
            s.sent <= s.frames && |s.sent| == s.fetched && |s.frames| - s.fetched <= CONCURRENCY
    ensures Run(g, After(g, actions).trace).rung == Announced(After(g, actions))
  {
    AfterInv(g, actions);
    SentInOrder(g, After(g, actions).trace);
  }
}
