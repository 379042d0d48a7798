/** Alignment of the DMA copies: the random offset is rounded up to a cache line and then reduced,
    and the reduction can move it off the lines again. */
module DmaAlignment {
  import opened Bits
  import opened DmaChannel

  /** Draws up to `top`. */
  predicate DrawsUpTo(events: seq<Event>, top: nat) {
    forall i :: 0 <= i < |events| && events[i].SenderStep? ==> events[i].draw <= top
  }

  predicate Drawn(c: Config, d: Desc, draw: nat)
    requires c.Valid()
  {
    MmapOffset(c, d) == RandOffset(c, draw)
  }

  ghost predicate DrawnUpTo(c: Config, d: Desc, top: nat)
    requires c.Valid()
  {
    exists draw: nat :: draw <= top && Drawn(c, d, draw)
  }

  lemma SenderDraws(c: Config, s: State, draw: nat, stop: bool)
    requires c.Valid()
    ensures var log, log' := s.net.log, Sender(c, s, draw, stop).net.log;
            log' == log || (|log'| == |log| + 1 && log <= log' && Drawn(c, log'[|log|], draw))
  {
  }

  lemma {:induction false} RunDraws(c: Config, events: seq<Event>, top: nat)
    requires c.Valid() && DrawsUpTo(events, top)
    ensures forall k: nat :: k < |Run(c, events).net.log| ==> DrawnUpTo(c, Run(c, events).net.log[k], top)
  {
    if events != [] {
      var before, e := events[..|events| - 1], events[|events| - 1];
      assert DrawsUpTo(before, top);
      RunDraws(c, before, top);
      if e.SenderStep? {
        SenderDraws(c, Run(c, before), e.draw, e.stop);
      } else if e.ReceiverStep? {
        ReceiverFrame(c, Run(c, before), e.miss);
      }
    }
  }

  /** Every copy of every run with draws up to `top` starts at a cache line on the mmap side. */
  ghost predicate AlwaysAligned(c: Config, top: nat)
    requires c.Valid()
  {
    forall events: seq<Event>, k: nat :: DrawsUpTo(events, top) && k < |Run(c, events).net.log| ==>
      MmapOffset(c, Run(c, events).net.log[k]) % CACHE_LINE == 0
  }

  /** The reduction leaves every multiple of a line up to `last` a multiple. */
  predicate Harmless(m: nat, last: nat)
    requires m > 0
  {
    m % CACHE_LINE == 0 || CACHE_LINE % m == 0 || last <= m
  }

  lemma MultipleKeeps(m: nat, x: nat)
    requires m > 0 && m % CACHE_LINE == 0 && x % CACHE_LINE == 0
    ensures (x % m) % CACHE_LINE == 0
  {
    ResidueOfMultiple(x, CACHE_LINE, m / CACHE_LINE);
  }

  lemma DivisorKeeps(m: nat, x: nat)
    requires m > 0 && CACHE_LINE % m == 0 && x % CACHE_LINE == 0
    ensures (x % m) % CACHE_LINE == 0
  {
    var q, k := CACHE_LINE / m, x / CACHE_LINE;
    assert CACHE_LINE == q * m && x == CACHE_LINE * k;
    assert x == (k * q) * m;
    ResidueOf(x, k * q, 0, m);
  }

  lemma HarmlessKeeps(m: nat, last: nat, x: nat)
    requires m > 0 && Harmless(m, last) && x <= last && x % CACHE_LINE == 0
    ensures (x % m) % CACHE_LINE == 0
  {
    if m % CACHE_LINE == 0 {
      MultipleKeeps(m, x);
    } else if CACHE_LINE % m == 0 {
      DivisorKeeps(m, x);
    } else if x < m {
      ResidueOf(x, 0, x, m);
    } else {
      ResidueOf(x, 1, 0, m);
    }
  }

  /** Otherwise the first multiple of a line above m is moved off the lines. */
  lemma HarmfulMoves(m: nat, last: nat) returns (x: nat)
    requires m > 0 && !Harmless(m, last) && last % CACHE_LINE == 0
    ensures CACHE_LINE <= x <= last && x % CACHE_LINE == 0 && (x % m) % CACHE_LINE != 0
  {
    x := CACHE_LINE * (m / CACHE_LINE + 1);
    if m < CACHE_LINE {
      assert x == CACHE_LINE && 0 < CACHE_LINE % m < CACHE_LINE;
    } else {
      ResidueOf(x, 1, x - m, m);
      assert 0 < x - m < CACHE_LINE;
    }
    var q := last / CACHE_LINE;
    assert last == CACHE_LINE * q;
  }

  lemma AlignedInRun(c: Config, events: seq<Event>, k: nat, top: nat)
    requires c.Valid() && DrawsUpTo(events, top) && k < |Run(c, events).net.log|
    requires Harmless(c.Modulus(), RoundUp(top, CACHE_LINE))
    ensures MmapOffset(c, Run(c, events).net.log[k]) % CACHE_LINE == 0
  {
    RunDraws(c, events, top);
    var d := Run(c, events).net.log[k];
    assert DrawnUpTo(c, d, top);
    var draw: nat :| draw <= top && Drawn(c, d, draw);
    RoundUpIs(draw, CACHE_LINE);
    RoundUpIs(top, CACHE_LINE);
    HarmlessKeeps(c.Modulus(), RoundUp(top, CACHE_LINE), RoundUp(draw, CACHE_LINE));
  }

  lemma RoundsTo(x: nat)
    requires x >= CACHE_LINE && x % CACHE_LINE == 0
    ensures RoundUp(x - (CACHE_LINE - 1), CACHE_LINE) == x
  {
  }

  lemma FirstDescriptor(c: Config, draw: nat, none: seq<Event>)
    requires c.Valid() && c.batch > 0 && none == []
    ensures var log := Run(c, none + [SenderStep(draw, false)]).net.log; |log| == 1 && Drawn(c, log[0], draw)
  {
    RunAppend(c, none, SenderStep(draw, false));
    SenderDraws(c, START, draw, false);
  }

  lemma SomeMisaligned(c: Config, top: nat) returns (events: seq<Event>)
    requires c.Valid() && c.batch > 0 && !Harmless(c.Modulus(), RoundUp(top, CACHE_LINE))
    ensures DrawsUpTo(events, top)
    ensures var log := Run(c, events).net.log; |log| == 1 && MmapOffset(c, log[0]) % CACHE_LINE != 0
  {
    RoundUpIs(top, CACHE_LINE);
    var x := HarmfulMoves(c.Modulus(), RoundUp(top, CACHE_LINE));
    var draw := x - (CACHE_LINE - 1);
    RoundsTo(x);
    FirstDescriptor(c, draw, []);
    events := [] + [SenderStep(draw, false)];
  }

  /** Every copy of every run starts at a cache line on the mmap side if and only if nothing is sent,
      or the modulus of the reduction is a multiple or a divisor of a line, or so large that no draw
      is reduced. */
  lemma AlignedIff(c: Config, top: nat)
    requires c.Valid()
    ensures AlwaysAligned(c, top) <==> c.batch == 0 || Harmless(c.Modulus(), RoundUp(top, CACHE_LINE))
  {
    if c.batch == 0 || Harmless(c.Modulus(), RoundUp(top, CACHE_LINE)) {
      forall events: seq<Event>, k: nat | DrawsUpTo(events, top) && k < |Run(c, events).net.log|
        ensures MmapOffset(c, Run(c, events).net.log[k]) % CACHE_LINE == 0
      {
        if c.batch == 0 {
          CreditWindow(c, events);
        } else {
          AlignedInRun(c, events, k, top);
        }
      }
    } else {
      var events := SomeMisaligned(c, top);
      var log := Run(c, events).net.log;
      assert MmapOffset(c, log[0]) % CACHE_LINE != 0;
    }
  }

  /** With draws without a bound the last case falls away. */
  lemma AlignedForAllDrawsIff(c: Config)
    requires c.Valid()
    ensures (forall top: nat :: AlwaysAligned(c, top)) <==>
            c.batch == 0 || c.Modulus() % CACHE_LINE == 0 || CACHE_LINE % c.Modulus() == 0
  {
    forall top: nat ensures AlwaysAligned(c, top) <==> c.batch == 0 || Harmless(c.Modulus(), RoundUp(top, CACHE_LINE)) {
      AlignedIff(c, top);
    }
    var far := c.Modulus() + 1;
    RoundUpIs(far, CACHE_LINE);
    assert AlwaysAligned(c, far) <==> c.batch == 0 || Harmless(c.Modulus(), RoundUp(far, CACHE_LINE));
  }

  /** With the distribution of the benchmark, whose largest value is INT32_MAX. */
  lemma AlignedInBenchmarkIff(c: Config)
    requires c.Valid()
    ensures AlwaysAligned(c, LAST_DRAW) <==>
            || c.batch == 0 || c.Modulus() % CACHE_LINE == 0 || CACHE_LINE % c.Modulus() == 0
            || c.Modulus() > 0x8000_0000
  {
    AlignedIff(c, LAST_DRAW);
    assert RoundUp(LAST_DRAW, CACHE_LINE) == 0x8000_0000;
  }
}
