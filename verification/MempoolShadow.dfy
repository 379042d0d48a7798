/** The mempool shadow: one registered memory map for each chunk of memory, and a lookup of the
    map that contains a given range. */
module MempoolShadow {
  import opened Bits
  import opened Common

  datatype Chunk = Chunk(begin: Word, len: Word)

  function End64(c: Chunk): Word { (c.begin + c.len) % U64 }

  /** The test of the lookup, in 64-bit arithmetic. */
  predicate Test(c: Chunk, start: Word, size: Word) {
    && c.begin <= start && start < End64(c)
    && size <= (End64(c) - start) % U64
  }

  /** The range, starting in the chunk, lies inside it. */
  predicate Contains(c: Chunk, start: Word, size: Word) {
    c.begin <= start < c.begin + c.len && start + size <= c.begin + c.len
  }

  ghost predicate TestExact(c: Chunk) {
    forall start: Word, size: Word :: Test(c, start, size) <==> Contains(c, start, size)
  }

  lemma TestIsContains(c: Chunk, start: Word, size: Word)
    requires c.begin + c.len < U64
    ensures Test(c, start, size) <==> Contains(c, start, size)
  {
    ResidueOf(c.begin + c.len, 0, c.begin + c.len, U64);
    if start < c.begin + c.len {
      ResidueOf(c.begin + c.len - start, 0, c.begin + c.len - start, U64);
    }
  }

  /** The test agrees with containment for every range if and only if the chunk ends below
      2^64: one that reaches the end of the address space is never found. */
  lemma TestExactIff(c: Chunk)
    ensures TestExact(c) <==> c.begin + c.len < U64
  {
    if c.begin + c.len < U64 {
      forall start: Word, size: Word ensures Test(c, start, size) <==> Contains(c, start, size) {
        TestIsContains(c, start, size);
      }
    } else {
      var over := c.begin + c.len - U64;
      ResidueOf(c.begin + c.len, 1, over, U64);
      assert !Test(c, c.begin, 0) && Contains(c, c.begin, 0);
    }
  }

  /** What registering a chunk comes to: a map may be refused, or created and then fail in one
      of three ways. */
  datatype Outcome = NoMap | Broken | Works

  /** The maps the library has handed out and not taken back. */
  class Registry {
    var live: set<nat>
    var next: nat

    constructor ()
      ensures live == {} && next == 0
    {
      live, next := {}, 0;
    }

    ghost predicate Valid()
      reads this
    {
      forall m :: m in live ==> m < next
    }
  }

  class Shadow {
    var maps: seq<(nat, Chunk)>

    constructor ()
      ensures maps == []
    {
      maps := [];
    }

    function Ids(): set<nat>
      reads this
    {
      set i | 0 <= i < |maps| :: maps[i].0
    }

    /** dpdk_ext_chunk_to_mmap */
    method Register(reg: Registry, c: Chunk, outcome: Outcome) returns (ok: bool)
      requires reg.Valid() && Ids() <= reg.live
      modifies this, reg
      ensures reg.Valid() && (ok <==> outcome == Works)
      ensures Ids() <= reg.live && reg.live - Ids() == old(reg.live - Ids())
      ensures |maps| == |old(maps)| + (if ok then 1 else 0) && maps[..|old(maps)|] == old(maps)
      ensures ok ==> maps[|old(maps)|].1 == c
    {
      if outcome == NoMap {
        return false;
      }
      var m := reg.next;
      reg.live, reg.next := reg.live + {m}, m + 1;
      if outcome == Broken {
        reg.live := reg.live - {m};
        return false;
      }
      ghost var before := maps;
      maps := maps + [(m, c)];
      assert Ids() == old(Ids()) + {m} by {
        assert maps[|before|].0 == m;
        assert forall i :: 0 <= i < |before| ==> maps[i].0 == before[i].0;
      }
      return true;
    }

    /** dpdk_mempool_shadow_destroy */
    method Destroy(reg: Registry)
      requires reg.Valid()
      modifies reg
      ensures reg.Valid() && reg.live == old(reg.live) - Ids()
    {
      for i := 0 to |maps|
        invariant reg.live == old(reg.live) - set j | 0 <= j < i :: maps[j].0
        invariant reg.next == old(reg.next)
      {
        reg.live := reg.live - {maps[i].0};
      }
    }

    /** The first chunk whose test succeeds, if any. */
    method Find(start: Word, size: Word) returns (found: Option<nat>)
      ensures found.Some? ==> found.value < |maps| && Test(maps[found.value].1, start, size)
      ensures found.Some? ==> forall i :: 0 <= i < found.value ==> !Test(maps[i].1, start, size)
      ensures found == None ==> forall i :: 0 <= i < |maps| ==> !Test(maps[i].1, start, size)
    {
      for i := 0 to |maps|
        invariant forall j :: 0 <= j < i ==> !Test(maps[j].1, start, size)
      {
        if Test(maps[i].1, start, size) {
          return Some(i);
        }
      }
      return None;
    }
  }

  /** dpdk_mempool_shadow_create_extbuf: it succeeds exactly when both allocations and all
      registrations do; otherwise no map is left behind. */
  method Create(reg: Registry, chunks: seq<Chunk>, outcomes: seq<Outcome>, memory: bool, moreMemory: bool)
    returns (s: Shadow?)
    requires reg.Valid() && |outcomes| == |chunks|
    modifies reg
    ensures reg.Valid()
    ensures s != null <==> memory && moreMemory && forall i :: 0 <= i < |chunks| ==> outcomes[i] == Works
    ensures s == null ==> reg.live == old(reg.live)
    ensures s != null ==>
              && fresh(s) && |s.maps| == |chunks| && (forall i :: 0 <= i < |chunks| ==> s.maps[i].1 == chunks[i])
              && s.Ids() <= reg.live && reg.live - s.Ids() == old(reg.live)
  {
    if !memory {
      return null;
    }
    var shadow := new Shadow();
    if !moreMemory {
      shadow.Destroy(reg);
      return null;
    }
    for i := 0 to |chunks|
      invariant fresh(shadow) && reg.Valid() && |shadow.maps| == i
      invariant forall j :: 0 <= j < i ==> shadow.maps[j].1 == chunks[j] && outcomes[j] == Works
      invariant shadow.Ids() <= reg.live && reg.live - shadow.Ids() == old(reg.live)
    {
      ghost var before := shadow.maps;
      var ok := shadow.Register(reg, chunks[i], outcomes[i]);
      if !ok {
        shadow.Destroy(reg);
        return null;
      }
      assert forall j :: 0 <= j < i ==> shadow.maps[j] == shadow.maps[..i][j] == before[j];
    }
    return shadow;
  }

  /** With chunks that end below 2^64, a lookup finds the first chunk that contains the range,
      and finds none if and only if none does. */
  method Lookup(s: Shadow, start: Word, size: Word) returns (found: Option<nat>)
    requires forall i :: 0 <= i < |s.maps| ==> s.maps[i].1.begin + s.maps[i].1.len < U64
    ensures found.Some? <==> exists i :: 0 <= i < |s.maps| && Contains(s.maps[i].1, start, size)
    ensures found.Some? ==>
              && found.value < |s.maps| && Contains(s.maps[found.value].1, start, size)
              && forall i :: 0 <= i < found.value ==> !Contains(s.maps[i].1, start, size)
  {
    found := s.Find(start, size);
    forall i | 0 <= i < |s.maps| ensures Test(s.maps[i].1, start, size) <==> Contains(s.maps[i].1, start, size) {
      TestIsContains(s.maps[i].1, start, size);
    }
  }
}
