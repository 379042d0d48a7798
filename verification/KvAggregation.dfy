/** Key/value aggregation: every element of a packet is added to the table entry its key
    selects, directly or after being staged in a small array. */
module KvAggregation {
  import opened Bits

  const ENTRIES := 65536

  datatype Element = Element(key: nat, value: nat)

  /** The values of the elements that select entry b, added up without wrapping. */
  function SumFor(es: seq<Element>, b: nat): nat {
    if es == [] then 0
    else SumFor(es[..|es| - 1], b) + if es[|es| - 1].key % ENTRIES == b then es[|es| - 1].value else 0
  }

  lemma {:induction false} SumAppend(x: seq<Element>, y: seq<Element>, b: nat)
    ensures SumFor(x + y, b) == SumFor(x, b) + SumFor(y, b)
  {
    if y == [] {
      assert x + y == x;
    } else {
      var last := |y| - 1;
      assert (x + y)[..|x + y| - 1] == x + y[..last];
      SumAppend(x, y[..last], b);
    }
  }

  lemma {:induction false} SumWithout(es: seq<Element>, i: nat, b: nat)
    requires i < |es|
    ensures SumFor(es, b) == SumFor(es[..i] + es[i + 1..], b) + SumFor([es[i]], b)
  {
    assert es == es[..i] + ([es[i]] + es[i + 1..]);
    SumAppend(es[..i], [es[i]] + es[i + 1..], b);
    SumAppend([es[i]], es[i + 1..], b);
    SumAppend(es[..i], es[i + 1..], b);
  }

  lemma MultisetWithout(y: seq<Element>, i: nat)
    requires i < |y|
    ensures multiset(y[..i] + y[i + 1..]) == multiset(y) - multiset{y[i]}
  {
    assert y == y[..i] + [y[i]] + y[i + 1..];
  }

  lemma SameSize(x: seq<Element>, y: seq<Element>)
    requires multiset(x) == multiset(y)
    ensures |x| == |y|
  {
    assert |x| == |multiset(x)| && |y| == |multiset(y)|;
  }

  lemma SumFirst(x: seq<Element>, b: nat)
    requires x != []
    ensures SumFor(x, b) == SumFor([x[0]], b) + SumFor(x[1..], b)
  {
    assert x == [x[0]] + x[1..];
    SumAppend([x[0]], x[1..], b);
  }

  /** Taking the first element of x out of both. */
  lemma WithoutFirst(x: seq<Element>, y: seq<Element>, i: nat)
    requires multiset(x) == multiset(y) && x != [] && i < |y| && y[i] == x[0]
    ensures multiset(x[1..]) == multiset(y[..i] + y[i + 1..])
  {
    MultisetWithout(y, i);
    assert x == [x[0]] + x[1..];
  }

  lemma FindFirst(x: seq<Element>, y: seq<Element>) returns (i: nat)
    requires multiset(x) == multiset(y) && x != []
    ensures i < |y| && y[i] == x[0]
  {
    assert x[0] in multiset(x);
    i :| 0 <= i < |y| && y[i] == x[0];
  }

  /** The order of the elements, within and across packets, makes no difference. */
  lemma {:induction false} SumAnyOrder(x: seq<Element>, y: seq<Element>, b: nat)
    requires multiset(x) == multiset(y)
    ensures SumFor(x, b) == SumFor(y, b)
    decreases |x|
  {
    SameSize(x, y);
    if x != [] {
      var i := FindFirst(x, y);
      WithoutFirst(x, y, i);
      SumAnyOrder(x[1..], y[..i] + y[i + 1..], b);
      SumFirst(x, b);
      SumWithout(y, i, b);
    }
  }

  /** All values added up. */
  function Values(es: seq<Element>): nat {
    if es == [] then 0 else Values(es[..|es| - 1]) + es[|es| - 1].value
  }

  /** The sums for entries 0 to k - 1. */
  function Sums(es: seq<Element>, k: nat): nat {
    if k == 0 then 0 else Sums(es, k - 1) + SumFor(es, k - 1)
  }

  lemma {:induction false} SumsOfNone(k: nat)
    ensures Sums([], k) == 0
  {
    if k > 0 {
      SumsOfNone(k - 1);
    }
  }

  lemma {:induction false} SumsGrow(es: seq<Element>, k: nat)
    requires es != []
    ensures var last := es[|es| - 1];
            Sums(es, k) == Sums(es[..|es| - 1], k) + if last.key % ENTRIES < k then last.value else 0
  {
    if k > 0 {
      SumsGrow(es, k - 1);
    }
  }

  /** Nothing is lost and nothing is added: the entries together hold the values together. */
  lemma {:induction false} SumsConserve(es: seq<Element>)
    ensures Sums(es, ENTRIES) == Values(es)
  {
    if es == [] {
      SumsOfNone(ENTRIES);
    } else {
      SumsGrow(es, ENTRIES);
      SumsConserve(es[..|es| - 1]);
    }
  }

  /** An element touches the entry of its key and no other. */
  lemma SumOfOne(e: Element, b: nat)
    ensures SumFor([e], b) == if e.key % ENTRIES == b then e.value else 0
  {
    assert [e][..0] == [];
  }

  function Flatten(packets: seq<seq<Element>>): seq<Element> {
    if packets == [] then [] else Flatten(packets[..|packets| - 1]) + packets[|packets| - 1]
  }

  predicate Holds(table: seq<nat>, es: seq<Element>)
    requires |table| == ENTRIES
  {
    forall b: nat :: b < ENTRIES ==> table[b] == SumFor(es, b) % U32
  }

  class Table {
    const entries: array<nat>

    constructor ()
      ensures fresh(entries) && entries.Length == ENTRIES && Holds(entries[..], [])
    {
      entries := new nat[ENTRIES](i => 0);
    }

    /** One unsigned 32-bit addition. */
    method Add(e: Element, ghost seen: seq<Element>)
      requires entries.Length == ENTRIES && Holds(entries[..], seen)
      modifies entries
      ensures Holds(entries[..], seen + [e])
    {
      var b := e.key % ENTRIES;
      WrapAdd(SumFor(seen, b), e.value % U32, U32);
      WrapAdd(e.value, SumFor(seen, b), U32);
      assert (seen + [e])[..|seen|] == seen;
      entries[b] := (entries[b] + e.value % U32) % U32;
    }

    /** process_packet */
    method Aggregate(es: seq<Element>, ghost seen: seq<Element>)
      requires entries.Length == ENTRIES && Holds(entries[..], seen)
      modifies entries
      ensures Holds(entries[..], seen + es)
    {
      assert seen + es[..0] == seen;
      for i := 0 to |es|
        invariant Holds(entries[..], seen + es[..i])
      {
        assert seen + es[..i] + [es[i]] == seen + es[..i + 1];
        Add(es[i], seen + es[..i]);
      }
      assert seen + es[..|es|] == seen + es;
    }

    /** The copy loop of process_packet_host. */
    method Stage(es: seq<Element>, capacity: nat) returns (staged: array<Element>)
      requires |es| <= capacity
      ensures fresh(staged) && staged.Length == capacity && staged[..|es|] == es
    {
      staged := new Element[capacity](i => Element(0, 0));
      for i := 0 to |es|
        invariant staged[..i] == es[..i]
        modifies staged
      {
        staged[i] := es[i];
      }
    }

    /** process_packet_host with the table on the host: copy the elements into a staging array
        of the given capacity, then add them. */
    method AggregateStaged(es: seq<Element>, capacity: nat, ghost seen: seq<Element>)
      requires entries.Length == ENTRIES && Holds(entries[..], seen) && |es| <= capacity
      modifies entries
      ensures Holds(entries[..], seen + es)
    {
      var staged := Stage(es, capacity);
      assert seen + es[..0] == seen;
      for i := 0 to |es|
        invariant staged[..|es|] == es
        invariant Holds(entries[..], seen + es[..i])
      {
        assert seen + es[..i] + [es[i]] == seen + es[..i + 1];
        assert staged[i] == staged[..|es|][i];
        Add(staged[i], seen + es[..i]);
      }
      assert seen + es[..|es|] == seen + es;
    }

    /** Any run of packets, one at a time: each entry is the sum of its values modulo 2^32. */
    method AggregateAll(packets: seq<seq<Element>>)
      requires entries.Length == ENTRIES && Holds(entries[..], [])
      modifies entries
      ensures Holds(entries[..], Flatten(packets))
    {
      assert packets[..0] == [];
      for i := 0 to |packets|
        invariant Holds(entries[..], Flatten(packets[..i]))
      {
        assert packets[..i + 1][..i] == packets[..i];
        Aggregate(packets[i], Flatten(packets[..i]));
      }
      assert packets[..|packets|] == packets;
    }
  }

  /** Two runs that carry the same elements end with the same table. */
  lemma SameElementsSameTable(t: seq<nat>, u: seq<nat>, x: seq<Element>, y: seq<Element>)
    requires |t| == ENTRIES && |u| == ENTRIES && Holds(t, x) && Holds(u, y) && multiset(x) == multiset(y)
    ensures t == u
  {
    forall b: nat | b < ENTRIES ensures t[b] == u[b] {
      SumAnyOrder(x, y, b);
    }
  }
}
