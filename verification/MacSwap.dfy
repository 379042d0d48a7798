/** Swapping the two MAC addresses of an Ethernet frame: with two overlapping 8-byte loads and
    stores, and byte by byte. */
module MacSwap {
  import opened Bits

  const WIDTH: nat := 8 // bytes of a size_t

  // ----- little-endian words -------------------------------------------------------------------

  function FromBytes(b: seq<Byte>): nat {
    if b == [] then 0 else b[0] + 256 * FromBytes(b[1..])
  }

  function ToBytes(v: nat, n: nat): (b: seq<Byte>)
    ensures |b| == n
    decreases n
  {
    if n == 0 then [] else [v % 256] + ToBytes(v / 256, n - 1)
  }

  lemma {:induction false} BytesReturn(b: seq<Byte>)
    ensures ToBytes(FromBytes(b), |b|) == b
  {
    if b != [] {
      BytesReturn(b[1..]);
      ResidueOf(FromBytes(b), FromBytes(b[1..]), b[0], 256);
      assert b == [b[0]] + b[1..];
    }
  }

  lemma LongerNumber(d: nat, low: nat, high: nat, p: nat)
    requires d < 256 && low < p
    ensures d + 256 * (low + high * p) == (d + 256 * low) + high * (256 * p)
    ensures d + 256 * low < 256 * p
  {
  }

  lemma {:induction false} FromBytesAppend(a: seq<Byte>, b: seq<Byte>)
    ensures FromBytes(a + b) == FromBytes(a) + FromBytes(b) * Pow2(8 * |a|)
    ensures FromBytes(a) < Pow2(8 * |a|)
  {
    if a == [] {
      assert a + b == b;
    } else {
      FromBytesAppend(a[1..], b);
      assert (a + b)[1..] == a[1..] + b && (a + b)[0] == a[0];
      var k := 8 * |a[1..]|;
      assert Pow2(8) == 256 && 8 + k == 8 * |a|;
      Pow2Split(8, k);
      LongerNumber(a[0], FromBytes(a[1..]), FromBytes(b), Pow2(k));
    }
  }

  const LOW_SIX := 0xffff_ffff_ffff
  const TYPE_8 := 0x8_0000_0000_0000

  /** The word stored second: the low six bytes of `word` and 0x0008 above them. */
  function Relabel(word: nat): nat {
    Masked(word, LOW_SIX, TYPE_8)
  }

  function Masked(word: nat, mask: nat, tag: nat): nat {
    BitOr(BitAnd(word, mask), tag)
  }

  lemma LowBits(word: nat, low: nat, high: nat, k: nat, p: nat)
    requires p == Pow2(k) && low < p && word == high * p + low
    ensures BitAnd(word, p - 1) == low
  {
    AndMask(word, k);
    ResidueOf(word, high, low, p);
  }

  lemma MaskedValue(word: nat, low: nat, high: nat, k: nat, p: nat, mask: nat, tag: nat)
    requires p == Pow2(k) && low < p && word == high * p + low && mask == p - 1 && tag == 8 * p
    ensures Masked(word, mask, tag) == low + tag
  {
    LowBits(word, low, high, k, p);
    OrDisjoint(low, 8, k);
  }

  lemma TagValue(tag: seq<Byte>)
    requires tag == [8, 0]
    ensures FromBytes(tag) == 8
  {
    var zero: seq<Byte> := tag[1..];
    assert zero == [0] && zero[1..] == [];
    assert FromBytes(zero) == 0;
  }

  lemma MaskedIs(low: seq<Byte>, high: seq<Byte>, tag: seq<Byte>, mask: nat, top: nat)
    requires mask == Pow2(8 * |low|) - 1 && top == 8 * Pow2(8 * |low|) && FromBytes(tag) == 8
    ensures Masked(FromBytes(low + high), mask, top) == FromBytes(low + tag)
  {
    var k := 8 * |low|;
    FromBytesAppend(low, high);
    MaskedValue(FromBytes(low + high), FromBytes(low), FromBytes(high), k, Pow2(k), mask, top);
    FromBytesAppend(low, tag);
  }

  lemma Masks(n: nat)
    requires n == 6
    ensures LOW_SIX == Pow2(8 * n) - 1 && TYPE_8 == 8 * Pow2(8 * n)
  {
    Pow2Words();
  }

  lemma RelabelBytes(b: seq<Byte>, tag: seq<Byte>)
    requires |b| == 8 && tag == [8, 0]
    ensures ToBytes(Relabel(FromBytes(b)), WIDTH) == b[..6] + tag
  {
    var low, high := b[..6], b[6..];
    assert b == low + high;
    TagValue(tag);
    Masks(|low|);
    MaskedIs(low, high, tag, LOW_SIX, TYPE_8);
    BytesReturn(low + tag);
  }

  // ----- frames -----------------------------------------------------------------------------------

  /** The two addresses exchanged, the rest of the frame as it was. */
  function Exchanged(f: seq<Byte>): (r: seq<Byte>)
    requires |f| >= 12
    ensures |r| == |f|
  {
    f[6..12] + f[..6] + f[12..]
  }

  /** The addresses exchanged and the EtherType set to IPv4. */
  function Reflected(f: seq<Byte>): (r: seq<Byte>)
    requires |f| >= 14
    ensures |r| == |f|
  {
    Exchanged(f)[12 := 8][13 := 0]
  }

  /** t is f with the two addresses in each other's place and every other byte where it was. */
  predicate Swapped(f: seq<Byte>, t: seq<Byte>)
    requires |f| == |t| >= 12
  {
    && (forall i :: 0 <= i < 6 ==> t[i] == f[i + 6])
    && (forall i :: 6 <= i < 12 ==> t[i] == f[i - 6])
    && (forall i :: 12 <= i < |f| ==> t[i] == f[i])
  }

  lemma ExchangedIff(f: seq<Byte>, t: seq<Byte>)
    requires |f| == |t| >= 12
    ensures t == Exchanged(f) <==> Swapped(f, t)
  {
    var r := Exchanged(f);
    assert Swapped(f, r);
    if Swapped(f, t) {
      forall i | 0 <= i < |f| ensures t[i] == r[i] {
      }
    }
  }

  lemma ExchangedTwice(f: seq<Byte>)
    requires |f| >= 12
    ensures Exchanged(Exchanged(f)) == f
  {
  }

  /** Reflecting twice returns the frame if and only if it carries IPv4. */
  lemma ReflectedTwiceIff(f: seq<Byte>)
    requires |f| >= 14
    ensures Reflected(Reflected(f)) == f <==> f[12] == 8 && f[13] == 0
  {
    var g := Reflected(f);
    assert forall i :: 0 <= i < 6 ==> g[i] == f[i + 6] && g[i + 6] == f[i];
    var h := Reflected(g);
    assert forall i :: 0 <= i < 6 ==> h[i] == g[i + 6] && h[i + 6] == g[i];
    assert h[12] == 8 && h[13] == 0;
    assert forall i :: 14 <= i < |f| ==> h[i] == f[i];
    if f[12] == 8 && f[13] == 0 {
      forall i | 0 <= i < |f| ensures h[i] == f[i] {
        assert 6 <= i < 12 ==> h[i] == h[(i - 6) + 6] == g[i - 6] == f[i];
      }
    }
  }

  method Load(a: array<Byte>, at: nat) returns (word: nat)
    requires at + WIDTH <= a.Length
    ensures word == FromBytes(a[at..at + WIDTH])
  {
    word := FromBytes(a[at..at + WIDTH]);
  }

  /** The frame with the bytes b at `at`. */
  function Stored(f: seq<Byte>, at: nat, b: seq<Byte>): (r: seq<Byte>)
    requires at + |b| <= |f|
    ensures |r| == |f|
  {
    seq(|f|, i requires 0 <= i < |f| => if at <= i < at + |b| then b[i - at] else f[i])
  }

  method StoreBytes(a: array<Byte>, at: nat, b: seq<Byte>)
    requires at + |b| <= a.Length
    modifies a
    ensures a[..] == Stored(old(a[..]), at, b)
  {
    for k := 0 to |b|
      invariant forall i :: 0 <= i < a.Length && !(at <= i < at + k) ==> a[i] == old(a[i])
      invariant forall i :: at <= i < at + k ==> a[i] == b[i - at]
    {
      a[at + k] := b[k];
    }
  }

  lemma TwoStores(f: seq<Byte>)
    requires |f| >= 14
    ensures Stored(Stored(f, 0, f[6..14]), 6, f[..6] + [8, 0]) == Reflected(f)
  {
  }

  lemma ReflectedBytes(f: seq<Byte>)
    requires |f| >= 14
    ensures var r := Reflected(f);
            && (forall i :: 0 <= i < 6 ==> r[i] == f[i + 6])
            && (forall i :: 6 <= i < 12 ==> r[i] == f[i - 6])
            && r[12] == 8 && r[13] == 0
            && (forall i :: 14 <= i < |f| ==> r[i] == f[i])
  {
  }

  /** Both loads happen before the stores, and the second store overwrites the last two bytes
      of the first. */
  method SwapWords(a: array<Byte>)
    requires a.Length >= 14
    modifies a
    ensures a[..] == Reflected(old(a[..]))
  {
    ghost var f := a[..];
    var first := Load(a, 0);
    var second := Load(a, 6);
    BytesReturn(f[6..14]);
    RelabelBytes(f[0..8], [8, 0]);
    assert f[0..8][..6] == f[..6];
    TwoStores(f);
    StoreBytes(a, 0, ToBytes(second, WIDTH));
    StoreBytes(a, 6, ToBytes(Relabel(first), WIDTH));
  }

  /** The fast reflector, byte by byte: the addresses change places, the EtherType becomes 0800, no other
      byte changes. */
  method ReflectFast(a: array<Byte>)
    requires a.Length >= 14
    modifies a
    ensures forall i :: 0 <= i < 6 ==> a[i] == old(a[i + 6])
    ensures forall i :: 6 <= i < 12 ==> a[i] == old(a[i - 6])
    ensures a[12] == 8 && a[13] == 0
    ensures forall i :: 14 <= i < a.Length ==> a[i] == old(a[i])
    ensures a[..] == Reflected(old(a[..]))
  {
    ReflectedBytes(a[..]);
    SwapWords(a);
    assert forall i :: 0 <= i < a.Length ==> a[i] == a[..][i] && old(a[i]) == old(a[..])[i];
  }

  /** The loop of the simple reflector: both addresses change places, no other byte changes. */
  method ExchangeBytes(a: array<Byte>)
    requires a.Length >= 12
    modifies a
    ensures forall i :: 0 <= i < 6 ==> a[i] == old(a[i + 6])
    ensures forall i :: 6 <= i < 12 ==> a[i] == old(a[i - 6])
    ensures forall i :: 12 <= i < a.Length ==> a[i] == old(a[i])
    ensures a[..] == Exchanged(old(a[..]))
  {
    for byte := 0 to 6
      invariant forall i :: 0 <= i < byte ==> a[i] == old(a[i + 6])
      invariant forall i :: 6 <= i < 6 + byte ==> a[i] == old(a[i - 6])
      invariant forall i :: byte <= i < 6 || byte + 6 <= i < a.Length ==> a[i] == old(a[i])
    {
      var tmp := a[byte];
      a[byte] := a[byte + 6];
      a[byte + 6] := tmp;
    }
    ExchangedIff(old(a[..]), a[..]);
  }
}
