/** The connection message as an object: the generated parser, sizer and serialiser, which
    communicate through cached sizes, and the conversion from and to the host's own record. */
module ConnInfo {
  import opened Bits
  import opened Common
  import opened Wire

  /** A size stored in a C `int`. */
  function ToInt(n: nat): (r: int)
    ensures -MAX_INT - 1 <= r <= MAX_INT && (n - r) % U32 == 0
  {
    if n % U32 <= MAX_INT then n % U32 else n % U32 - U32
  }

  /** The size of a varint holding a C `int`; a negative one takes ten bytes. */
  function IntSize(v: int): nat { if v < 0 then 10 else VarintSize(v) }

  lemma {:induction false} VarintLong(v: nat, k: nat)
    requires v >= Pow2(7 * k)
    ensures VarintSize(v) > k
  {
    assert Pow2(7) == 128;
    if k > 0 {
      Pow2Split(7, 7 * (k - 1));
      assert 7 + 7 * (k - 1) == 7 * k;
      assert v / 128 >= Pow2(7 * (k - 1));
      VarintLong(v / 128, k - 1);
    }
  }

  /** A negative int is extended to 64 bits before it is written. */
  lemma IntSizeIs(v: int)
    requires -MAX_INT - 1 <= v <= MAX_INT
    ensures IntSize(v) == VarintSize(v % U64)
  {
    if v < 0 {
      ResidueOf(v, -1, v + U64, U64);
      Pow2Words();
      assert Pow2(64) == 2 * Pow2(63);
      VarintLong(v + U64, 9);
      WordShort(v + U64);
      VarintSizeExact(v + U64);
    } else {
      ResidueOf(v, 0, v, U64);
    }
  }

  function ListSizeAsComputed(data: nat): nat {
    data + if data > 0 then 1 + IntSize(ToInt(data)) else 0
  }

  function SizeAsComputed(m: Msg): nat {
    |m.exports| + ExportsSize(m.exports) + ListSizeAsComputed(WordsSize(m.ptrs))
    + ListSizeAsComputed(WordsSize(m.sizes)) + |m.unknown|
  }

  lemma ListSizeComputed(data: nat)
    ensures data <= MAX_INT ==> ListSizeAsComputed(data) == ListSize(data) && ToInt(data) == data
    ensures data <= ListSizeAsComputed(data) && data <= ListSize(data)
  {
    if data <= MAX_INT {
      ResidueOf(data, 0, data, U32);
    }
  }

  /** Above the limit the conversions show: for data of 2 to 4 GiB the length is counted with ten bytes
      instead of five. */
  lemma ListSizeOff(data: nat)
    requires MAX_INT < data < U32
    ensures ListSizeAsComputed(data) == ListSize(data) + 5
  {
    ResidueOf(data, 0, data, U32);
    Pow2Words();
    Pow2Monotone(28, 31);
    assert Pow2(32) == 2 * Pow2(31);
    VarintLong(data, 4);
    TagShort(data);
    VarintSizeExact(data);
  }

  /** The 32-bit conversions do no harm: the computed size is within the limit exactly when
      the true size is, and then it is the true size. */
  lemma ComputedSizeExact(m: Msg)
    ensures SizeAsComputed(m) <= MAX_INT <==> |Serialize(m)| <= MAX_INT
    ensures |Serialize(m)| <= MAX_INT ==>
              && SizeAsComputed(m) == |Serialize(m)|
              && ToInt(WordsSize(m.ptrs)) == WordsSize(m.ptrs) && ToInt(WordsSize(m.sizes)) == WordsSize(m.sizes)
  {
    SizeExact(m);
    ListSizeComputed(WordsSize(m.ptrs));
    ListSizeComputed(WordsSize(m.sizes));
  }

  /** What the serialiser writes for a list when the cache says its data has `size` bytes. */
  function ListWritten(tag: Byte, vs: seq<Word>, size: int): seq<Byte> {
    if size > 0 then [tag] + Varint(size) + Packed(vs) else []
  }

  function Written(m: Msg, ptrsSize: int, sizesSize: int): seq<Byte> {
    ExportsBytes(m.exports) + ListWritten(18, m.ptrs, ptrsSize) + ListWritten(26, m.sizes, sizesSize) + m.unknown
  }

  lemma ListWrittenFresh(tag: Byte, vs: seq<Word>)
    ensures ListWritten(tag, vs, WordsSize(vs)) == ListBytes(tag, vs)
  {
    WordsSizeExact(vs);
    if vs != [] {
      assert [tag] + Varint(|Packed(vs)|) + Packed(vs) == [tag] + (Varint(|Packed(vs)|) + Packed(vs));
    }
  }

  lemma ExportsBytesFirst(es: seq<seq<Byte>>, i: nat)
    requires i < |es|
    ensures ExportsBytes(es[i..]) == [10] + Lengthy(es[i]) + ExportsBytes(es[i + 1..])
    ensures ExportsSize(es[i..]) == VarintSize(|es[i]|) + |es[i]| + ExportsSize(es[i + 1..])
  {
    assert es[i..][1..] == es[i + 1..];
  }

  lemma WordsFirstSize(vs: seq<Word>, i: nat)
    requires i < |vs|
    ensures WordsSize(vs[i..]) == VarintSize(vs[i]) + WordsSize(vs[i + 1..])
    ensures Packed(vs[i..]) == Varint(vs[i]) + Packed(vs[i + 1..])
  {
    assert vs[i..][1..] == vs[i + 1..];
  }

  method UInt64Size(vs: seq<Word>) returns (size: nat)
    ensures size == WordsSize(vs)
  {
    size := 0;
    for i := 0 to |vs|
      invariant size + WordsSize(vs[i..]) == WordsSize(vs)
    {
      WordsFirstSize(vs, i);
      size := size + VarintSize(vs[i]);
    }
  }

  method WritePacked(tag: Byte, vs: seq<Word>, size: nat) returns (out: seq<Byte>)
    ensures out == [tag] + Varint(size) + Packed(vs)
  {
    out := [tag] + Varint(size);
    for i := 0 to |vs|
      invariant out + Packed(vs[i..]) == [tag] + Varint(size) + Packed(vs)
    {
      WordsFirstSize(vs, i);
      Regroup(out, Varint(vs[i]), Packed(vs[i + 1..]));
      out := out + Varint(vs[i]);
    }
    assert out + [] == out;
  }

  method WriteExports(es: seq<seq<Byte>>) returns (out: seq<Byte>)
    ensures out == ExportsBytes(es)
  {
    out := [];
    for i := 0 to |es|
      invariant out + ExportsBytes(es[i..]) == ExportsBytes(es)
    {
      ExportsBytesFirst(es, i);
      Regroup(out, [10] + Lengthy(es[i]), ExportsBytes(es[i + 1..]));
      out := out + ([10] + Lengthy(es[i]));
    }
    assert out + [] == out;
  }

  lemma JoinDone(done: Msg, rest: seq<Byte>, f: Field, n: nat)
    requires ReadField(rest) == Got(f, n)
    ensures Join(Some(done), Parse(rest)) == Join(Some(Merge(done, OfField(f))), Parse(rest[n..]))
  {
    ParseFirst(rest, f, n);
    JoinAssociates(Some(done), Some(OfField(f)), Parse(rest[n..]));
  }

  class Message {
    var exports: seq<seq<Byte>>
    var ptrs: seq<Word>
    var sizes: seq<Word>
    var unknown: seq<Byte>
    var ptrsCached: int
    var sizesCached: int
    var totalCached: int

    constructor ()
      ensures Value() == EMPTY && ptrsCached == 0 && sizesCached == 0 && totalCached == 0
    {
      exports, ptrs, sizes, unknown := [], [], [], [];
      ptrsCached, sizesCached, totalCached := 0, 0, 0;
    }

    function Value(): Msg
      reads this`exports, this`ptrs, this`sizes, this`unknown
    {
      Msg(exports, ptrs, sizes, unknown)
    }

    method MergeFrom(from: Message)
      requires from != this
      modifies this`exports, this`ptrs, this`sizes, this`unknown
      ensures Value() == Merge(old(Value()), from.Value())
    {
      exports := exports + from.exports;
      ptrs := ptrs + from.ptrs;
      sizes := sizes + from.sizes;
      unknown := unknown + from.unknown;
    }

    /** Computes the size and, on the way, fills the caches the serialiser relies on. */
    method ByteSizeLong() returns (total: nat)
      modifies this`ptrsCached, this`sizesCached, this`totalCached
      ensures total == SizeAsComputed(Value()) && totalCached == ToInt(total)
      ensures ptrsCached == ToInt(WordsSize(ptrs)) && sizesCached == ToInt(WordsSize(sizes))
    {
      total := |exports|;
      for i := 0 to |exports|
        invariant total + ExportsSize(exports[i..]) == |exports| + ExportsSize(exports)
      {
        ExportsBytesFirst(exports, i);
        total := total + VarintSize(|exports[i]|) + |exports[i]|;
      }
      var data := UInt64Size(ptrs);
      if data > 0 {
        total := total + 1 + IntSize(ToInt(data));
      }
      ptrsCached := ToInt(data);
      total := total + data;
      data := UInt64Size(sizes);
      if data > 0 {
        total := total + 1 + IntSize(ToInt(data));
      }
      sizesCached := ToInt(data);
      total := total + data + |unknown|;
      totalCached := ToInt(total);
    }

    method InternalSerialize() returns (out: seq<Byte>)
      ensures out == Written(Value(), ptrsCached, sizesCached)
    {
      out := WriteExports(exports);
      var list := [];
      if ptrsCached > 0 {
        list := WritePacked(18, ptrs, ptrsCached);
      }
      out := out + list;
      list := [];
      if sizesCached > 0 {
        list := WritePacked(26, sizes, sizesCached);
      }
      out := out + list;
      out := out + unknown;
    }

    /** Size first, then write: nothing is written above the 2 GiB limit. */
    method SerializeToString() returns (r: Option<seq<Byte>>)
      modifies this`ptrsCached, this`sizesCached, this`totalCached
      ensures var b := Serialize(Value()); r == if |b| <= MAX_INT then Some(b) else None
    {
      ComputedSizeExact(Value());
      var size := ByteSizeLong();
      if size > MAX_INT {
        return None;
      }
      ListWrittenFresh(18, ptrs);
      ListWrittenFresh(26, sizes);
      var out := InternalSerialize();
      return Some(out);
    }

    method Add(f: Field)
      modifies this`exports, this`ptrs, this`sizes, this`unknown
      ensures Value() == Merge(old(Value()), OfField(f))
    {
      match f
      case Exports(s) => exports := exports + [s];
      case Ptrs(vs) => ptrs := ptrs + vs;
      case Sizes(vs) => sizes := sizes + vs;
      case Unknown(raw) => unknown := unknown + raw;
    }

    /** `whole` is what the message will be, if the bytes still to be read parse at all. */
    ghost predicate Progress(whole: Option<Msg>, rest: seq<Byte>)
      reads this`exports, this`ptrs, this`sizes, this`unknown
    {
      whole == Join(Some(Value()), Parse(rest))
    }

    method Take(ghost whole: Option<Msg>, rest: seq<Byte>, f: Field, n: nat) returns (next: seq<Byte>)
      requires Progress(whole, rest) && ReadField(rest) == Got(f, n)
      modifies this`exports, this`ptrs, this`sizes, this`unknown
      ensures next == rest[n..] && Progress(whole, next)
    {
      JoinDone(Value(), rest, f, n);
      next := rest[n..];
      Add(f);
    }

    /** Consecutive exports: after the first, one byte tells whether another one follows. */
    method TakeExports(ghost whole: Option<Msg>, b: seq<Byte>, k: nat) returns (ok: bool, rest: seq<Byte>)
      requires Progress(whole, b) && ReadTag(b) == Got(10, k)
      modifies this`exports, this`ptrs, this`sizes, this`unknown
      ensures ok ==> |rest| < |b| && Progress(whole, rest)
      ensures !ok ==> whole == None
    {
      var used: nat := k;
      rest := b;
      while true
        invariant |rest| <= |b| && Progress(whole, rest) && ReadTag(rest) == Got(10, used)
        decreases |rest|
      {
        var r := ReadBytes(rest[used..]);
        if r == Fail {
          return false, rest;
        }
        rest := Take(whole, rest, Exports(r.value), used + r.used);
        if rest == [] || rest[0] != 10 {
          return true, rest;
        }
        used := 1;
      }
    }

    method InternalParse(b: seq<Byte>) returns (ok: bool)
      modifies this`exports, this`ptrs, this`sizes, this`unknown
      ensures ok <==> Parse(b).Some?
      ensures ok ==> Value() == Merge(old(Value()), Parse(b).value)
    {
      var rest := b;
      ghost var whole := Join(Some(Value()), Parse(b));
      while rest != []
        invariant Progress(whole, rest)
        decreases |rest|
      {
        var tag := ReadTag(rest);
        if tag == Fail {
          return false;
        }
        if tag.value == 10 {
          ok, rest := TakeExports(whole, rest, tag.used);
          if !ok {
            return;
          }
        } else {
          var r := ReadBody(tag.value, rest[tag.used..]);
          if r == Fail {
            return false;
          }
          rest := Take(whole, rest, r.value, tag.used + r.used);
        }
      }
      JoinEmpty(Some(Value()));
      return true;
    }
  }

  // ----- the host's record ---------------------------------------------------------------------------

  datatype Info = Info(exports: seq<seq<Byte>>, buffers: seq<(Word, Word)>)

  function Firsts(ps: seq<(Word, Word)>): seq<Word> { seq(|ps|, i requires 0 <= i < |ps| => ps[i].0) }

  function Seconds(ps: seq<(Word, Word)>): seq<Word> { seq(|ps|, i requires 0 <= i < |ps| => ps[i].1) }

  function ToMsg(info: Info): Msg { Msg(info.exports, Firsts(info.buffers), Seconds(info.buffers), []) }

  method ToProtobuf(info: Info) returns (m: Message)
    ensures fresh(m) && m.Value() == ToMsg(info)
    ensures m.exports == info.exports && |m.ptrs| == |info.buffers| == |m.sizes| && m.unknown == []
    ensures forall i :: 0 <= i < |info.buffers| ==> (m.ptrs[i], m.sizes[i]) == info.buffers[i]
  {
    m := new Message();
    for i := 0 to |info.exports|
      invariant fresh(m) && m.Value() == Msg(info.exports[..i], [], [], [])
    {
      m.exports := m.exports + [info.exports[i]];
    }
    for i := 0 to |info.buffers|
      invariant fresh(m) && m.exports == info.exports && m.unknown == []
      invariant m.ptrs == Firsts(info.buffers)[..i] && m.sizes == Seconds(info.buffers)[..i]
    {
      m.ptrs := m.ptrs + [info.buffers[i].0];
      m.sizes := m.sizes + [info.buffers[i].1];
    }
  }

  /** None when the code would index past the end of the size list: exactly when there are
      fewer sizes than pointers. */
  method FromProtobuf(m: Message) returns (r: Option<Info>)
    ensures r.Some? <==> |m.ptrs| <= |m.sizes|
    ensures r.Some? ==>
              && r.value.exports == m.exports && |r.value.buffers| == |m.ptrs|
              && forall i :: 0 <= i < |m.ptrs| ==> r.value.buffers[i] == (m.ptrs[i], m.sizes[i])
  {
    var exports: seq<seq<Byte>> := [];
    for i := 0 to |m.exports|
      invariant exports == m.exports[..i]
    {
      exports := exports + [m.exports[i]];
    }
    var buffers: seq<(Word, Word)> := [];
    for i := 0 to |m.ptrs|
      invariant |buffers| == i <= |m.sizes|
      invariant forall j :: 0 <= j < i ==> buffers[j] == (m.ptrs[j], m.sizes[j])
    {
      if i >= |m.sizes| {
        return None;
      }
      buffers := buffers + [(m.ptrs[i], m.sizes[i])];
    }
    return Some(Info(exports, buffers));
  }

  lemma SamePairs(ps: seq<(Word, Word)>, qs: seq<(Word, Word)>)
    requires |qs| == |ps| && forall i :: 0 <= i < |ps| ==> qs[i] == (Firsts(ps)[i], Seconds(ps)[i])
    ensures qs == ps
  {
  }

  /** What the receiving side makes of the bytes of a record. */
  method Receive(bytes: seq<Byte>, ghost info: Info) returns (r: Option<Info>)
    requires Parse(bytes) == Some(ToMsg(info))
    ensures r == Some(info)
  {
    var receiver := new Message();
    var ok := receiver.InternalParse(bytes);
    assert ok;
    assert Merge(EMPTY, ToMsg(info)) == ToMsg(info);
    r := FromProtobuf(receiver);
    SamePairs(info.buffers, r.value.buffers);
  }

  /** End to end: a record that fits the 2 GiB limit, converted, written, sent, parsed and
      converted back, arrives unchanged. */
  method Transfer(info: Info) returns (r: Option<Info>)
    ensures r == if |Serialize(ToMsg(info))| <= MAX_INT then Some(info) else None
  {
    var sender := ToProtobuf(info);
    var bytes := sender.SerializeToString();
    if bytes == None {
      return None;
    }
    SizeExact(ToMsg(info));
    RoundTrip(ToMsg(info));
    r := Receive(bytes.value, info);
  }
}
