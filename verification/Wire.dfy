/** The wire form of a connection message: repeated bytes `exports` (field 1) and two repeated
    64-bit lists (fields 2 and 3), as the generated protocol-buffer code reads and writes it. */
module Wire {
  import opened Bits
  import opened Common

  const MAX_INT := 0x7fff_ffff
  const RECURSION := 100

  /** The outcome of reading from the front of a buffer, with the number of bytes used. */
  datatype Read<T> = Fail | Got(value: T, used: nat)

  // ----- Base 128 varints ---------------------------------------------------------------------

  function Varint(v: nat): (r: seq<Byte>)
    ensures |r| >= 1
  {
    if v < 128 then [v] else [128 + v % 128] + Varint(v / 128)
  }

  /** At most `max` bytes; the value is not yet cut to a register. */
  function ReadVarint(b: seq<Byte>, max: nat): (r: Read<nat>)
    ensures r.Got? ==> 1 <= r.used <= |b|
  {
    if b == [] || max == 0 then Fail
    else if b[0] < 128 then Got(b[0], 1)
    else
      match ReadVarint(b[1..], max - 1)
      case Fail => Fail
      case Got(v, n) => Got(b[0] - 128 + 128 * v, n + 1)
  }

  function ReadWord(b: seq<Byte>): (r: Read<Word>)
    ensures r.Got? ==> 1 <= r.used <= |b|
  {
    match ReadVarint(b, 10)
    case Fail => Fail
    case Got(v, n) => Got(v % U64, n)
  }

  function ReadTag(b: seq<Byte>): (r: Read<nat>)
    ensures r.Got? ==> 1 <= r.used <= |b| && r.value < U32
  {
    match ReadVarint(b, 5)
    case Fail => Fail
    case Got(v, n) => Got(v % U32, n)
  }

  /** A length and that many bytes. */
  function ReadBytes(b: seq<Byte>): (r: Read<seq<Byte>>)
    ensures r.Got? ==> 1 <= r.used <= |b| && |r.value| <= MAX_INT
  {
    match ReadVarint(b, 5)
    case Fail => Fail
    case Got(v, n) => if v > MAX_INT || v > |b| - n then Fail else Got(b[n..n + v], n + v)
  }

  /** The whole of b as a run of varints. */
  function ReadWords(b: seq<Byte>): Option<seq<Word>> {
    if b == [] then Some([])
    else
      match ReadWord(b)
      case Fail => None
      case Got(v, n) =>
        match ReadWords(b[n..])
        case None => None
        case Some(vs) => Some([v] + vs)
  }

  lemma {:induction false} VarintReads(v: nat, rest: seq<Byte>, max: nat)
    requires |Varint(v)| <= max
    ensures ReadVarint(Varint(v) + rest, max) == Got(v, |Varint(v)|)
  {
    if v < 128 {
      assert (Varint(v) + rest)[0] == v;
    } else {
      VarintReads(v / 128, rest, max - 1);
      assert (Varint(v) + rest)[1..] == Varint(v / 128) + rest;
      assert (Varint(v) + rest)[0] == 128 + v % 128;
    }
  }

  lemma {:induction false} VarintShort(v: nat, k: nat)
    requires k >= 1 && v < Pow2(7 * k)
    ensures |Varint(v)| <= k
  {
    assert Pow2(7) == 128;
    if v >= 128 {
      Pow2Split(7, 7 * (k - 1));
      assert 7 + 7 * (k - 1) == 7 * k;
      assert v / 128 < Pow2(7 * (k - 1));
      VarintShort(v / 128, k - 1);
    }
  }

  lemma TagShort(tag: nat)
    requires tag < U32
    ensures |Varint(tag)| <= 5
  {
    Pow2Words();
    Pow2Monotone(32, 35);
    VarintShort(tag, 5);
  }

  lemma WordShort(v: Word)
    ensures |Varint(v)| <= 10
  {
    Pow2Words();
    Pow2Monotone(64, 70);
    VarintShort(v, 10);
  }

  lemma {:induction false} VarintStable(b: seq<Byte>, c: seq<Byte>, max: nat)
    ensures ReadVarint(b, max).Got? ==> ReadVarint(b + c, max) == ReadVarint(b, max)
  {
    if b != [] && max > 0 && b[0] >= 128 {
      VarintStable(b[1..], c, max - 1);
      assert (b + c)[1..] == b[1..] + c;
    }
  }

  lemma WordReads(v: Word, rest: seq<Byte>)
    ensures ReadWord(Varint(v) + rest) == Got(v, |Varint(v)|)
  {
    WordShort(v);
    VarintReads(v, rest, 10);
  }

  lemma TagReads(tag: nat, rest: seq<Byte>)
    requires tag < U32
    ensures ReadTag(Varint(tag) + rest) == Got(tag, |Varint(tag)|)
  {
    TagShort(tag);
    VarintReads(tag, rest, 5);
  }

  function Lengthy(s: seq<Byte>): seq<Byte> { Varint(|s|) + s }

  lemma BytesRead(s: seq<Byte>, rest: seq<Byte>)
    requires |s| <= MAX_INT
    ensures ReadBytes(Lengthy(s) + rest) == Got(s, |Lengthy(s)|)
  {
    var b, n := Lengthy(s) + rest, |Varint(|s|)|;
    TagShort(|s|);
    VarintReads(|s|, s + rest, 5);
    assert b == Varint(|s|) + (s + rest);
    assert b[n..n + |s|] == s;
  }

  lemma BytesStable(b: seq<Byte>, c: seq<Byte>)
    ensures ReadBytes(b).Got? ==> ReadBytes(b + c) == ReadBytes(b)
  {
    VarintStable(b, c, 5);
    if ReadBytes(b).Got? {
      var r := ReadVarint(b, 5);
      assert (b + c)[r.used..r.used + r.value] == b[r.used..r.used + r.value];
    }
  }

  function Packed(vs: seq<Word>): seq<Byte> {
    if vs == [] then [] else Varint(vs[0]) + Packed(vs[1..])
  }

  lemma WordsFirst(b: seq<Byte>, v: Word, n: nat, vs: seq<Word>)
    requires ReadWord(b) == Got(v, n) && ReadWords(b[n..]) == Some(vs)
    ensures ReadWords(b) == Some([v] + vs)
  {
  }

  lemma {:induction false} PackedReads(vs: seq<Word>)
    ensures ReadWords(Packed(vs)) == Some(vs)
  {
    if vs != [] {
      var first, rest := Varint(vs[0]), Packed(vs[1..]);
      PackedReads(vs[1..]);
      WordReads(vs[0], rest);
      assert (first + rest)[|first|..] == rest;
      WordsFirst(first + rest, vs[0], |first|, vs[1..]);
      assert vs == [vs[0]] + vs[1..];
    }
  }

  // ----- fields -----------------------------------------------------------------------------------

  datatype Field =
    | Exports(bytes: seq<Byte>)
    | Ptrs(words: seq<Word>)
    | Sizes(words: seq<Word>)
    | Unknown(raw: seq<Byte>)

  /** The payload of a field of wire type `kind`, in canonical form. */
  function ReadPlain(kind: nat, b: seq<Byte>): (r: Read<seq<Byte>>)
    ensures r.Got? ==> r.used <= |b|
  {
    match kind
    case 0 =>
      (match ReadWord(b)
       case Fail => Fail
       case Got(v, n) => Got(Varint(v), n))
    case 1 => if |b| < 8 then Fail else Got(b[..8], 8)
    case 2 =>
      (match ReadBytes(b)
       case Fail => Fail
       case Got(s, n) => Got(Lengthy(s), n))
    case 5 => if |b| < 4 then Fail else Got(b[..4], 4)
    case _ => Fail
  }

  /** A field the message does not know, whose tag has been read: it is kept in canonical form,
      with its tag. Groups nest at most `depth` deep. */
  function ReadUnknown(tag: nat, b: seq<Byte>, depth: nat): (r: Read<seq<Byte>>)
    requires tag < U32
    ensures r.Got? ==> r.used <= |b|
    decreases |b|, 1
  {
    if tag < 8 then Fail
    else if tag % 8 != 3 then
      (match ReadPlain(tag % 8, b)
       case Fail => Fail
       case Got(payload, n) => Got(Varint(tag) + payload, n))
    else if depth == 0 then Fail
    else
      (match ReadGroup(tag + 1, b, depth - 1)
       case Fail => Fail
       case Got(content, n) => Got(Varint(tag) + content + Varint(tag + 1), n))
  }

  /** The fields of a group up to and including its end tag; the content is kept without it. */
  function ReadGroup(end: nat, b: seq<Byte>, depth: nat): (r: Read<seq<Byte>>)
    ensures r.Got? ==> r.used <= |b|
    decreases |b|, 0
  {
    match ReadTag(b)
    case Fail => Fail
    case Got(tag, k) =>
      if tag == end then Got([], k)
      else if tag == 0 || tag % 8 == 4 then Fail
      else ReadEntries(end, tag, b[k..], depth, k)
  }

  /** A field of a group and the rest of the group, k bytes into it. */
  function ReadEntries(end: nat, tag: nat, b: seq<Byte>, depth: nat, k: nat): (r: Read<seq<Byte>>)
    requires tag < U32
    ensures r.Got? ==> r.used <= k + |b|
    decreases |b|, 2
  {
    match ReadUnknown(tag, b, depth)
    case Fail => Fail
    case Got(u, n) => Then(u, k + n, ReadGroup(end, b[n..], depth))
  }

  function Then(u: seq<Byte>, n: nat, r: Read<seq<Byte>>): Read<seq<Byte>> {
    match r
    case Fail => Fail
    case Got(rest, m) => Got(u + rest, n + m)
  }

  function ReadPacked(b: seq<Byte>): (r: Read<seq<Word>>)
    ensures r.Got? ==> 1 <= r.used <= |b|
  {
    match ReadBytes(b)
    case Fail => Fail
    case Got(s, n) =>
      match ReadWords(s)
      case None => Fail
      case Some(vs) => Got(vs, n)
  }

  /** What follows the tag. */
  function ReadBody(tag: nat, b: seq<Byte>): (r: Read<Field>)
    requires tag < U32
    ensures r.Got? ==> r.used <= |b|
  {
    if tag == 10 then
      (match ReadBytes(b)
       case Fail => Fail
       case Got(s, n) => Got(Exports(s), n))
    else if tag == 18 || tag == 26 then
      (match ReadPacked(b)
       case Fail => Fail
       case Got(vs, n) => Got(if tag == 18 then Ptrs(vs) else Sizes(vs), n))
    else if tag == 16 || tag == 24 then
      (match ReadWord(b)
       case Fail => Fail
       case Got(v, n) => Got(if tag == 16 then Ptrs([v]) else Sizes([v]), n))
    else if tag == 0 || tag % 8 == 4 then Fail
    else
      (match ReadUnknown(tag, b, RECURSION)
       case Fail => Fail
       case Got(u, n) => Got(Unknown(u), n))
  }

  function ReadField(b: seq<Byte>): (r: Read<Field>)
    ensures r.Got? ==> 1 <= r.used <= |b|
  {
    match ReadTag(b)
    case Fail => Fail
    case Got(tag, k) =>
      match ReadBody(tag, b[k..])
      case Fail => Fail
      case Got(f, n) => Got(f, k + n)
  }

  lemma WordStable(b: seq<Byte>, c: seq<Byte>)
    ensures ReadWord(b).Got? ==> ReadWord(b + c) == ReadWord(b)
  {
    VarintStable(b, c, 10);
  }

  lemma TagStable(b: seq<Byte>, c: seq<Byte>)
    ensures ReadTag(b).Got? ==> ReadTag(b + c) == ReadTag(b)
  {
    VarintStable(b, c, 5);
  }

  lemma PlainStable(kind: nat, b: seq<Byte>, c: seq<Byte>)
    ensures ReadPlain(kind, b).Got? ==> ReadPlain(kind, b + c) == ReadPlain(kind, b)
  {
    WordStable(b, c);
    BytesStable(b, c);
    assert |b| >= 8 ==> (b + c)[..8] == b[..8];
    assert |b| >= 4 ==> (b + c)[..4] == b[..4];
  }

  lemma {:induction false} UnknownStable(tag: nat, b: seq<Byte>, c: seq<Byte>, depth: nat)
    requires tag < U32
    ensures ReadUnknown(tag, b, depth).Got? ==> ReadUnknown(tag, b + c, depth) == ReadUnknown(tag, b, depth)
    decreases |b|, 1
  {
    if tag % 8 != 3 {
      PlainStable(tag % 8, b, c);
    } else if depth > 0 {
      GroupStable(tag + 1, b, c, depth - 1);
    }
  }

  lemma Tail(b: seq<Byte>, c: seq<Byte>, k: nat)
    requires k <= |b|
    ensures (b + c)[k..] == b[k..] + c
  {
  }

  lemma GroupOpens(end: nat, b: seq<Byte>, depth: nat, tag: nat, k: nat)
    requires ReadTag(b) == Got(tag, k) && tag != end && tag != 0 && tag % 8 != 4
    ensures ReadGroup(end, b, depth) == ReadEntries(end, tag, b[k..], depth, k)
  {
  }

  lemma EntriesFirst(end: nat, tag: nat, b: seq<Byte>, depth: nat, k: nat, u: seq<Byte>, n: nat)
    requires tag < U32 && ReadUnknown(tag, b, depth) == Got(u, n)
    ensures ReadEntries(end, tag, b, depth, k) == Then(u, k + n, ReadGroup(end, b[n..], depth))
  {
  }

  lemma GroupFirst(end: nat, b: seq<Byte>, depth: nat, tag: nat, k: nat, u: seq<Byte>, n: nat)
    requires ReadTag(b) == Got(tag, k) && tag != end && tag != 0 && tag % 8 != 4
    requires ReadUnknown(tag, b[k..], depth) == Got(u, n)
    ensures ReadGroup(end, b, depth) == Then(u, k + n, ReadGroup(end, b[k + n..], depth))
  {
    GroupOpens(end, b, depth, tag, k);
    EntriesFirst(end, tag, b[k..], depth, k, u, n);
    assert b[k..][n..] == b[k + n..];
  }

  lemma {:induction false} GroupStable(end: nat, b: seq<Byte>, c: seq<Byte>, depth: nat)
    ensures ReadGroup(end, b, depth).Got? ==> ReadGroup(end, b + c, depth) == ReadGroup(end, b, depth)
    decreases |b|, 0
  {
    if ReadGroup(end, b, depth).Got? {
      var t := ReadTag(b);
      TagStable(b, c);
      if t.value != end {
        GroupOpens(end, b, depth, t.value, t.used);
        EntriesStable(end, t.value, b[t.used..], c, depth, t.used);
        Tail(b, c, t.used);
        GroupOpens(end, b + c, depth, t.value, t.used);
      }
    }
  }

  lemma {:induction false} EntriesStable(end: nat, tag: nat, b: seq<Byte>, c: seq<Byte>, depth: nat, k: nat)
    requires tag < U32
    ensures ReadEntries(end, tag, b, depth, k).Got? ==>
      ReadEntries(end, tag, b + c, depth, k) == ReadEntries(end, tag, b, depth, k)
    decreases |b|, 2
  {
    var u := ReadUnknown(tag, b, depth);
    if u.Got? {
      UnknownStable(tag, b, c, depth);
      EntriesFirst(end, tag, b, depth, k, u.value, u.used);
      EntriesFirst(end, tag, b + c, depth, k, u.value, u.used);
      Tail(b, c, u.used);
      GroupStable(end, b[u.used..], c, depth);
    }
  }

  lemma BodyStable(tag: nat, b: seq<Byte>, c: seq<Byte>)
    requires tag < U32
    ensures ReadBody(tag, b).Got? ==> ReadBody(tag, b + c) == ReadBody(tag, b)
  {
    BytesStable(b, c);
    WordStable(b, c);
    UnknownStable(tag, b, c, RECURSION);
  }

  /** A field is self-delimiting: once it has been read, what follows makes no difference. */
  lemma FieldStable(b: seq<Byte>, c: seq<Byte>)
    ensures ReadField(b).Got? ==> ReadField(b + c) == ReadField(b)
  {
    if ReadField(b).Got? {
      TagStable(b, c);
      var t := ReadTag(b);
      BodyStable(t.value, b[t.used..], c);
      assert (b + c)[t.used..] == b[t.used..] + c;
    }
  }

  // ----- messages -----------------------------------------------------------------------------------

  datatype Msg = Msg(exports: seq<seq<Byte>>, ptrs: seq<Word>, sizes: seq<Word>, unknown: seq<Byte>)

  const EMPTY := Msg([], [], [], [])

  function Merge(m: Msg, m': Msg): Msg {
    Msg(m.exports + m'.exports, m.ptrs + m'.ptrs, m.sizes + m'.sizes, m.unknown + m'.unknown)
  }

  function OfField(f: Field): Msg {
    match f
    case Exports(s) => Msg([s], [], [], [])
    case Ptrs(vs) => Msg([], vs, [], [])
    case Sizes(vs) => Msg([], [], vs, [])
    case Unknown(raw) => Msg([], [], [], raw)
  }

  /** Both parts must have parsed. */
  function Join(x: Option<Msg>, y: Option<Msg>): Option<Msg> {
    if x.Some? && y.Some? then Some(Merge(x.value, y.value)) else None
  }

  function Parse(b: seq<Byte>): Option<Msg> {
    if b == [] then Some(EMPTY)
    else
      match ReadField(b)
      case Fail => None
      case Got(f, n) => Join(Some(OfField(f)), Parse(b[n..]))
  }

  lemma MergeAssociates(x: Msg, y: Msg, z: Msg)
    ensures Merge(Merge(x, y), z) == Merge(x, Merge(y, z))
  {
  }

  lemma JoinAssociates(x: Option<Msg>, y: Option<Msg>, z: Option<Msg>)
    ensures Join(Join(x, y), z) == Join(x, Join(y, z))
  {
    if x.Some? && y.Some? && z.Some? {
      MergeAssociates(x.value, y.value, z.value);
    }
  }

  lemma JoinEmpty(x: Option<Msg>)
    ensures Join(Some(EMPTY), x) == x == Join(x, Some(EMPTY))
  {
    if x.Some? {
      assert Merge(EMPTY, x.value) == x.value == Merge(x.value, EMPTY);
    }
  }

  lemma ParseFirst(b: seq<Byte>, f: Field, n: nat)
    requires ReadField(b) == Got(f, n)
    ensures Parse(b) == Join(Some(OfField(f)), Parse(b[n..]))
  {
  }

  /** Parsing a concatenation is merging the messages of its parts. */
  lemma {:induction false} ParseAppend(a: seq<Byte>, b: seq<Byte>)
    requires Parse(a).Some?
    ensures Parse(a + b) == Join(Parse(a), Parse(b))
  {
    if a == [] {
      assert a + b == b;
      JoinEmpty(Parse(b));
    } else {
      var r := ReadField(a);
      var rest := a[r.used..];
      FieldStable(a, b);
      ParseFirst(a, r.value, r.used);
      ParseFirst(a + b, r.value, r.used);
      Tail(a, b, r.used);
      ParseAppend(rest, b);
      JoinAssociates(Some(OfField(r.value)), Parse(rest), Parse(b));
    }
  }

  // ----- writing ----------------------------------------------------------------------------------------

  function ExportsBytes(es: seq<seq<Byte>>): seq<Byte> {
    if es == [] then [] else [10] + Lengthy(es[0]) + ExportsBytes(es[1..])
  }

  function ListBytes(tag: Byte, vs: seq<Word>): seq<Byte> {
    if vs == [] then [] else [tag] + Lengthy(Packed(vs))
  }

  function Serialize(m: Msg): seq<Byte> {
    ExportsBytes(m.exports) + ListBytes(18, m.ptrs) + ListBytes(26, m.sizes) + m.unknown
  }

  function VarintSize(v: nat): nat {
    if v < 128 then 1 else 1 + VarintSize(v / 128)
  }

  function WordsSize(vs: seq<Word>): nat {
    if vs == [] then 0 else VarintSize(vs[0]) + WordsSize(vs[1..])
  }

  function ExportsSize(es: seq<seq<Byte>>): nat {
    if es == [] then 0 else VarintSize(|es[0]|) + |es[0]| + ExportsSize(es[1..])
  }

  /** The size of a packed list from the size of its data. */
  function ListSize(data: nat): nat {
    data + if data > 0 then 1 + VarintSize(data) else 0
  }

  function ByteSize(m: Msg): nat {
    |m.exports| + ExportsSize(m.exports) + ListSize(WordsSize(m.ptrs)) + ListSize(WordsSize(m.sizes)) + |m.unknown|
  }

  // ----- the bytes themselves -----------------------------------------------------------------------------

  /** The value of a little-endian number in base 128, one digit in the low seven bits of each byte. */
  function Base128(b: seq<Byte>): nat {
    if b == [] then 0 else b[0] % 128 + 128 * Base128(b[1..])
  }

  /** A varint is the number in base 128, without leading zero digits, with the high bit set in every byte
      but the last. */
  lemma {:induction false} VarintForm(v: nat)
    ensures Base128(Varint(v)) == v
    ensures forall i :: 0 <= i < |Varint(v)| ==> (Varint(v)[i] >= 128 <==> i < |Varint(v)| - 1)
    ensures v > 0 ==> Varint(v)[|Varint(v)| - 1] != 0
  {
    if v >= 128 {
      VarintForm(v / 128);
      assert Varint(v)[1..] == Varint(v / 128);
    } else {
      assert Varint(v)[1..] == [];
    }
  }

  /** The keys of the wire form: field number times 8 plus wire type. */
  function Key(field: nat, wire: nat): nat { 8 * field + wire }

  const LENGTH_DELIMITED := 2

  /** One length-delimited field. */
  function Delimited(field: nat, data: seq<Byte>): seq<Byte>
    requires Key(field, LENGTH_DELIMITED) < 256
  {
    [Key(field, LENGTH_DELIMITED)] + (Varint(|data|) + data)
  }

  /** The bytes of a message, field by field: the exports, the two lists packed as fields 2 and 3 if they
      are not empty, and the unknown fields as they came. */
  lemma SerializedForm(m: Msg)
    ensures Serialize(m) == ExportsBytes(m.exports)
                            + (if m.ptrs == [] then [] else Delimited(2, Packed(m.ptrs)))
                            + (if m.sizes == [] then [] else Delimited(3, Packed(m.sizes)))
                            + m.unknown
  {
  }

  /** Each export is field 1. */
  lemma ExportForm(s: seq<Byte>, es: seq<seq<Byte>>)
    ensures ExportsBytes([]) == [] && ExportsBytes([s] + es) == Delimited(1, s) + ExportsBytes(es)
  {
    assert ([s] + es)[1..] == es;
  }

  lemma PackedForm(v: Word, vs: seq<Word>)
    ensures Packed([]) == [] && Packed([v] + vs) == Varint(v) + Packed(vs)
  {
    assert ([v] + vs)[1..] == vs;
  }

  lemma {:induction false} VarintSizeExact(v: nat)
    ensures VarintSize(v) == |Varint(v)|
  {
    if v >= 128 {
      VarintSizeExact(v / 128);
    }
  }

  lemma {:induction false} WordsSizeExact(vs: seq<Word>)
    ensures WordsSize(vs) == |Packed(vs)| >= |vs|
  {
    if vs != [] {
      VarintSizeExact(vs[0]);
      WordsSizeExact(vs[1..]);
    }
  }

  lemma {:induction false} ExportsSizeExact(es: seq<seq<Byte>>)
    ensures |es| + ExportsSize(es) == |ExportsBytes(es)|
  {
    if es != [] {
      VarintSizeExact(|es[0]|);
      ExportsSizeExact(es[1..]);
    }
  }

  lemma ListSizeExact(tag: Byte, vs: seq<Word>)
    ensures ListSize(WordsSize(vs)) == |ListBytes(tag, vs)|
  {
    WordsSizeExact(vs);
    VarintSizeExact(|Packed(vs)|);
  }

  /** The size announced is the size written. */
  lemma SizeExact(m: Msg)
    ensures ByteSize(m) == |Serialize(m)|
  {
    ExportsSizeExact(m.exports);
    ListSizeExact(18, m.ptrs);
    ListSizeExact(26, m.sizes);
  }

  // ----- round trip -----------------------------------------------------------------------------------------

  lemma FieldReads(tag: nat, body: seq<Byte>, f: Field)
    requires tag < U32 && ReadBody(tag, body) == Got(f, |body|)
    ensures ReadField(Varint(tag) + body) == Got(f, |Varint(tag) + body|)
  {
    TagReads(tag, body);
    assert (Varint(tag) + body)[|Varint(tag)|..] == body;
  }

  lemma FieldParses(b: seq<Byte>, f: Field)
    requires ReadField(b) == Got(f, |b|)
    ensures Parse(b) == Some(OfField(f))
  {
    assert b[|b|..] == [];
    ParseFirst(b, f, |b|);
    JoinEmpty(Some(OfField(f)));
  }

  lemma ExportParses(s: seq<Byte>)
    requires |s| <= MAX_INT
    ensures Parse([10] + Lengthy(s)) == Some(OfField(Exports(s)))
  {
    BytesRead(s, []);
    assert Lengthy(s) + [] == Lengthy(s);
    FieldReads(10, Lengthy(s), Exports(s));
    FieldParses([10] + Lengthy(s), Exports(s));
  }

  lemma JoinExports(s: seq<Byte>, es: seq<seq<Byte>>)
    ensures Join(Some(OfField(Exports(s))), Some(Msg(es, [], [], []))) == Some(Msg([s] + es, [], [], []))
  {
    assert Merge(Msg([s], [], [], []), Msg(es, [], [], [])) == Msg([s] + es, [], [], []);
  }

  lemma {:induction false} ExportsParse(es: seq<seq<Byte>>)
    requires forall s :: s in es ==> |s| <= MAX_INT
    ensures Parse(ExportsBytes(es)) == Some(Msg(es, [], [], []))
  {
    if es != [] {
      ExportsParse(es[1..]);
      ExportParses(es[0]);
      ParseAppend([10] + Lengthy(es[0]), ExportsBytes(es[1..]));
      JoinExports(es[0], es[1..]);
      assert es == [es[0]] + es[1..];
    }
  }

  lemma ListParses(tag: Byte, vs: seq<Word>)
    requires (tag == 18 || tag == 26) && |Packed(vs)| <= MAX_INT
    ensures Parse(ListBytes(tag, vs)) == Some(OfField(if tag == 18 then Ptrs(vs) else Sizes(vs)))
  {
    if vs != [] {
      var body := Lengthy(Packed(vs));
      BytesRead(Packed(vs), []);
      assert body + [] == body;
      PackedReads(vs);
      var f := if tag == 18 then Ptrs(vs) else Sizes(vs);
      assert ReadBody(tag, body) == Got(f, |body|);
      FieldReads(tag, body, f);
      FieldParses([tag] + body, f);
    }
  }

  /** The unknown bytes are a run of unknown fields in canonical form: a message built through
      the setters has none, and ParsedIsCanonical covers the messages that were parsed. */
  predicate Canonical(u: seq<Byte>) {
    Parse(u) == Some(Msg([], [], [], u))
  }

  lemma {:induction false} ExportsFit(es: seq<seq<Byte>>, s: seq<Byte>)
    requires s in es
    ensures |s| <= ExportsSize(es)
  {
    if s != es[0] {
      ExportsFit(es[1..], s);
    }
  }

  lemma FourParts(m: Msg)
    ensures Merge(Merge(Merge(Msg(m.exports, [], [], []), Msg([], m.ptrs, [], [])), Msg([], [], m.sizes, [])),
                  Msg([], [], [], m.unknown)) == m
  {
  }

  lemma FourParse(a: seq<Byte>, b: seq<Byte>, c: seq<Byte>, d: seq<Byte>, m: Msg)
    requires Parse(a) == Some(Msg(m.exports, [], [], [])) && Parse(b) == Some(Msg([], m.ptrs, [], []))
    requires Parse(c) == Some(Msg([], [], m.sizes, [])) && Parse(d) == Some(Msg([], [], [], m.unknown))
    ensures Parse(a + b + c + d) == Some(m)
  {
    ParseAppend(a, b);
    ParseAppend(a + b, c);
    ParseAppend(a + b + c, d);
    FourParts(m);
  }

  lemma PartsFit(m: Msg)
    requires ByteSize(m) <= MAX_INT
    ensures forall s :: s in m.exports ==> |s| <= MAX_INT
    ensures |Packed(m.ptrs)| <= MAX_INT && |Packed(m.sizes)| <= MAX_INT
  {
    forall s | s in m.exports ensures |s| <= MAX_INT {
      ExportsFit(m.exports, s);
    }
    WordsSizeExact(m.ptrs);
    WordsSizeExact(m.sizes);
  }

  /** Parsing what was written returns the message. */
  lemma RoundTrip(m: Msg)
    requires ByteSize(m) <= MAX_INT && Canonical(m.unknown)
    ensures Parse(Serialize(m)) == Some(m)
  {
    PartsFit(m);
    ExportsParse(m.exports);
    ListParses(18, m.ptrs);
    ListParses(26, m.sizes);
    FourParse(ExportsBytes(m.exports), ListBytes(18, m.ptrs), ListBytes(26, m.sizes), m.unknown, m);
  }

  lemma PlainCanonical(kind: nat, b: seq<Byte>)
    requires ReadPlain(kind, b).Got?
    ensures var p := ReadPlain(kind, b).value; ReadPlain(kind, p) == Got(p, |p|)
  {
    var p := ReadPlain(kind, b).value;
    assert p + [] == p && p[..|p|] == p;
    if kind == 0 {
      WordReads(ReadWord(b).value, []);
    } else if kind == 2 {
      BytesRead(ReadBytes(b).value, []);
    }
  }

  /** u, read as an unknown field with this tag, is its own canonical form. */
  predicate SelfRead(tag: nat, u: seq<Byte>, depth: nat)
    requires tag < U32
  {
    var k := |Varint(tag)|;
    k <= |u| && u[..k] == Varint(tag) && ReadUnknown(tag, u[k..], depth) == Got(u, |u| - k)
  }

  lemma PlainSelfRead(tag: nat, p: seq<Byte>, depth: nat)
    requires 8 <= tag < U32 && tag % 8 != 3 && ReadPlain(tag % 8, p) == Got(p, |p|)
    ensures SelfRead(tag, Varint(tag) + p, depth)
  {
    assert (Varint(tag) + p)[|Varint(tag)|..] == p;
  }

  lemma GroupSelfRead(tag: nat, content: seq<Byte>, depth: nat)
    requires 8 <= tag < U32 && tag % 8 == 3 && depth > 0
    requires ReadGroup(tag + 1, content + Varint(tag + 1), depth - 1) == Got(content, |content + Varint(tag + 1)|)
    ensures SelfRead(tag, Varint(tag) + content + Varint(tag + 1), depth)
  {
    var u, body := Varint(tag) + content + Varint(tag + 1), content + Varint(tag + 1);
    assert u == Varint(tag) + body;
    assert u[|Varint(tag)|..] == body && u[..|Varint(tag)|] == Varint(tag);
  }

  lemma {:induction false} UnknownCanonical(tag: nat, b: seq<Byte>, depth: nat)
    requires tag < U32 && ReadUnknown(tag, b, depth).Got?
    ensures SelfRead(tag, ReadUnknown(tag, b, depth).value, depth)
    decreases |b|, 1
  {
    if tag % 8 != 3 {
      PlainCanonical(tag % 8, b);
      PlainSelfRead(tag, ReadPlain(tag % 8, b).value, depth);
    } else {
      GroupCanonical(tag + 1, b, depth - 1);
      GroupSelfRead(tag, ReadGroup(tag + 1, b, depth - 1).value, depth);
    }
  }

  lemma SelfReadInGroup(end: nat, tag: nat, u: seq<Byte>, rest: seq<Byte>, depth: nat)
    requires tag < U32 && SelfRead(tag, u, depth) && tag != end && tag != 0 && tag % 8 != 4
    ensures ReadGroup(end, u + rest, depth) == Then(u, |u|, ReadGroup(end, rest, depth))
  {
    var k := |Varint(tag)|;
    assert u + rest == Varint(tag) + (u[k..] + rest);
    TagReads(tag, u[k..] + rest);
    UnknownStable(tag, u[k..], rest, depth);
    Tail(u, rest, k);
    Tail(u, rest, |u|);
    assert u[|u|..] + rest == rest;
    GroupFirst(end, u + rest, depth, tag, k, u, |u| - k);
  }

  lemma GroupEnds(end: nat, depth: nat)
    requires end < U32
    ensures ReadGroup(end, Varint(end), depth) == Got([], |Varint(end)|)
  {
    TagReads(end, []);
    assert Varint(end) + [] == Varint(end);
  }

  /** c, followed by the bytes e of the end tag, is its own canonical form. */
  predicate GroupSelf(end: nat, c: seq<Byte>, e: seq<Byte>, depth: nat) {
    ReadGroup(end, c + e, depth) == Got(c, |c| + |e|)
  }

  lemma Regroup(u: seq<Byte>, rest: seq<Byte>, e: seq<Byte>)
    ensures u + (rest + e) == (u + rest) + e
  {
  }

  lemma GroupSelfMore(end: nat, tag: nat, u: seq<Byte>, rest: seq<Byte>, e: seq<Byte>, depth: nat)
    requires tag < U32 && SelfRead(tag, u, depth) && tag != end && tag != 0 && tag % 8 != 4
    requires GroupSelf(end, rest, e, depth)
    ensures GroupSelf(end, u + rest, e, depth)
  {
    SelfReadInGroup(end, tag, u, rest + e, depth);
    Regroup(u, rest, e);
  }

  lemma {:induction false} GroupCanonical(end: nat, b: seq<Byte>, depth: nat)
    requires end < U32 && ReadGroup(end, b, depth).Got?
    ensures GroupSelf(end, ReadGroup(end, b, depth).value, Varint(end), depth)
    decreases |b|, 0
  {
    var t := ReadTag(b);
    if t.value == end {
      GroupEnds(end, depth);
      assert [] + Varint(end) == Varint(end);
    } else {
      var u := ReadUnknown(t.value, b[t.used..], depth);
      var rest := b[t.used + u.used..];
      GroupFirst(end, b, depth, t.value, t.used, u.value, u.used);
      UnknownCanonical(t.value, b[t.used..], depth);
      GroupCanonical(end, rest, depth);
      GroupSelfMore(end, t.value, u.value, ReadGroup(end, rest, depth).value, Varint(end), depth);
    }
  }

  /** Tags that are left to the parser of unknown fields. */
  predicate Foreign(tag: nat) {
    tag < U32 && tag !in {0, 10, 16, 18, 24, 26} && tag % 8 != 4
  }

  lemma ForeignBody(tag: nat, b: seq<Byte>)
    requires tag < U32 && ReadBody(tag, b).Got?
    ensures ReadBody(tag, b).value.Unknown? ==>
              && Foreign(tag) && ReadUnknown(tag, b, RECURSION).Got?
              && ReadUnknown(tag, b, RECURSION).value == ReadBody(tag, b).value.raw
  {
  }

  lemma ForeignSelfRead(tag: nat, u: seq<Byte>, body: seq<Byte>)
    requires Foreign(tag) && u == Varint(tag) + body && ReadUnknown(tag, body, RECURSION) == Got(u, |body|)
    ensures Canonical(u)
  {
    FieldReads(tag, body, Unknown(u));
    FieldParses(u, Unknown(u));
  }

  lemma FieldCanonical(b: seq<Byte>)
    requires ReadField(b).Got? && ReadField(b).value.Unknown?
    ensures Canonical(ReadField(b).value.raw)
  {
    var t, u := ReadTag(b), ReadField(b).value.raw;
    var k := |Varint(t.value)|;
    ForeignBody(t.value, b[t.used..]);
    UnknownCanonical(t.value, b[t.used..], RECURSION);
    assert u == Varint(t.value) + u[k..];
    ForeignSelfRead(t.value, u, u[k..]);
  }

  lemma CanonicalAppend(u: seq<Byte>, v: seq<Byte>)
    requires Canonical(u) && Canonical(v)
    ensures Canonical(u + v)
  {
    ParseAppend(u, v);
  }

  lemma UnknownFirst(b: seq<Byte>, f: Field, n: nat)
    requires ReadField(b) == Got(f, n) && Parse(b).Some?
    ensures Parse(b[n..]).Some?
    ensures Parse(b).value.unknown == OfField(f).unknown + Parse(b[n..]).value.unknown
  {
    ParseFirst(b, f, n);
  }

  lemma CanonicalFirst(b: seq<Byte>, f: Field, n: nat)
    requires ReadField(b) == Got(f, n) && Parse(b).Some?
    requires Parse(b[n..]).Some? && Canonical(Parse(b[n..]).value.unknown)
    ensures Canonical(OfField(f).unknown + Parse(b[n..]).value.unknown)
  {
    var rest := Parse(b[n..]).value.unknown;
    if f.Unknown? {
      FieldCanonical(b);
      CanonicalAppend(f.raw, rest);
    } else {
      assert [] + rest == rest;
    }
  }

  /** Whatever was parsed, with any non-minimal encodings, keeps its unknown fields in
      canonical form, so that writing it out and parsing it again returns the same message. */
  lemma {:induction false} ParsedIsCanonical(b: seq<Byte>)
    requires Parse(b).Some?
    ensures Canonical(Parse(b).value.unknown)
  {
    if b != [] {
      var r := ReadField(b);
      UnknownFirst(b, r.value, r.used);
      ParsedIsCanonical(b[r.used..]);
      CanonicalFirst(b, r.value, r.used);
    }
  }

  lemma ReparseReturns(b: seq<Byte>)
    requires Parse(b).Some? && ByteSize(Parse(b).value) <= MAX_INT
    ensures Parse(Serialize(Parse(b).value)) == Parse(b)
  {
    ParsedIsCanonical(b);
    RoundTrip(Parse(b).value);
  }

  /** The unpacked form of a list, one tag for each value. */
  function Unpacked(tag: Byte, vs: seq<Word>): seq<Byte> {
    if vs == [] then [] else [tag] + Varint(vs[0]) + Unpacked(tag, vs[1..])
  }

  // ----- fields the message does not know -------------------------------------------------------------------

  /** Bytes of a field of fixed length, by wire type. */
  function FixedLength(wire: nat): nat { if wire == 1 then 8 else if wire == 5 then 4 else 0 }

  lemma UnknownTag(tag: nat, rest: seq<Byte>)
    requires 8 <= tag < U32 && tag % 8 in {1, 4, 5, 6, 7}
    ensures var b := Varint(tag) + rest;
            && ReadTag(b) == Got(tag, |Varint(tag)|) && b[|Varint(tag)|..] == rest
            && (tag % 8 != 4 ==> ReadBody(tag, rest) == match ReadUnknown(tag, rest, RECURSION)
                                                       case Fail => Fail
                                                       case Got(u, n) => Got(Unknown(u), n))
            && (tag % 8 == 4 ==> ReadBody(tag, rest).Fail?)
  {
    TagShort(tag);
    VarintReads(tag, rest, 5);
    ResidueOf(tag, 0, tag, U32);
  }

  /** A field with 8 or 4 bytes of data and any field number but 0 is kept as it is. */
  lemma FixedFieldKept(tag: nat, data: seq<Byte>)
    requires 8 <= tag < U32 && tag % 8 in {1, 5} && |data| == FixedLength(tag % 8)
    ensures Canonical(Varint(tag) + data)
  {
    var u := Varint(tag) + data;
    UnknownTag(tag, data);
    assert data[..|data|] == data;
    assert ReadField(u) == Got(Unknown(u), |u|);
    FieldParses(u, Unknown(u));
  }

  /** A field that is cut short, has a reserved wire type or ends a group that was not opened does not
      parse. */
  lemma MalformedFails(tag: nat, rest: seq<Byte>)
    requires 8 <= tag < U32
    requires tag % 8 in {4, 6, 7} || (tag % 8 in {1, 5} && |rest| < FixedLength(tag % 8))
    ensures Parse(Varint(tag) + rest) == None
  {
    UnknownTag(tag, rest);
    assert ReadField(Varint(tag) + rest).Fail?;
  }

  const OPEN: Byte := 35    // Key(4, 3) starts a group
  const CLOSE: Byte := 36   // Key(4, 4) ends it

  /** k groups of field 4 inside each other. */
  function Nested(k: nat): (r: seq<Byte>)
    ensures |r| == 2 * k
  {
    if k == 0 then [] else [OPEN] + Nested(k - 1) + [CLOSE]
  }

  lemma OneByteTag(tag: Byte, rest: seq<Byte>)
    requires tag < 128
    ensures ReadTag([tag] + rest) == Got(tag, 1) && ([tag] + rest)[1..] == rest
  {
    ResidueOf(tag, 0, tag, U32);
  }

  lemma OuterGroup(k: nat, tail: seq<Byte>)
    requires k > 0
    ensures Nested(k) + tail == [OPEN] + (Nested(k - 1) + ([CLOSE] + tail))
  {
    var a, b, c := [OPEN], Nested(k - 1), [CLOSE];
    assert (a + b + c) + tail == a + (b + (c + tail));
  }

  /** What is read of a group that holds `k` levels, with `n` bytes in front of them. */
  predicate ReadsLevels(r: Read<seq<Byte>>, k: nat, depth: int, n: nat) {
    (r.Got? <==> k <= depth) && (r.Got? ==> r.used == 2 * k + n)
  }

  lemma LevelEnds(depth: nat, rest: seq<Byte>)
    ensures ReadGroup(CLOSE, [CLOSE] + rest, depth) == Got([], 1)
  {
    OneByteTag(CLOSE, rest);
  }

  lemma LevelOpens(depth: nat, inner: seq<Byte>)
    ensures ReadGroup(CLOSE, [OPEN] + inner, depth) == ReadEntries(CLOSE, OPEN, inner, depth, 1)
  {
    OneByteTag(OPEN, inner);
    GroupOpens(CLOSE, [OPEN] + inner, depth, OPEN, 1);
  }

  lemma NoLevelLeft(inner: seq<Byte>)
    ensures ReadEntries(CLOSE, OPEN, inner, 0, 1).Fail?
  {
  }

  lemma AfterLevels(k: nat, inner: seq<Byte>, tail: seq<Byte>)
    requires k > 0 && inner == Nested(k - 1) + ([CLOSE] + tail)
    ensures 2 * k - 1 <= |inner| && inner[2 * k - 1..] == tail
  {
  }

  lemma EntriesOfLevel(inner: seq<Byte>, depth: nat, g: Read<seq<Byte>>, rest: Read<seq<Byte>>)
    requires depth > 0 && g == ReadGroup(CLOSE, inner, depth - 1)
    requires g.Got? ==> rest == ReadGroup(CLOSE, inner[g.used..], depth)
    ensures var r := ReadEntries(CLOSE, OPEN, inner, depth, 1);
            (g.Fail? ==> r.Fail?) && (g.Got? && rest.Got? ==> r.Got? && r.used == 1 + g.used + rest.used)
  {
  }

  lemma NestedEntries(inner: seq<Byte>, k: nat, depth: nat, g: Read<seq<Byte>>, tail: seq<Byte>)
    requires k > 0 && depth > 0 && 2 * k - 1 <= |inner| && inner[2 * k - 1..] == tail
    requires g == ReadGroup(CLOSE, inner, depth - 1) && ReadsLevels(g, k - 1, depth - 1, 1)
    requires ReadGroup(CLOSE, tail, depth) == Got([], 1)
    ensures ReadsLevels(ReadEntries(CLOSE, OPEN, inner, depth, 1), k, depth, 1)
  {
    EntriesOfLevel(inner, depth, g, Got([], 1));
  }

  lemma NestedStep(inner: seq<Byte>, k: nat, depth: nat, rest: seq<Byte>)
    requires k > 0 && 2 * k - 1 <= |inner| && inner[2 * k - 1..] == [CLOSE] + rest
    requires depth > 0 ==> ReadsLevels(ReadGroup(CLOSE, inner, depth - 1), k - 1, depth - 1, 1)
    ensures ReadsLevels(ReadGroup(CLOSE, [OPEN] + inner, depth), k, depth, 1)
  {
    LevelOpens(depth, inner);
    if depth == 0 {
      NoLevelLeft(inner);
    } else {
      LevelEnds(depth, rest);
      NestedEntries(inner, k, depth, ReadGroup(CLOSE, inner, depth - 1), [CLOSE] + rest);
    }
  }

  lemma {:induction false} NestedGroup(k: nat, depth: nat, rest: seq<Byte>)
    ensures ReadsLevels(ReadGroup(CLOSE, Nested(k) + ([CLOSE] + rest), depth), k, depth, 1)
  {
    var tail := [CLOSE] + rest;
    if k == 0 {
      assert Nested(k) + tail == tail;
      LevelEnds(depth, rest);
    } else {
      var inner := Nested(k - 1) + ([CLOSE] + tail);
      OuterGroup(k, tail);
      AfterLevels(k, inner, tail);
      if depth > 0 {
        NestedGroup(k - 1, depth - 1, tail);
      }
      NestedStep(inner, k, depth, rest);
    }
  }

  lemma GroupBody(b: seq<Byte>)
    ensures var r, g := ReadBody(OPEN, b), ReadGroup(CLOSE, b, RECURSION - 1);
            (r.Got? <==> g.Got?) && (g.Got? ==> r.used == g.used)
  {
  }

  lemma GroupField(b: seq<Byte>)
    ensures var r, g := ReadField([OPEN] + b), ReadGroup(CLOSE, b, RECURSION - 1);
            (r.Got? <==> g.Got?) && (g.Got? ==> r.used == g.used + 1)
  {
    OneByteTag(OPEN, b);
    GroupBody(b);
  }

  lemma WholeField(b: seq<Byte>)
    requires b != [] && (ReadField(b).Got? ==> ReadField(b).used == |b|)
    ensures Parse(b).Some? <==> ReadField(b).Got?
  {
    var r := ReadField(b);
    if r.Got? {
      FieldParses(b, r.value);
    }
  }

  lemma LevelsParse(inner: seq<Byte>, k: nat, depth: nat)
    requires k > 0 && |inner| == 2 * k - 1 && depth == RECURSION - 1
    requires ReadsLevels(ReadGroup(CLOSE, inner, depth), k - 1, depth, 1)
    ensures Parse([OPEN] + inner).Some? <==> k <= 100
  {
    GroupField(inner);
    WholeField([OPEN] + inner);
  }

  lemma NestedParses(k: nat, none: seq<Byte>)
    requires k > 0 && none == []
    ensures Parse(Nested(k)).Some? <==> k <= 100
  {
    var inner := Nested(k - 1) + ([CLOSE] + none);
    OuterGroup(k, none);
    assert Nested(k) + none == Nested(k);
    NestedGroup(k - 1, RECURSION - 1, none);
    LevelsParse(inner, k, RECURSION - 1);
  }

  /** Groups parse up to exactly 100 levels. */
  lemma NestingLimit(k: nat)
    ensures Parse(Nested(k)).Some? <==> k <= 100
  {
    if k > 0 {
      NestedParses(k, []);
    }
  }

  lemma OneUnpackedParses(tag: Byte, v: Word)
    requires tag == 16 || tag == 24
    ensures Parse([tag] + Varint(v)) == Some(OfField(if tag == 16 then Ptrs([v]) else Sizes([v])))
  {
    WordReads(v, []);
    assert Varint(v) + [] == Varint(v);
    var f := if tag == 16 then Ptrs([v]) else Sizes([v]);
    FieldReads(tag, Varint(v), f);
    FieldParses([tag] + Varint(v), f);
  }

  lemma JoinLists(x: seq<Word>, y: seq<Word>)
    ensures Join(Some(OfField(Ptrs(x))), Some(OfField(Ptrs(y)))) == Some(OfField(Ptrs(x + y)))
    ensures Join(Some(OfField(Sizes(x))), Some(OfField(Sizes(y)))) == Some(OfField(Sizes(x + y)))
  {
    assert Merge(Msg([], x, [], []), Msg([], y, [], [])) == Msg([], x + y, [], []);
    assert Merge(Msg([], [], x, []), Msg([], [], y, [])) == Msg([], [], x + y, []);
  }

  lemma {:induction false} UnpackedParses(tag: Byte, vs: seq<Word>)
    requires tag == 16 || tag == 24
    ensures Parse(Unpacked(tag, vs)) == Some(OfField(if tag == 16 then Ptrs(vs) else Sizes(vs)))
  {
    if vs != [] {
      OneUnpackedParses(tag, vs[0]);
      UnpackedParses(tag, vs[1..]);
      ParseAppend([tag] + Varint(vs[0]), Unpacked(tag, vs[1..]));
      JoinLists([vs[0]], vs[1..]);
      assert vs == [vs[0]] + vs[1..];
    }
  }

  /** A list parses to the same message in packed and in unpacked form. */
  lemma PackedOrNot(vs: seq<Word>)
    requires |Packed(vs)| <= MAX_INT
    ensures Parse(Unpacked(16, vs)) == Parse(ListBytes(18, vs))
    ensures Parse(Unpacked(24, vs)) == Parse(ListBytes(26, vs))
  {
    UnpackedParses(16, vs);
    UnpackedParses(24, vs);
    ListParses(18, vs);
    ListParses(26, vs);
  }
}
