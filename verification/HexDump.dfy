/** The hexadecimal dump: 77 characters a line, 16 bytes a line, written into one buffer by a
    chain of bounded prints. */
module HexDump {
  import opened Bits
  import opened Common

  function NumLines(size: nat): nat { (size + 15) / 16 }

  // ----- digits ---------------------------------------------------------------------------------

  function HexDigit(d: nat): (c: char)
    requires d < 16
    ensures c != '\0' && c != ' '
  {
    "0123456789ABCDEF"[d]
  }

  function DigitValue(c: char): Option<nat> {
    if '0' <= c <= '9' then Some(c as nat - '0' as nat)
    else if 'A' <= c <= 'F' then Some(c as nat - 'A' as nat + 10)
    else None
  }

  lemma DigitReads(d: nat)
    requires d < 16
    ensures DigitValue(HexDigit(d)) == Some(d)
  {
  }

  /** %lX */
  function Digits(n: nat): (s: string)
    ensures |s| >= 1
  {
    if n < 16 then [HexDigit(n)] else Digits(n / 16) + [HexDigit(n % 16)]
  }

  function Zeros(k: nat): (s: string)
    ensures |s| == k
  {
    if k == 0 then "" else Zeros(k - 1) + "0"
  }

  /** %08lX */
  function Padded(n: nat): (s: string)
    ensures |s| >= 8
  {
    if |Digits(n)| < 8 then Zeros(8 - |Digits(n)|) + Digits(n) else Digits(n)
  }

  /** The ten characters of the offset that are not overwritten. */
  function Offset(i: nat): (s: string)
    ensures |s| == 10
  {
    (Padded(i * 16) + ": ")[..10]
  }

  function ReadHex(s: string): nat {
    if s == "" then 0
    else 16 * ReadHex(s[..|s| - 1]) + match DigitValue(s[|s| - 1]) case None => 0 case Some(d) => d
  }

  function Pow16(k: nat): nat { if k == 0 then 1 else 16 * Pow16(k - 1) }

  lemma {:induction false} ReadHexBound(s: string)
    ensures ReadHex(s) < Pow16(|s|)
  {
    if s != "" {
      ReadHexBound(s[..|s| - 1]);
    }
  }

  lemma ReadAppend(s: string, d: nat)
    requires d < 16
    ensures ReadHex(s + [HexDigit(d)]) == 16 * ReadHex(s) + d
  {
    DigitReads(d);
    assert (s + [HexDigit(d)])[..|s|] == s;
  }

  lemma {:induction false} DigitsRead(n: nat, k: nat)
    ensures ReadHex(Zeros(k) + Digits(n)) == n
  {
    if n >= 16 {
      DigitsRead(n / 16, k);
      ReadAppend(Zeros(k) + Digits(n / 16), n % 16);
      assert Zeros(k) + Digits(n) == (Zeros(k) + Digits(n / 16)) + [HexDigit(n % 16)];
    } else {
      ZerosRead(k);
      ReadAppend(Zeros(k), n);
    }
  }

  lemma {:induction false} ZerosRead(k: nat)
    ensures ReadHex(Zeros(k)) == 0
  {
    if k > 0 {
      ZerosRead(k - 1);
      assert Zeros(k)[..k - 1] == Zeros(k - 1);
    }
  }

  lemma {:induction false} DigitsShort(n: nat, k: nat)
    requires k >= 1
    ensures |Digits(n)| <= k <==> n < Pow16(k)
  {
    if k > 1 && n >= 16 {
      DigitsShort(n / 16, k - 1);
    } else {
      Pow16Positive(k - 1);
    }
  }

  lemma {:induction false} Pow16Positive(k: nat)
    ensures Pow16(k) >= 1
  {
    if k > 0 {
      Pow16Positive(k - 1);
    }
  }

  /** The offset column shows the line's offset if and only if that is below 2^32: a longer
      offset pushes its last digits into the bytes that follow, which overwrite them. */
  lemma OffsetReadableIff(i: nat)
    ensures ReadHex(Offset(i)[..8]) == i * 16 <==> i * 16 < U32
  {
    var n := i * 16;
    assert Pow16(8) == U32;
    DigitsShort(n, 8);
    if n < U32 {
      DigitsRead(n, 8 - |Digits(n)|);
      assert Zeros(8 - |Digits(n)|) + Digits(n) == Padded(n);
      assert Offset(i)[..8] == Padded(n);
    } else {
      ReadHexBound(Offset(i)[..8]);
    }
  }

  // ----- the text of a dump ---------------------------------------------------------------------------

  function HexCell(data: seq<Byte>, k: nat): (s: string)
    ensures |s| == 3
  {
    if k < |data| then [HexDigit(data[k] / 16), HexDigit(data[k] % 16), ' '] else "   "
  }

  function Printable(data: seq<Byte>, k: nat): (c: char)
    ensures c != '\0'
  {
    if k >= |data| then ' '
    else if 32 <= data[k] <= 126 then data[k] as char
    else '.'
  }

  /** The printable characters of n bytes from byte k on. */
  function Chars(data: seq<Byte>, k: nat, n: nat): (s: string)
    ensures |s| == n
  {
    seq(n, j requires 0 <= j => Printable(data, k + j))
  }

  /** Eight cells from byte k on, and a space. */
  function GroupChar(data: seq<Byte>, k: nat, e: nat): char
    requires e < 25
  {
    if e == 24 then ' ' else HexCell(data, k + e / 3)[e % 3]
  }

  /** Column c of line i: the offset, two groups, the printable characters, a newline. */
  function CharAt(data: seq<Byte>, i: nat, c: nat): char
    requires c < 77
  {
    if c < 10 then Offset(i)[c]
    else if c < 35 then GroupChar(data, 16 * i, c - 10)
    else if c < 60 then GroupChar(data, 16 * i + 8, c - 35)
    else if c < 76 then Printable(data, 16 * i + (c - 60))
    else '\n'
  }

  /** All lines, the last one without its newline. */
  function Dump(data: seq<Byte>): (s: string)
    requires |data| > 0
    ensures |s| == 77 * NumLines(|data|) - 1
  {
    seq(77 * NumLines(|data|) - 1, p requires 0 <= p => CharAt(data, p / 77, p % 77))
  }

  lemma {:induction false} DigitsNotNul(n: nat, k: nat)
    requires k < |Digits(n)|
    ensures Digits(n)[k] != '\0'
  {
    if n >= 16 && k < |Digits(n)| - 1 {
      DigitsNotNul(n / 16, k);
    }
  }

  lemma {:induction false} ZerosNotNul(n: nat, k: nat)
    requires k < n
    ensures Zeros(n)[k] != '\0'
  {
    if k < n - 1 {
      ZerosNotNul(n - 1, k);
    }
  }

  lemma PaddedNotNul(n: nat, c: nat)
    requires c < |Padded(n)|
    ensures Padded(n)[c] != '\0'
  {
    var zeros := if |Digits(n)| < 8 then 8 - |Digits(n)| else 0;
    if c < zeros {
      ZerosNotNul(zeros, c);
    } else {
      DigitsNotNul(n, c - zeros);
    }
  }

  lemma OffsetNotNul(i: nat, c: nat)
    requires c < 10
    ensures Offset(i)[c] != '\0'
  {
    var s, t := Padded(i * 16), ": ";
    assert Offset(i)[c] == (s + t)[c];
    if c < |s| {
      PaddedNotNul(i * 16, c);
    } else {
      assert (s + t)[c] == t[c - |s|];
    }
  }

  /** The C string does not end early. */
  lemma NoInteriorNul(data: seq<Byte>, p: nat)
    requires |data| > 0 && p < |Dump(data)|
    ensures Dump(data)[p] != '\0'
  {
    var i, c := p / 77, p % 77;
    if c < 10 {
      OffsetNotNul(i, c);
    }
  }

  // ----- where the parts of the text stand ------------------------------------------------------------

  type Text = nat -> char

  /** s stands in the text from column `at` on. */
  ghost predicate Reads(text: Text, at: nat, s: string) {
    forall c: nat :: c < |s| ==> text(at + c) == s[c]
  }

  ghost predicate CellAt(text: Text, at: nat, data: seq<Byte>, k: nat, j: nat) {
    Reads(text, at + 3 * j, HexCell(data, k + j))
  }

  ghost predicate GroupAt(text: Text, at: nat, data: seq<Byte>, k: nat) {
    (forall j: nat :: j < 8 ==> CellAt(text, at, data, k, j)) && text(at + 24) == ' '
  }

  ghost predicate Parts(text: Text, at: nat, offset: string, data: seq<Byte>, k: nat, chars: string) {
    && Reads(text, at, offset) && GroupAt(text, at + 10, data, k) && GroupAt(text, at + 35, data, k + 8)
    && Reads(text, at + 60, chars) && text(at + 76) == '\n'
  }

  ghost predicate IsLine(text: Text, at: nat, data: seq<Byte>, i: nat) {
    Parts(text, at, Offset(i), data, 16 * i, Chars(data, 16 * i, 16))
  }

  ghost predicate LineAt(text: Text, data: seq<Byte>, i: nat) {
    IsLine(text, 77 * i, data, i)
  }

  lemma CellInGroup(text: Text, at: nat, data: seq<Byte>, k: nat, j: nat)
    requires j < 8 && forall e: nat :: e < 25 ==> text(at + e) == GroupChar(data, k, e)
    ensures CellAt(text, at, data, k, j)
  {
    var cell := HexCell(data, k + j);
    forall d: nat | d < |cell| ensures text(at + 3 * j + d) == cell[d] {
      ResidueOf(3 * j + d, j, d, 3);
      assert text(at + (3 * j + d)) == GroupChar(data, k, 3 * j + d);
    }
  }

  lemma GroupChars(text: Text, at: nat, data: seq<Byte>, k: nat)
    requires forall e: nat :: e < 25 ==> text(at + e) == GroupChar(data, k, e)
    ensures GroupAt(text, at, data, k)
  {
    forall j: nat | j < 8 ensures CellAt(text, at, data, k, j) {
      CellInGroup(text, at, data, k, j);
    }
    assert text(at + 24) == GroupChar(data, k, 24);
  }

  lemma LineGroup(line: Text, data: seq<Byte>, i: nat, a: nat, k: nat)
    requires forall c: nat :: c < 77 ==> line(c) == CharAt(data, i, c)
    requires (a == 10 && k == 16 * i) || (a == 35 && k == 16 * i + 8)
    ensures GroupAt(line, a, data, k)
  {
    forall e: nat | e < 25 ensures line(a + e) == GroupChar(data, k, e) {
      assert line(a + e) == CharAt(data, i, a + e);
    }
    GroupChars(line, a, data, k);
  }

  lemma LineStart(line: Text, data: seq<Byte>, i: nat)
    requires forall c: nat :: c < 77 ==> line(c) == CharAt(data, i, c)
    ensures Reads(line, 0, Offset(i))
  {
    var s := Offset(i);
    forall c: nat | c < |s| ensures line(0 + c) == s[c] {
      assert line(c) == CharAt(data, i, c);
    }
  }

  lemma LineEnd(line: Text, data: seq<Byte>, i: nat)
    requires forall c: nat :: c < 77 ==> line(c) == CharAt(data, i, c)
    ensures Reads(line, 60, Chars(data, 16 * i, 16)) && line(76) == '\n'
  {
    var s := Chars(data, 16 * i, 16);
    forall c: nat | c < |s| ensures line(60 + c) == s[c] {
      assert line(60 + c) == CharAt(data, i, 60 + c);
    }
  }

  lemma LineChars(line: Text, data: seq<Byte>, i: nat)
    requires forall c: nat :: c < 77 ==> line(c) == CharAt(data, i, c)
    ensures IsLine(line, 0, data, i)
  {
    LineStart(line, data, i);
    LineGroup(line, data, i, 10, 16 * i);
    LineGroup(line, data, i, 35, 16 * i + 8);
    LineEnd(line, data, i);
  }

  lemma ShiftReads(text: Text, line: Text, at: nat, a: nat, s: string)
    requires (forall c: nat :: c < 77 ==> text(at + c) == line(c)) && Reads(line, a, s) && a + |s| <= 77
    ensures Reads(text, at + a, s)
  {
    forall c: nat | c < |s| ensures text(at + a + c) == s[c] {
      assert text(at + (a + c)) == line(a + c);
    }
  }

  lemma ShiftGroup(text: Text, line: Text, at: nat, a: nat, data: seq<Byte>, k: nat)
    requires (forall c: nat :: c < 77 ==> text(at + c) == line(c)) && GroupAt(line, a, data, k) && a + 25 <= 77
    ensures GroupAt(text, at + a, data, k)
  {
    var b := at + a;
    forall j: nat | j < 8 ensures CellAt(text, b, data, k, j) {
      assert CellAt(line, a, data, k, j);
      ShiftReads(text, line, at, a + 3 * j, HexCell(data, k + j));
    }
    assert text(at + (a + 24)) == line(a + 24);
  }

  lemma ShiftParts(text: Text, line: Text, at: nat, offset: string, data: seq<Byte>, k: nat, chars: string)
    requires (forall c: nat :: c < 77 ==> text(at + c) == line(c)) && Parts(line, 0, offset, data, k, chars)
    requires |offset| == 10 && |chars| == 16
    ensures Parts(text, at, offset, data, k, chars)
  {
    ShiftReads(text, line, at, 0, offset);
    ShiftGroup(text, line, at, 10, data, k);
    ShiftGroup(text, line, at, 35, data, k + 8);
    ShiftReads(text, line, at, 60, chars);
    assert text(at + 76) == line(76);
  }

  lemma TextAt(text: Text, rows: (nat, nat) -> char, line: Text, i: nat)
    requires (forall p: nat :: text(p) == rows(p / 77, p % 77)) && (forall c: nat :: line(c) == rows(i, c))
    ensures forall c: nat :: c < 77 ==> text(77 * i + c) == line(c)
  {
    var at := 77 * i;
    forall c: nat | c < 77 ensures text(at + c) == line(c) {
      ResidueOf(at + c, i, c, 77);
    }
  }

  lemma LineFrom(text: Text, line: Text, at: nat, data: seq<Byte>, i: nat)
    requires forall c: nat :: c < 77 ==> text(at + c) == line(c)
    requires forall c: nat :: c < 77 ==> line(c) == CharAt(data, i, c)
    ensures IsLine(text, at, data, i)
  {
    LineChars(line, data, i);
    ShiftParts(text, line, at, Offset(i), data, 16 * i, Chars(data, 16 * i, 16));
  }

  lemma LineOfRows(text: Text, rows: (nat, nat) -> char, data: seq<Byte>, i: nat)
    requires forall p: nat :: text(p) == rows(p / 77, p % 77)
    requires forall c: nat :: c < 77 ==> rows(i, c) == CharAt(data, i, c)
    ensures LineAt(text, data, i)
  {
    var line: Text := (c: nat) => rows(i, c);
    TextAt(text, rows, line, i);
    LineFrom(text, line, 77 * i, data, i);
  }

  /** The dump and its last newline as one text. */
  lemma WholeText(data: seq<Byte>) returns (text: Text)
    requires |data| > 0
    ensures forall i: nat :: LineAt(text, data, i)
    ensures forall p: nat :: p < |Dump(data)| ==> text(p) == Dump(data)[p]
  {
    var rows: (nat, nat) -> char := (i: nat, c: nat) => if c < 77 then CharAt(data, i, c) else '\n';
    text := (p: nat) => rows(p / 77, p % 77);
    forall i: nat ensures LineAt(text, data, i) {
      LineOfRows(text, rows, data, i);
    }
  }

  // ----- reading a dump back ------------------------------------------------------------------------

  /** Where the first digit of byte j of a line stands in the line. */
  function CellColumn(j: nat): nat { 10 + 3 * j + if j >= 8 then 1 else 0 }

  function Column(k: nat): nat { 77 * (k / 16) + CellColumn(k % 16) }

  function CellValue(hi: char, lo: char): Option<Byte> {
    match (DigitValue(hi), DigitValue(lo))
    case (Some(h), Some(l)) => if h < 16 && l < 16 then Some(16 * h + l) else None
    case _ => None
  }

  function ByteAtColumn(s: string, p: nat): Option<Byte> {
    if p + 1 >= |s| then None else CellValue(s[p], s[p + 1])
  }

  function ByteAt(s: string, k: nat): Option<Byte> {
    ByteAtColumn(s, Column(k))
  }

  /** The bytes shown from byte k on, up to the first cell without digits. */
  function Decode(s: string, k: nat): seq<Byte>
    decreases |s| - Column(k)
  {
    match ByteAt(s, k)
    case None => []
    case Some(x) => ColumnGrows(k); [x] + Decode(s, k + 1)
  }

  lemma ColumnGrows(k: nat)
    ensures Column(k) < Column(k + 1)
  {
    StepSlot(k, 16);
  }

  lemma CellReads(data: seq<Byte>, k: nat)
    ensures CellValue(HexCell(data, k)[0], HexCell(data, k)[1]) == if k < |data| then Some(data[k]) else None
  {
    if k < |data| {
      DigitReads(data[k] / 16);
      DigitReads(data[k] % 16);
    }
  }

  lemma CellInLine(text: Text, at: nat, data: seq<Byte>, first: nat, j: nat, p: nat, k: nat)
    requires j < 16 && GroupAt(text, at + 10, data, first) && GroupAt(text, at + 35, data, first + 8)
    requires p == at + CellColumn(j) && k == first + j
    ensures Reads(text, p, HexCell(data, k))
  {
    if j < 8 {
      assert CellAt(text, at + 10, data, first, j);
    } else {
      assert CellAt(text, at + 35, data, first + 8, j - 8);
      assert p == at + 35 + 3 * (j - 8) && k == first + 8 + (j - 8);
    }
  }

  lemma ColumnOf(i: nat, j: nat)
    requires j < 16
    ensures Column(16 * i + j) == 77 * i + CellColumn(j)
  {
    ResidueOf(16 * i + j, i, j, 16);
  }

  /** s shows exactly these bytes. */
  ghost predicate Shows(s: string, data: seq<Byte>) {
    forall k: nat :: ByteAt(s, k) == if k < |data| then Some(data[k]) else None
  }

  lemma CellChars(text: Text, p: nat, cell: string)
    requires Reads(text, p, cell) && |cell| == 3
    ensures text(p) == cell[0] && text(p + 1) == cell[1] && text(p + 2) == cell[2]
  {
    assert text(p + 0) == cell[0];
  }

  /** The cell of byte k stands in column p. */
  lemma CellStands(s: string, text: Text, data: seq<Byte>, n: nat, k: nat, i: nat, j: nat, p: nat)
    requires |s| == 77 * n - 1 && i < n && j < 16 && k == 16 * i + j && p == 77 * i + CellColumn(j)
    requires GroupAt(text, 77 * i + 10, data, 16 * i) && GroupAt(text, 77 * i + 35, data, 16 * i + 8)
    requires forall p: nat :: p < |s| ==> text(p) == s[p]
    ensures p + 2 < |s| && s[p] == HexCell(data, k)[0] && s[p + 1] == HexCell(data, k)[1]
    ensures s[p + 2] == HexCell(data, k)[2]
  {
    CellInLine(text, 77 * i, data, 16 * i, j, p, k);
    CellChars(text, p, HexCell(data, k));
  }

  lemma ByteShown(s: string, data: seq<Byte>, k: nat, p: nat)
    requires p + 1 < |s| && s[p] == HexCell(data, k)[0] && s[p + 1] == HexCell(data, k)[1]
    ensures ByteAtColumn(s, p) == if k < |data| then Some(data[k]) else None
  {
    CellReads(data, k);
  }

  lemma ByteInText(s: string, text: Text, data: seq<Byte>, n: nat, k: nat, i: nat, j: nat, p: nat)
    requires |s| == 77 * n - 1 && |data| <= 16 * n && j < 16 && k == 16 * i + j && p == 77 * i + CellColumn(j)
    requires LineAt(text, data, i) && forall p: nat :: p < |s| ==> text(p) == s[p]
    ensures ByteAtColumn(s, p) == if k < |data| then Some(data[k]) else None
  {
    if i < n {
      CellStands(s, text, data, n, k, i, j, p);
      ByteShown(s, data, k, p);
    }
  }

  lemma ByteInDump(data: seq<Byte>, text: Text, k: nat, i: nat, j: nat)
    requires |data| > 0 && j < 16 && k == 16 * i + j && LineAt(text, data, i)
    requires forall p: nat :: p < |Dump(data)| ==> text(p) == Dump(data)[p]
    ensures ByteAt(Dump(data), k) == if k < |data| then Some(data[k]) else None
  {
    ColumnOf(i, j);
    ByteInText(Dump(data), text, data, NumLines(|data|), k, i, j, Column(k));
  }

  /** Every byte stands in its column, and nothing that looks like a byte stands after the last. */
  lemma DumpShows(data: seq<Byte>)
    requires |data| > 0
    ensures Shows(Dump(data), data)
  {
    var text := WholeText(data);
    forall k: nat ensures ByteAt(Dump(data), k) == if k < |data| then Some(data[k]) else None {
      ByteInDump(data, text, k, k / 16, k % 16);
    }
  }

  lemma {:induction false} DecodeShown(s: string, data: seq<Byte>, k: nat)
    requires Shows(s, data) && k <= |data|
    ensures Decode(s, k) == data[k..]
    decreases |data| - k
  {
    assert ByteAt(s, k) == if k < |data| then Some(data[k]) else None;
    if k < |data| {
      DecodeShown(s, data, k + 1);
      assert data[k..] == [data[k]] + data[k + 1..];
    }
  }

  /** The character of byte k: from ' ' to '~' the byte itself, otherwise a dot, and a space after
      the last byte. */
  predicate ShowsChar(c: char, data: seq<Byte>, k: nat) {
    if k >= |data| then c == ' ' else if 32 <= data[k] <= 126 then c as int == data[k] else c == '.'
  }

  lemma CharInLine(text: Text, at: nat, data: seq<Byte>, k: nat, j: nat, p: nat)
    requires Reads(text, at + 60, Chars(data, k, 16)) && j < 16 && p == at + 60 + j
    ensures ShowsChar(text(p), data, k + j)
  {
    assert text(at + 60 + j) == Chars(data, k, 16)[j];
  }

  lemma CharInText(s: string, text: Text, data: seq<Byte>, n: nat, i: nat, j: nat, p: nat)
    requires |s| == 77 * n - 1 && i < n && j < 16 && p == 77 * i + 60 + j && LineAt(text, data, i)
    requires forall q: nat :: q < |s| ==> text(q) == s[q]
    ensures p < |s| && ShowsChar(s[p], data, 16 * i + j)
  {
    CharInLine(text, 77 * i, data, 16 * i, j, p);
  }

  /** Columns 60 to 75 of every line show the characters of its bytes. */
  lemma CharacterColumn(data: seq<Byte>, i: nat, j: nat, p: nat)
    requires i < NumLines(|data|) && j < 16 && p == 77 * i + 60 + j
    ensures p < |Dump(data)| && ShowsChar(Dump(data)[p], data, 16 * i + j)
  {
    var text := WholeText(data);
    assert LineAt(text, data, i);
    CharInText(Dump(data), text, data, NumLines(|data|), i, j, p);
  }

  lemma OffsetTail(i: nat)
    requires 16 * i < U32
    ensures Offset(i)[8] == ':' && Offset(i)[9] == ' '
  {
    assert Pow16(8) == U32;
    DigitsShort(i * 16, 8);
    var s, t := Padded(i * 16), ": ";
    assert |s| == 8 && (s + t)[8] == t[0] && (s + t)[9] == t[1];
  }

  lemma SpacesInText(text: Text, data: seq<Byte>, i: nat)
    requires LineAt(text, data, i)
    ensures text(77 * i + 34) == ' ' && text(77 * i + 59) == ' ' && text(77 * i + 76) == '\n'
    ensures 16 * i < U32 ==> text(77 * i + 8) == ':' && text(77 * i + 9) == ' '
  {
    var at := 77 * i;
    assert text(at + 10 + 24) == ' ' && text(at + 35 + 24) == ' ';
    if 16 * i < U32 {
      OffsetTail(i);
      assert text(at + 8) == Offset(i)[8] && text(at + 9) == Offset(i)[9];
    }
  }

  /** What separates the parts of a line that starts at `at`: a colon and a space after an offset below
      2^32, a space after each group, and a newline unless it is the last line. */
  predicate Separated(s: string, at: nat, short: bool, last: bool)
    requires at + 76 <= |s|
  {
    && s[at + 34] == ' ' && s[at + 59] == ' '
    && (short ==> s[at + 8] == ':' && s[at + 9] == ' ')
    && (last || (at + 76 < |s| && s[at + 76] == '\n'))
  }

  lemma SeparatedInText(s: string, text: Text, data: seq<Byte>, n: nat, i: nat)
    requires |s| == 77 * n - 1 && i < n && LineAt(text, data, i)
    requires forall q: nat :: q < |s| ==> text(q) == s[q]
    ensures Separated(s, 77 * i, 16 * i < U32, i == n - 1)
  {
    SpacesInText(text, data, i);
  }

  lemma Separators(data: seq<Byte>, i: nat)
    requires i < NumLines(|data|)
    ensures Separated(Dump(data), 77 * i, 16 * i < U32, i == NumLines(|data|) - 1)
  {
    var text := WholeText(data);
    assert LineAt(text, data, i);
    SeparatedInText(Dump(data), text, data, NumLines(|data|), i);
  }

  lemma CellEnds(data: seq<Byte>, k: nat)
    ensures HexCell(data, k)[2] == ' '
    ensures k >= |data| ==> HexCell(data, k)[0] == ' ' && HexCell(data, k)[1] == ' '
  {
  }

  /** The cell at column p ends in a space, and is blank if `blank`. */
  predicate CellSpaced(s: string, p: nat, blank: bool) {
    p + 2 < |s| && s[p + 2] == ' ' && (blank ==> s[p] == ' ' && s[p + 1] == ' ')
  }

  lemma SpacedInText(s: string, text: Text, data: seq<Byte>, n: nat, k: nat, i: nat, j: nat, p: nat)
    requires |s| == 77 * n - 1 && i < n && j < 16 && k == 16 * i + j && p == 77 * i + CellColumn(j)
    requires GroupAt(text, 77 * i + 10, data, 16 * i) && GroupAt(text, 77 * i + 35, data, 16 * i + 8)
    requires forall p: nat :: p < |s| ==> text(p) == s[p]
    ensures CellSpaced(s, p, k >= |data|)
  {
    CellStands(s, text, data, n, k, i, j, p);
    CellEnds(data, k);
  }

  /** The third character of a cell is a space, and so are the other two after the last byte. */
  lemma CellBlanks(data: seq<Byte>, i: nat, j: nat)
    requires i < NumLines(|data|) && j < 16
    ensures CellSpaced(Dump(data), 77 * i + CellColumn(j), 16 * i + j >= |data|)
  {
    var text := WholeText(data);
    assert LineAt(text, data, i);
    SpacedInText(Dump(data), text, data, NumLines(|data|), 16 * i + j, i, j, 77 * i + CellColumn(j));
  }

  /** The dump can be read back, so different inputs have different dumps. */
  lemma RoundTrip(data: seq<Byte>)
    requires |data| > 0
    ensures Decode(Dump(data), 0) == data
  {
    DumpShows(data);
    DecodeShown(Dump(data), data, 0);
  }

  lemma Injective(a: seq<Byte>, b: seq<Byte>)
    requires |a| > 0 && |b| > 0 && Dump(a) == Dump(b)
    ensures a == b
  {
    RoundTrip(a);
    RoundTrip(b);
  }

  // ----- the buffer -----------------------------------------------------------------------------------------

  /** The byte overwritten last, one before the end of the text, lies in the buffer exactly for
      non-empty inputs: for an empty one it is the byte before the buffer. */
  lemma TerminatorInsideIff(size: nat)
    ensures 0 <= 77 * NumLines(size) - 1 < 77 * NumLines(size) + 1 <==> size > 0
  {
  }

  /** snprintf: at most room - 1 characters and a terminator. */
  method Print(buffer: array<char>, head: nat, room: nat, s: string)
    requires head + room == buffer.Length && room > 0
    modifies buffer
    ensures forall p :: 0 <= p < head ==> buffer[p] == old(buffer[p])
    ensures forall j :: 0 <= j < |s| && j < room - 1 ==> buffer[head + j] == s[j]
    ensures buffer[head + if |s| < room then |s| else room - 1] == '\0'
  {
    var n := if |s| < room then |s| else room - 1;
    for j := 0 to n
      invariant forall p :: 0 <= p < head ==> buffer[p] == old(buffer[p])
      invariant forall j' :: 0 <= j' < j ==> buffer[head + j'] == s[j']
    {
      buffer[head + j] := s[j];
    }
    buffer[head + n] := '\0';
  }

  // The methods below extend a buffer that holds a text up to `head`.

  ghost predicate Holds(buffer: array<char>, head: nat, text: Text)
    reads buffer
  {
    head <= buffer.Length && forall p: nat :: p < head ==> buffer[p] == text(p)
  }

  /** Print s and move on by n characters; what was printed beyond them will be overwritten. */
  method Append(buffer: array<char>, head: nat, s: string, n: nat, ghost text: Text)
    requires n <= |s| && head + n < buffer.Length && Holds(buffer, head, text) && Reads(text, head, s[..n])
    modifies buffer
    ensures Holds(buffer, head + n, text)
  {
    Print(buffer, head, buffer.Length - head, s);
    forall p: nat | head <= p < head + n ensures buffer[p] == text(p) {
      var c := p - head;
      assert text(head + c) == s[..n][c] && buffer[head + c] == s[c];
    }
  }

  method PrintCell(buffer: array<char>, head: nat, data: seq<Byte>, k: nat, j: nat, ghost text: Text)
    requires head + 3 * j + 3 < buffer.Length && Holds(buffer, head + 3 * j, text) && CellAt(text, head, data, k, j)
    modifies buffer
    ensures Holds(buffer, head + 3 * j + 3, text)
  {
    var cell := HexCell(data, k + j);
    assert cell[..3] == cell;
    Append(buffer, head + 3 * j, cell, 3, text);
  }

  /** One group of eight cells and its spacer; the printable characters are kept for later. */
  method PrintGroup(buffer: array<char>, ascii: array<char>, head: nat, data: seq<Byte>, k: nat, r: nat,
                    ghost text: Text)
    requires buffer != ascii && r + 8 <= ascii.Length && head + 25 < buffer.Length
    requires Holds(buffer, head, text) && GroupAt(text, head, data, k)
    modifies buffer, ascii
    ensures Holds(buffer, head + 25, text) && ascii[..r + 8] == old(ascii[..r]) + Chars(data, k, 8)
  {
    for j := 0 to 8
      invariant Holds(buffer, head + 3 * j, text)
      invariant ascii[..r + j] == old(ascii[..r]) + Chars(data, k, j)
    {
      assert CellAt(text, head, data, k, j);
      PrintCell(buffer, head, data, k, j, text);
      ascii[r + j] := Printable(data, k + j);
    }
    Append(buffer, head + 24, " ", 1, text);
  }

  lemma CharsSplit(data: seq<Byte>, k: nat)
    ensures Chars(data, k, 8) + Chars(data, k + 8, 8) == Chars(data, k, 16)
  {
  }

  /** The printable characters and the newline. */
  method PrintChars(buffer: array<char>, ascii: array<char>, head: nat, ghost text: Text)
    requires buffer != ascii && ascii.Length == 17 && head + 17 < buffer.Length
    requires Holds(buffer, head, text) && Reads(text, head, ascii[..16]) && text(head + 16) == '\n'
    modifies buffer, ascii
    ensures Holds(buffer, head + 17, text)
  {
    ascii[16] := '\0';
    var chars := ascii[..16] + "\n";
    Append(buffer, head, chars, 17, text);
  }

  /** Both groups of a line. */
  method PrintGroups(buffer: array<char>, ascii: array<char>, head: nat, data: seq<Byte>, k: nat, ghost text: Text)
    requires buffer != ascii && ascii.Length == 17 && head + 50 < buffer.Length && Holds(buffer, head, text)
    requires GroupAt(text, head, data, k) && GroupAt(text, head + 25, data, k + 8)
    modifies buffer, ascii
    ensures Holds(buffer, head + 50, text) && ascii[..16] == Chars(data, k, 16)
  {
    PrintGroup(buffer, ascii, head, data, k, 0, text);
    assert ascii[..8] == Chars(data, k, 8);
    PrintGroup(buffer, ascii, head + 25, data, k + 8, 8, text);
    CharsSplit(data, k);
  }

  method PrintOffset(buffer: array<char>, head: nat, i: nat, ghost text: Text)
    requires head + 10 < buffer.Length && Holds(buffer, head, text) && Reads(text, head, Offset(i))
    modifies buffer
    ensures Holds(buffer, head + 10, text)
  {
    Append(buffer, head, Padded(i * 16) + ": ", 10, text);
  }

  method PrintLine(buffer: array<char>, ascii: array<char>, head: nat, data: seq<Byte>, i: nat, ghost text: Text)
    requires buffer != ascii && ascii.Length == 17 && head + 77 < buffer.Length
    requires Holds(buffer, head, text) && IsLine(text, head, data, i)
    modifies buffer, ascii
    ensures Holds(buffer, head + 77, text)
  {
    PrintOffset(buffer, head, i, text);
    PrintGroups(buffer, ascii, head + 10, data, 16 * i, text);
    PrintChars(buffer, ascii, head + 60, text);
  }

  /** hex_dump. Every index is inside the buffer of 77 * lines + 1 characters, and what a
      reader of the C string sees is the dump. `memory` says whether the allocation succeeds. */
  method Write(data: seq<Byte>, memory: bool) returns (buffer: array?<char>)
    requires |data| > 0
    ensures buffer == null <==> !memory
    ensures buffer != null ==>
              && buffer.Length == 77 * NumLines(|data|) + 1
              && buffer[..|Dump(data)|] == Dump(data) && buffer[|Dump(data)|] == '\0'
  {
    if !memory {
      return null;
    }
    var lines := NumLines(|data|);
    buffer := new char[77 * lines + 1];
    var ascii := new char[17];
    ghost var text := WholeText(data);
    for i := 0 to lines
      invariant Holds(buffer, 77 * i, text)
    {
      assert LineAt(text, data, i);
      PrintLine(buffer, ascii, 77 * i, data, i, text);
    }
    buffer[77 * lines - 1] := '\0';
  }
}
