/** Unsigned machine arithmetic written out over natural numbers: bitwise AND and OR,
    masks of the form 2^k - 1, and the residue facts that ring indices rest on. */
module Bits {

  const U16 := 0x1_0000
  const U32 := 0x1_0000_0000
  const U64 := 0x1_0000_0000_0000_0000

  type Byte = x: nat | x < 256
  type Word = x: nat | x < U64

  function Pow2(n: nat): (r: nat)
    ensures r >= 1
  {
    if n == 0 then 1 else 2 * Pow2(n - 1)
  }

  function BitAnd(x: nat, y: nat): (r: nat)
    ensures r <= x && r <= y
    decreases x
  {
    if x == 0 || y == 0 then 0
    else 2 * BitAnd(x / 2, y / 2) + (if x % 2 == 1 && y % 2 == 1 then 1 else 0)
  }

  function BitOr(x: nat, y: nat): nat
    decreases x + y
  {
    if x == 0 && y == 0 then 0
    else 2 * BitOr(x / 2, y / 2) + (if x % 2 == 1 || y % 2 == 1 then 1 else 0)
  }

  lemma MulMonotone(a: int, b: int, m: int)
    requires a <= b && 0 <= m
    ensures a * m <= b * m
  {
  }

  lemma MulGap(a: int, b: int, m: int)
    requires a < b && 0 <= m
    ensures a * m + m <= b * m
  {
    MulMonotone(a + 1, b, m);
    assert (a + 1) * m == a * m + m;
  }

  lemma QuotientUnique(q: int, r: int, q': int, r': int, m: int)
    requires 0 <= r < m && 0 <= r' < m && q * m + r == q' * m + r'
    ensures q == q' && r == r'
  {
    if q < q' {
      MulGap(q, q', m);
    } else if q' < q {
      MulGap(q', q, m);
    }
  }

  /** The residue of a number known as quotient and remainder. */
  lemma ResidueOf(x: int, q: int, r: int, m: int)
    requires 0 <= r < m && x == q * m + r
    ensures x % m == r && x / m == q
  {
    var q', r' := x / m, x % m;
    assert x == m * q' + r';
    assert m * q' == q' * m;
    QuotientUnique(q, r, q', r', m);
  }

  lemma HalveResidue(x: nat, m: nat)
    requires m > 0
    ensures x % (2 * m) == 2 * ((x / 2) % m) + x % 2
  {
    var h := x / 2;
    assert h == m * (h / m) + h % m;
    assert x == 2 * h + x % 2;
    assert x == (h / m) * (2 * m) + (2 * (h % m) + x % 2);
    ResidueOf(x, h / m, 2 * (h % m) + x % 2, 2 * m);
  }

  lemma AndOdd(x: nat, m: nat)
    ensures BitAnd(x, 2 * m + 1) == 2 * BitAnd(x / 2, m) + x % 2
  {
    assert (2 * m + 1) / 2 == m && (2 * m + 1) % 2 == 1;
  }

  /** Masking with 2^k - 1 is the residue modulo 2^k. */
  lemma {:induction false} AndMask(x: nat, k: nat)
    ensures BitAnd(x, Pow2(k) - 1) == x % Pow2(k)
    decreases k
  {
    if k == 0 {
      assert Pow2(k) == 1;
    } else {
      var m := Pow2(k - 1);
      AndMask(x / 2, k - 1);
      HalveResidue(x, m);
      AndOdd(x, m - 1);
      assert Pow2(k) - 1 == 2 * (m - 1) + 1;
    }
  }

  lemma AndMask16(x: nat)
    ensures BitAnd(x, 0xffff) == x % U16
  {
    Pow2Words();
    AndMask(x, 16);
  }

  lemma {:induction false} OrZero(y: nat)
    ensures BitOr(0, y) == y && BitOr(y, 0) == y
  {
    if y > 0 {
      OrZero(y / 2);
    }
  }

  /** OR of two words without a common bit position is their sum. */
  lemma {:induction false} OrDisjoint(x: nat, hi: nat, k: nat)
    requires x < Pow2(k)
    ensures BitOr(x, hi * Pow2(k)) == x + hi * Pow2(k)
    decreases k
  {
    if k == 0 {
      OrZero(hi);
    } else {
      var y := hi * Pow2(k);
      assert y == 2 * (hi * Pow2(k - 1));
      OrDisjoint(x / 2, hi, k - 1);
      if x == 0 && y == 0 {
      } else {
        assert y / 2 == hi * Pow2(k - 1) && y % 2 == 0;
      }
    }
  }

  lemma {:induction false} Pow2Split(a: nat, b: nat)
    ensures Pow2(a + b) == Pow2(a) * Pow2(b)
    decreases b
  {
    if b > 0 {
      Pow2Split(a, b - 1);
      assert Pow2(a + b) == 2 * Pow2(a + (b - 1));
    }
  }

  lemma {:induction false} Pow2Monotone(a: nat, b: nat)
    requires a <= b
    ensures Pow2(a) <= Pow2(b)
    ensures a < b ==> 2 * Pow2(a) <= Pow2(b)
    decreases b - a
  {
    if a < b {
      Pow2Monotone(a + 1, b);
    }
  }

  lemma Pow2Words()
    ensures Pow2(8) == 256 && Pow2(16) == U16 && Pow2(32) == U32 && Pow2(48) == U32 * U16
    ensures Pow2(64) == U64
  {
    assert Pow2(4) == 16;
    Pow2Split(4, 4);
    Pow2Split(8, 8);
    Pow2Split(16, 16);
    Pow2Split(32, 16);
    Pow2Split(32, 32);
  }

  lemma Pow2Fits32(k: nat)
    requires k <= 32
    ensures Pow2(k) <= U32
  {
    Pow2Words();
    Pow2Monotone(k, 32);
  }

  /** A residue modulo 2^w keeps every residue modulo 2^k, k <= w: an index kept in a
      w-bit register selects the same ring slot as the unbounded counter. */
  lemma RegisterKeepsSlot(x: nat, k: nat, w: nat)
    requires k <= w
    ensures (x % Pow2(w)) % Pow2(k) == x % Pow2(k)
  {
    Pow2Split(k, w - k);
    ResidueOfMultiple(x, Pow2(k), Pow2(w - k));
  }

  lemma ResidueOfMultiple(x: int, m: nat, c: nat)
    requires m > 0 && c > 0
    ensures m * c > 0 && (x % (m * c)) % m == x % m
  {
    MulMonotone(1, c, m);
    var n := m * c;
    var y, q := x % n, x / n;
    var y', q' := y % m, y / m;
    assert x == q * n + y;
    assert y == q' * m + y';
    assert q * n == (q * c) * m by {
      assert q * (m * c) == (q * c) * m;
    }
    assert (q * c) * m + q' * m == (q * c + q') * m;
    ResidueOf(x, q * c + q', y', m);
  }

  lemma MaskedRegister(x: nat, k: nat, depth: nat, w: nat, word: nat)
    requires k <= w && depth == Pow2(k) && word == Pow2(w)
    ensures BitAnd(x % word, depth - 1) == x % depth
  {
    AndMask(x % word, k);
    RegisterKeepsSlot(x, k, w);
  }

  /** A masked uint32 or uint16 counter selects the slot of the unbounded counter. */
  lemma MaskedCounter(x: nat, k: nat, depth: nat)
    requires k <= 32 && depth == Pow2(k)
    ensures BitAnd(x % U32, depth - 1) == x % depth
  {
    Pow2Words();
    MaskedRegister(x, k, depth, 32, U32);
  }

  lemma MaskedCounter16(x: nat, k: nat, depth: nat)
    requires k <= 16 && depth == Pow2(k)
    ensures BitAnd(x % U16, depth - 1) == x % depth
  {
    Pow2Words();
    MaskedRegister(x, k, depth, 16, U16);
  }

  lemma ScaledResidue(p: nat, d: nat, a: nat, b: nat)
    requires d > 0 && b < a
    ensures a * d > 0 && (a * p + b) % (a * d) == a * (p % d) + b
  {
    MulMonotone(1, d, a);
    var q, r := p / d, p % d;
    assert p == d * q + r;
    assert a * p == a * (d * q) + a * r;
    assert a * (d * q) == q * (a * d);
    MulGap(r, d, a);
    ResidueOf(a * p + b, q, a * r + b, a * d);
  }

  /** Adding into a register that has already wrapped. */
  lemma WrapAdd(x: int, y: int, m: int)
    requires m > 0
    ensures (x % m + y) % m == (x + y) % m
  {
    var r := (x + y) % m;
    assert x + y == ((x + y) / m) * m + r;
    assert x == (x / m) * m + x % m;
    assert x % m + y == ((x + y) / m - x / m) * m + r;
    ResidueOf(x % m + y, (x + y) / m - x / m, r, m);
  }

  /** Subtracting two wrapped counters gives their true distance when it fits. */
  lemma WrapDistance(x: int, y: int, m: int)
    requires m > 0 && 0 <= x - y < m
    ensures (x % m - y % m) % m == x - y
  {
    WrapAdd(x, -(y % m), m);
    assert y == (y / m) * m + y % m;
    assert x - y % m == (y / m) * m + (x - y);
    ResidueOf(x - y % m, y / m, x - y, m);
  }

  /** Numbers less than one lap apart fall into different slots. */
  lemma DistinctSlots(i: int, j: int, m: int)
    requires m > 0 && i < j < i + m
    ensures i % m != j % m
  {
    var qi, qj := i / m, j / m;
    assert i == qi * m + i % m && j == qj * m + j % m;
    if qi < qj {
      MulGap(qi, qj, m);
    } else if qj < qi {
      MulGap(qj, qi, m);
    }
  }

  /** One lap further is the same slot, one quotient up. */
  lemma NextLap(i: int, m: int)
    requires m > 0
    ensures (i + m) % m == i % m && (i + m) / m == i / m + 1
  {
    assert i == (i / m) * m + i % m;
    assert i + m == (i / m + 1) * m + i % m;
    ResidueOf(i + m, i / m + 1, i % m, m);
  }

  /** Counting up by one either stays in the lap or starts the next one at slot 0. */
  lemma StepSlot(i: int, m: int)
    requires m > 0
    ensures (i + 1) % m == 0 ==> (i + 1) / m == i / m + 1
    ensures (i + 1) % m != 0 ==> (i + 1) / m == i / m && (i + 1) % m == i % m + 1
  {
    assert i == (i / m) * m + i % m;
    if i % m + 1 < m {
      assert i + 1 == (i / m) * m + (i % m + 1);
      ResidueOf(i + 1, i / m, i % m + 1, m);
    } else {
      assert i + 1 == (i / m + 1) * m;
      ResidueOf(i + 1, i / m + 1, 0, m);
    }
  }

  /** x % m written as repeated subtraction, which the solver unfolds in linear arithmetic. */
  function Mod(x: nat, m: nat): (r: nat)
    requires m > 0
    ensures r < m
  {
    if x < m then x else Mod(x - m, m)
  }

  lemma {:induction false} ModIs(x: nat, m: nat)
    requires m > 0
    ensures Mod(x, m) == x % m
  {
    if x >= m {
      ModIs(x - m, m);
      NextLap(x - m, m);
    } else {
      ResidueOf(x, 0, x, m);
    }
  }

  lemma ModNext(x: nat, m: nat)
    requires m > 0
    ensures Mod(Mod(x, m) + 1, m) == Mod(x + 1, m)
  {
    ModIs(x, m);
    ModIs(x % m + 1, m);
    ModIs(x + 1, m);
    WrapAdd(x, 1, m);
  }

  /** The unsigned difference of two registers that count modulo m. */
  lemma ModDistance(x: nat, y: nat, m: nat)
    requires m > 0 && 0 <= x - y < m
    ensures Mod(Mod(x, m) + m - Mod(y, m), m) == x - y
  {
    ModIs(x, m);
    ModIs(y, m);
    WrapDistance(x, y, m);
    ModIs(x % m + m - y % m, m);
    NextLap(x % m - y % m, m);
  }

  /** A register whose modulus is a multiple of m still picks the slot modulo m. */
  lemma ModOfMultiple(x: nat, m: nat, c: nat)
    requires m > 0 && c > 0
    ensures m * c > 0 && Mod(Mod(x, m * c), m) == Mod(x, m)
  {
    ResidueOfMultiple(x, m, c);
    ModIs(x, m * c);
    ModIs(x % (m * c), m);
    ModIs(x, m);
  }
}
