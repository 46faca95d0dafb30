/** Machine integers as bounded mathematical integers.  A C `uint32_t` is a
    `Word`, a byte a `Byte`; wrap-around, xor, or and shifts are written out, so
    that order and arithmetic stay linear for the verifier. */
module Words {
  type Word = x: int | 0 <= x < 0x1_0000_0000
  type Long = x: int | 0 <= x < 0x1_0000_0000_0000_0000
  type Byte = x: int | 0 <= x < 0x100

  const TWO32: nat := 0x1_0000_0000
  const TWO64: nat := 0x1_0000_0000_0000_0000

  function Pow2(n: nat): (p: nat)
    ensures p > 0
  {
    if n == 0 then 1 else 2 * Pow2(n - 1)
  }

  /** Bit `k` of `x`: its parity after k halvings. */
  function Bit(x: nat, k: nat): nat {
    if k == 0 then x % 2 else Bit(x / 2, k - 1)
  }

  function Xor(a: nat, b: nat): nat
    decreases a + b
  {
    if a == 0 && b == 0 then 0 else 2 * Xor(a / 2, b / 2) + (a + b) % 2
  }

  function Or(a: nat, b: nat): nat
    decreases a + b
  {
    if a == 0 && b == 0 then 0
    else 2 * Or(a / 2, b / 2) + (if a % 2 == 1 || b % 2 == 1 then 1 else 0)
  }

  lemma DivUnique(x: int, p: nat, q: int, r: int)
    requires p > 0 && x == q * p + r && 0 <= r < p
    ensures x / p == q && x % p == r
  {
    var d := x / p - q;
    assert x == (x / p) * p + x % p;
    assert (x / p) * p == q * p + d * p;
    assert d * p == r - x % p;
    if d >= 1 { MulMono(1, d, p); }
    if d <= -1 { MulMono(d, -1, p); }
  }

  lemma XorHalf(a: nat, b: nat)
    ensures Xor(a, b) / 2 == Xor(a / 2, b / 2) && Xor(a, b) % 2 == (a + b) % 2
  {
    if a == 0 && b == 0 { assert Xor(a / 2, b / 2) == 0; }
  }

  lemma OrHalf(a: nat, b: nat)
    ensures Or(a, b) / 2 == Or(a / 2, b / 2)
    ensures Or(a, b) % 2 == if a % 2 == 1 || b % 2 == 1 then 1 else 0
  {
    if a == 0 && b == 0 { assert Or(a / 2, b / 2) == 0; }
  }

  /** `Xor` is the bitwise operator: bit k of the result is the exclusive or of
      the operands' bits k. */
  lemma {:induction false} XorBits(a: nat, b: nat, k: nat)
    ensures Bit(Xor(a, b), k) == (Bit(a, k) + Bit(b, k)) % 2
    decreases k
  {
    hide Xor;
    XorHalf(a, b);
    if k > 0 {
      XorBits(a / 2, b / 2, k - 1);
    } else {
      ParityOfSum(a, b);
    }
  }

  lemma ParityOfSum(a: nat, b: nat)
    ensures (a + b) % 2 == (a % 2 + b % 2) % 2
  {
  }

  lemma {:induction false} OrBits(a: nat, b: nat, k: nat)
    ensures Bit(Or(a, b), k) == if Bit(a, k) == 1 || Bit(b, k) == 1 then 1 else 0
    decreases k
  {
    hide Or;
    OrHalf(a, b);
    if k > 0 { OrBits(a / 2, b / 2, k - 1); }
  }

  lemma {:induction false} XorBound(a: nat, b: nat, n: nat)
    requires a < Pow2(n) && b < Pow2(n)
    ensures Xor(a, b) < Pow2(n)
    decreases n
  {
    if n > 0 { XorBound(a / 2, b / 2, n - 1); }
  }

  lemma {:induction false} OrZero(a: nat)
    ensures Or(a, 0) == a && Or(0, a) == a
    decreases a
  {
    if a > 0 { OrZero(a / 2); }
  }

  /** Where the operands share no bits, or is addition. */
  lemma {:induction false} OrIsSum(high: nat, low: nat, n: nat)
    requires low < Pow2(n)
    ensures Or(high * Pow2(n), low) == high * Pow2(n) + low
    ensures Or(low, high * Pow2(n)) == high * Pow2(n) + low
    decreases n
  {
    if n == 0 {
      OrZero(high);
    } else {
      var p := Pow2(n - 1);
      assert high * Pow2(n) == 2 * (high * p);
      OrIsSum(high, low / 2, n - 1);
    }
  }

  lemma {:induction false} XorCancel(a: nat, b: nat)
    ensures Xor(Xor(a, b), b) == a
    decreases a + b
  {
    if a != 0 || b != 0 {
      XorHalf(a, b);
      XorHalf(Xor(a, b), b);
      XorCancel(a / 2, b / 2);
      SameHalfAndParity(a, b, Xor(a, b), Xor(Xor(a, b), b));
    }
  }

  lemma SameHalfAndParity(a: nat, b: nat, x: nat, y: nat)
    requires x % 2 == (a + b) % 2 && y % 2 == (x + b) % 2 && y / 2 == a / 2
    ensures y == a
  {
  }

  // ----- 32-bit operators

  function U32(x: int): Word {
    x % 0x1_0000_0000
  }

  function U64(x: int): Long {
    x % 0x1_0000_0000_0000_0000
  }

  lemma U32Small(x: nat)
    requires x < 0x1_0000_0000
    ensures U32(x) == x
  {
  }

  lemma U64Small(x: Long)
    ensures U64(x) == x
  {
  }

  lemma U64Sum(x: int, y: int)
    ensures U64(U64(x) as int + y) == U64(x + y)
  {
  }

  lemma PowerTable()
    ensures Pow2(8) == 0x100 && Pow2(16) == 0x1_0000 && Pow2(24) == 0x100_0000
    ensures Pow2(32) == 0x1_0000_0000
  {
    assert Pow2(4) == 16;
    PowSplit(4, 4); PowSplit(8, 8); PowSplit(8, 16); PowSplit(16, 16);
  }

  function WXor(a: Word, b: Word): Word {
    PowerTable();
    XorBound(a, b, 32);
    Xor(a, b)
  }

  /** Rotation right by n bits: the low n bits move above the others. */
  function Rotr(x: Word, n: nat): Word
    requires 0 < n < 32
  {
    WordSplit(n);
    SwapInverse(x, Pow2(n), Pow2(32 - n));
    Swap(x, Pow2(n), Pow2(32 - n))
  }

  /** x = h * p + l becomes l * q + h. */
  function Swap(x: nat, p: nat, q: nat): int
    requires p > 0
  {
    (x % p) * q + x / p
  }

  lemma WordSplit(n: nat)
    requires n < 32
    ensures Pow2(n) * Pow2(32 - n) == 0x1_0000_0000
  {
    PowSplit(n, 32 - n);
    PowerTable();
  }

  lemma DoubleProduct(p: nat, q: nat)
    ensures (2 * p) * q == 2 * (p * q)
  {
  }

  lemma {:induction false} PowSplit(n: nat, m: nat)
    ensures Pow2(n) * Pow2(m) == Pow2(n + m)
    decreases n
  {
    if n > 0 {
      PowSplit(n - 1, m);
      DoubleProduct(Pow2(n - 1), Pow2(m));
    }
  }

  /** The C expression `(x >> n) | (x << (32 - n))` is that rotation. */
  lemma RotrIsShiftOr(x: Word, n: nat)
    requires 0 < n < 32
    ensures Or(U32(x * Pow2(32 - n)), x / Pow2(n)) == Rotr(x, n)
  {
    hide Or, Pow2, Swap, U32;
    var p, q := Pow2(n), Pow2(32 - n);
    WordSplit(n);
    ShiftedLeft(x, p, q);
    OrIsSum(x % p, x / p, 32 - n);
    SwapIs(x, p, q, x / p, x % p);
  }

  /** A left shift that drops the bits above the word. */
  lemma ShiftedLeft(x: Word, p: nat, q: nat)
    requires p > 0 && q > 0 && p * q == TWO32
    ensures U32(x * q) == (x % p) * q && x / p < q
  {
    hide Swap;
    SplitShift(x, p, q);
  }

  lemma SwapInverse(x: nat, p: nat, q: nat)
    requires p > 0 && q > 0 && x < p * q
    ensures 0 <= Swap(x, p, q) < p * q
    ensures Swap(Swap(x, p, q), q, p) == x
  {
    hide Swap;
    var h, l := x / p, x % p;
    SplitShift(x, p, q);
    SwapIs(x, p, q, h, l);
    DivUnique(l * q + h, q, l, h);
    SwapIs(l * q + h, q, p, l, h);
    QuotientAndRest(x, p);
  }

  lemma SwapIs(x: nat, p: nat, q: nat, h: nat, l: nat)
    requires p > 0 && h == x / p && l == x % p
    ensures Swap(x, p, q) == l * q + h
  {
  }

  lemma QuotientAndRest(x: nat, p: nat)
    requires p > 0
    ensures x == (x / p) * p + x % p
  {
  }

  lemma PositiveFactor(a: nat, b: nat)
    requires a * b > 0
    ensures b > 0
  {
  }

  lemma QuotientPositive(x: nat, p: nat)
    requires 0 < p <= x
    ensures x / p > 0
  {
  }

  lemma MulCancel(h: int, q: int, p: nat)
    requires h * p < q * p
    ensures h < q
  {
    if h >= q { MulMono(q, h, p); }
  }

  lemma MulMono(a: int, b: int, p: nat)
    requires a <= b
    ensures a * p <= b * p
  {
  }

  lemma SplitShift(x: nat, p: nat, q: nat)
    requires p > 0 && q > 0 && x < p * q
    ensures x * q % (p * q) == (x % p) * q
    ensures x / p < q
    ensures 0 <= Swap(x, p, q) < p * q
  {
    hide Swap;
    var h, l := x / p, x % p;
    QuotientAndRest(x, p);
    QuotientFits(h, l, p, q);
    RowFits(l, p, q);
    ShiftedRow(h, l, p, q);
    DivUnique(x * q, p * q, h, l * q);
    SwapIs(x, p, q, h, l);
  }

  lemma QuotientFits(h: nat, l: nat, p: nat, q: nat)
    requires p > 0 && h * p + l < p * q
    ensures h < q
  {
    assert p * q == q * p;
    MulCancel(h, q, p);
  }

  lemma RowFits(l: nat, p: nat, q: nat)
    requires l < p && q > 0
    ensures 0 <= l * q && l * q + q <= p * q
  {
    MulMono(l + 1, p, q);
    assert (l + 1) * q == l * q + q;
  }

  lemma ShiftedRow(h: nat, l: nat, p: nat, q: nat)
    ensures (h * p + l) * q == h * (p * q) + l * q
  {
    assert (h * p + l) * q == h * p * q + l * q;
    assert h * p * q == h * (p * q);
  }

  /** Rotating right by n and then by 32 - n is the identity. */
  lemma RotrInverse(x: Word, n: nat)
    requires 0 < n < 32
    ensures Rotr(Rotr(x, n), 32 - n) == x
  {
    WordSplit(n);
    SwapInverse(x, Pow2(n), Pow2(32 - n));
  }

  // ----- little-endian words and bytes

  /** Four bytes read as a little-endian word. */
  function LoadWord(b0: Byte, b1: Byte, b2: Byte, b3: Byte): Word {
    b0 + 0x100 * b1 + 0x1_0000 * b2 + 0x100_0000 * b3
  }

  /** The C expression `b0 | b1 << 8 | b2 << 16 | b3 << 24` is that word. */
  lemma LoadWordIsOr(b0: Byte, b1: Byte, b2: Byte, b3: Byte)
    ensures Or(Or(Or(b0, b1 * Pow2(8)), b2 * Pow2(16)), b3 * Pow2(24)) == LoadWord(b0, b1, b2, b3)
  {
    hide Or, Pow2;
    PowerTable();
    OrIsSum(b1, b0, 8);
    OrIsSum(b2, b0 + 0x100 * b1, 16);
    OrIsSum(b3, b0 + 0x100 * b1 + 0x1_0000 * b2, 24);
  }

  /** The four bytes of a word, `(w >> 8 * k) & 0xff` for k = 0, 1, 2, 3. */
  function StoreWord(w: Word): (bs: seq<Byte>)
    ensures |bs| == 4
    ensures LoadWord(bs[0], bs[1], bs[2], bs[3]) == w
  {
    var w1 := w / 0x100;
    var w2 := w1 / 0x100;
    [w % 0x100, w1 % 0x100, w2 % 0x100, w2 / 0x100]
  }

  lemma StoreLoad(b0: Byte, b1: Byte, b2: Byte, b3: Byte)
    ensures StoreWord(LoadWord(b0, b1, b2, b3)) == [b0, b1, b2, b3]
  {
    var w2 := b2 + 0x100 * b3;
    var w1 := b1 + 0x100 * w2;
    var w := b0 + 0x100 * w1;
    assert LoadWord(b0, b1, b2, b3) == w;
    LowByte(b0, w1);
    LowByte(b1, w2);
    LowByte(b2, b3);
  }

  lemma LowByte(b: Byte, rest: nat)
    ensures (b + 0x100 * rest) / 0x100 == rest && (b + 0x100 * rest) % 0x100 == b
  {
  }
}
