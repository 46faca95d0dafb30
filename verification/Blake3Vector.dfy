/** What fixes the hash itself: where its initial value comes from, and one
    published digest, followed through all of its quarter rounds. */
module Blake3Vector {
  import opened Words
  import opened Blake3
  import opened Compression

  // ----- the initial value

  const PRIMES: seq<nat> := [2, 3, 5, 7, 11, 13, 17, 19]

  /** Word i of the initial value is the first 32 bits of the fraction of the
      square root of the i-th prime: 2^32 times the root, rounded down, is it
      plus a multiple of 2^32. */
  lemma IVIsRootsOfPrimes(i: nat)
    requires i < 8
    ensures exists whole: nat :: whole < 5 && RootDigits(PRIMES[i], whole * 0x1_0000_0000 + IV[i] as int)
  {
    if i < 2 { assert RootDigits(PRIMES[i], 1 * 0x1_0000_0000 + IV[i] as int); }
    else if i < 4 { assert RootDigits(PRIMES[i], 2 * 0x1_0000_0000 + IV[i] as int); }
    else if i < 6 { assert RootDigits(PRIMES[i], 3 * 0x1_0000_0000 + IV[i] as int); }
    else { assert RootDigits(PRIMES[i], 4 * 0x1_0000_0000 + IV[i] as int); }
  }

  /** `a` is 2^32 times the square root of p, rounded down. */
  predicate RootDigits(p: nat, a: nat) {
    a * a <= p * 0x1_0000_0000_0000_0000 < (a + 1) * (a + 1)
  }

  // ----- evaluating one quarter round on given numbers

  /** The exclusive or of two numbers below 4, bit by bit from the top, in a form
      that is evaluated without recursion. */
  function XorLow(a: int, b: int): int {
    var a1, b1 := if a >= 2 then a - 2 else a, if b >= 2 then b - 2 else b;
    (if (a >= 2) != (b >= 2) then 2 else 0) + (if (a1 >= 1) != (b1 >= 1) then 1 else 0)
  }

  /** The same for two hexadecimal digits. */
  function XorDigit(a: int, b: int): int {
    var a3, b3 := if a >= 8 then a - 8 else a, if b >= 8 then b - 8 else b;
    var a2, b2 := if a3 >= 4 then a3 - 4 else a3, if b3 >= 4 then b3 - 4 else b3;
    (if (a >= 8) != (b >= 8) then 8 else 0) + (if (a3 >= 4) != (b3 >= 4) then 4 else 0) + XorLow(a2, b2)
  }

  lemma XorPush(i: nat, a: nat, j: nat, b: nat)
    requires i < 2 && j < 2
    ensures Xor(i + 2 * a, j + 2 * b) == (if i != j then 1 else 0) + 2 * Xor(a, b)
  {
    hide Xor;
    XorHalf(i + 2 * a, j + 2 * b);
  }

  lemma XorBit()
    ensures Xor(0, 0) == 0 && Xor(1, 0) == 1 && Xor(0, 1) == 1 && Xor(1, 1) == 0
  {
  }

  lemma Doubled(p: nat, h: nat, i: nat, a: nat)
    ensures i + 2 * (a + p * h) == (i + 2 * a) + (2 * p) * h
  {
    assert (2 * p) * h == 2 * (p * h);
  }

  lemma PowerStep(n: nat)
    ensures Pow2(0) == 1 && Pow2(n + 1) == 2 * Pow2(n)
  {
  }

  lemma XorSplitStep(p: nat, i: nat, c: nat, h: nat, j: nat, d: nat, k: nat)
    requires i < 2 && j < 2 && Xor(c + p * h, d + p * k) == Xor(c, d) + p * Xor(h, k)
    ensures Xor((i + 2 * c) + (2 * p) * h, (j + 2 * d) + (2 * p) * k) == Xor(i + 2 * c, j + 2 * d) + (2 * p) * Xor(h, k)
  {
    hide Xor;
    Doubled(p, h, i, c);
    Doubled(p, k, j, d);
    XorPush(i, c + p * h, j, d + p * k);
    XorPush(i, c, j, d);
    Doubled(p, Xor(h, k), 0, Xor(c, d));
  }

  /** Below bit n and above it, exclusive or goes its own way. */
  lemma {:induction false} XorSplit(n: nat, a: nat, h: nat, b: nat, k: nat)
    requires a < Pow2(n) && b < Pow2(n)
    ensures Xor(a + Pow2(n) * h, b + Pow2(n) * k) == Xor(a, b) + Pow2(n) * Xor(h, k)
    decreases n
  {
    hide Xor, Pow2;
    PowerStep(0);
    if n == 0 {
      XorBit();
    } else {
      PowerStep(n - 1);
      XorSplit(n - 1, a / 2, h, b / 2, k);
      XorSplitStep(Pow2(n - 1), a % 2, a / 2, h, b % 2, b / 2, k);
    }
  }

  function Cut(a: nat, p: nat): nat {
    if a >= p then a - p else a
  }

  function TopBit(a: nat, b: nat, p: nat): nat {
    if (a >= p) != (b >= p) then p else 0
  }

  lemma Top(k: nat, p: nat, a: nat, b: nat)
    requires Pow2(k) == p && a < 2 * p && b < 2 * p
    ensures Cut(a, p) < p && Cut(b, p) < p && Xor(a, b) == TopBit(a, b, p) + Xor(Cut(a, p), Cut(b, p))
  {
    hide Xor, Pow2;
    XorBit();
    XorSplit(k, Cut(a, p), if a >= p then 1 else 0, Cut(b, p), if b >= p then 1 else 0);
  }

  lemma XorLowIs(a: nat, b: nat)
    ensures XorLow(a, b) == TopBit(a, b, 2) + TopBit(Cut(a, 2), Cut(b, 2), 1)
  {
  }

  lemma XorDigitIs(a: nat, b: nat)
    ensures var a3, b3 := Cut(a, 8), Cut(b, 8);
      XorDigit(a, b) == TopBit(a, b, 8) + TopBit(a3, b3, 4) + XorLow(Cut(a3, 4), Cut(b3, 4))
  {
    hide XorLow;
  }

  lemma DigitPowers()
    ensures Pow2(0) == 1 && Pow2(1) == 2 && Pow2(2) == 4 && Pow2(3) == 8 && Pow2(4) == 16
  {
  }

  lemma XorDigitIsXor(a: nat, b: nat)
    requires a < 16 && b < 16
    ensures XorDigit(a, b) == Xor(a, b)
  {
    hide Xor, Pow2, Cut, TopBit, XorDigit, XorLow;
    DigitPowers();
    var a3, b3 := Cut(a, 8), Cut(b, 8);
    var a2, b2 := Cut(a3, 4), Cut(b3, 4);
    var a1, b1 := Cut(a2, 2), Cut(b2, 2);
    XorDigitIs(a, b);
    XorLowIs(a2, b2);
    Top(3, 8, a, b); Top(2, 4, a3, b3); Top(1, 2, a2, b2); Top(0, 1, a1, b1);
    XorBit();
  }

  lemma XorDigitPush(a: nat, h: nat, b: nat, k: nat)
    requires a < 16 && b < 16
    ensures Xor(a + 16 * h, b + 16 * k) == XorDigit(a, b) + 16 * Xor(h, k)
  {
    hide Xor, Pow2, XorDigit;
    DigitPowers();
    XorSplit(4, a, h, b, k);
    XorDigitIsXor(a, b);
  }

  type Digit = d: nat | d < 16

  /** A word from its eight hexadecimal digits, highest first. */
  function Hex8(h: Digit, g: Digit, f: Digit, e: Digit, d: Digit, c: Digit, b: Digit, a: Digit): Word {
    a + 0x10 * b + 0x100 * c + 0x1000 * d + 0x1_0000 * e + 0x10_0000 * f + 0x100_0000 * g + 0x1000_0000 * h
  }

  /** The exclusive or of two words, digit by digit. */
  function XorDigits(h: Digit, g: Digit, f: Digit, e: Digit, d: Digit, c: Digit, b: Digit, a: Digit,
                     s: Digit, r: Digit, q: Digit, p: Digit, o: Digit, n: Digit, m: Digit, l: Digit): int {
    XorDigit(a, l) + 0x10 * XorDigit(b, m) + 0x100 * XorDigit(c, n) + 0x1000 * XorDigit(d, o) + 0x1_0000 * XorDigit(e, p)
    + 0x10_0000 * XorDigit(f, q) + 0x100_0000 * XorDigit(g, r) + 0x1000_0000 * XorDigit(h, s)
  }

  lemma XorDigitsIsXor(h: Digit, g: Digit, f: Digit, e: Digit, d: Digit, c: Digit, b: Digit, a: Digit,
                       s: Digit, r: Digit, q: Digit, p: Digit, o: Digit, n: Digit, m: Digit, l: Digit)
    ensures WXor(Hex8(h, g, f, e, d, c, b, a), Hex8(s, r, q, p, o, n, m, l))
      == XorDigits(h, g, f, e, d, c, b, a, s, r, q, p, o, n, m, l)
  {
    hide Xor, XorDigit;
    XorBit();
    XorDigitPush(h, 0, s, 0);
    var g1, r1 := g + 16 * h, r + 16 * s;
    var f1, q1 := f + 16 * g1, q + 16 * r1;
    var e1, p1 := e + 16 * f1, p + 16 * q1;
    var d1, o1 := d + 16 * e1, o + 16 * p1;
    var c1, n1 := c + 16 * d1, n + 16 * o1;
    var b1, m1 := b + 16 * c1, m + 16 * n1;
    XorDigitPush(g, h, r, s); XorDigitPush(f, g1, q, r1); XorDigitPush(e, f1, p, q1); XorDigitPush(d, e1, o, p1);
    XorDigitPush(c, d1, n, o1); XorDigitPush(b, c1, m, n1); XorDigitPush(a, b1, l, m1);
  }

  /** z rotated by the bits of p is r: z is h * p + l and r is l * q + h. */
  predicate RotIs(z: int, p: nat, q: nat, l: nat, r: Word) {
    l < p && 0 <= r - l * q < q && z == (r - l * q) * p + l
  }

  lemma RotrIs(z: Word, n: nat, l: nat, r: Word)
    requires 0 < n < 32 && RotIs(z, Pow2(n), Pow2(32 - n), l, r)
    ensures Rotr(z, n) == r
  {
    hide Pow2, Swap;
    var p, q := Pow2(n), Pow2(32 - n);
    DivUnique(z, p, r - l * q, l);
    SwapIs(z, p, q, r - l * q, l);
  }

  predicate SumIs(sum: int, r: Word) {
    sum == r || sum == r + 0x1_0000_0000 || sum == r + 0x2_0000_0000
  }

  lemma U32Is(sum: int, r: Word)
    requires SumIs(sum, r)
    ensures U32(sum) == r
  {
    DivUnique(sum, 0x1_0000_0000, if sum == r then 0 else if sum == r + 0x1_0000_0000 then 1 else 2, r);
  }

  /** A half quarter round from its four steps: two sums and two rotations. */
  lemma HalfFrom(a: Word, b: Word, c: Word, d: Word, x: Word, m: nat, n: nat,
      r: Word, l: nat, s: Word, t: Word, k: nat, u: Word)
    requires 0 < m < 32 && 0 < n < 32
    requires SumIs(a as int + b + x, r) && RotIs(WXor(d, r), Pow2(m), Pow2(32 - m), l, s)
    requires SumIs(c as int + s, t) && RotIs(WXor(b, t), Pow2(n), Pow2(32 - n), k, u)
    ensures HalfG(Quad(a, b, c, d), x, m, n) == Quad(r, u, t, s)
  {
    hide Pow2, RotIs, SumIs, WXor, Rotr, U32;
    U32Is(a as int + b + x, r);
    RotrIs(WXor(d, r), m, l, s);
    U32Is(c as int + s, t);
    RotrIs(WXor(b, t), n, k, u);
  }

  // The rotations that are used, with their powers written out.

  predicate By16(z: int, l: nat, r: Word) {
    l < 0x1_0000 && 0 <= r - l * 0x1_0000 < 0x1_0000 && z == (r - l * 0x1_0000) * 0x1_0000 + l
  }

  predicate By12(z: int, l: nat, r: Word) {
    l < 0x1000 && 0 <= r - l * 0x10_0000 < 0x10_0000 && z == (r - l * 0x10_0000) * 0x1000 + l
  }

  predicate By8(z: int, l: nat, r: Word) {
    l < 0x100 && 0 <= r - l * 0x100_0000 < 0x100_0000 && z == (r - l * 0x100_0000) * 0x100 + l
  }

  predicate By7(z: int, l: nat, r: Word) {
    l < 0x80 && 0 <= r - l * 0x200_0000 < 0x200_0000 && z == (r - l * 0x200_0000) * 0x80 + l
  }

  /** The first half, with its rotations by 16 and 12, on given numbers: words a,
      c, x, the digits of b, of d, of the new a and of the new c, and the low
      part and the result of each rotation. */
  lemma First(a: Word, c: Word, x: Word,
      b7: Digit, b6: Digit, b5: Digit, b4: Digit, b3: Digit, b2: Digit, b1: Digit, b0: Digit,
      d7: Digit, d6: Digit, d5: Digit, d4: Digit, d3: Digit, d2: Digit, d1: Digit, d0: Digit,
      r7: Digit, r6: Digit, r5: Digit, r4: Digit, r3: Digit, r2: Digit, r1: Digit, r0: Digit,
      t7: Digit, t6: Digit, t5: Digit, t4: Digit, t3: Digit, t2: Digit, t1: Digit, t0: Digit,
      l: nat, s: Word, k: nat, u: Word)
    requires SumIs(a as int + Hex8(b7, b6, b5, b4, b3, b2, b1, b0) + x, Hex8(r7, r6, r5, r4, r3, r2, r1, r0))
    requires By16(XorDigits(d7, d6, d5, d4, d3, d2, d1, d0, r7, r6, r5, r4, r3, r2, r1, r0), l, s)
    requires SumIs(c as int + s, Hex8(t7, t6, t5, t4, t3, t2, t1, t0))
    requires By12(XorDigits(b7, b6, b5, b4, b3, b2, b1, b0, t7, t6, t5, t4, t3, t2, t1, t0), k, u)
    ensures HalfG(Quad(a, Hex8(b7, b6, b5, b4, b3, b2, b1, b0), c, Hex8(d7, d6, d5, d4, d3, d2, d1, d0)), x, 16, 12)
      == Quad(Hex8(r7, r6, r5, r4, r3, r2, r1, r0), u, Hex8(t7, t6, t5, t4, t3, t2, t1, t0), s)
  {
    hide Pow2, SumIs, WXor, HalfG, Hex8, XorDigits;
    Powers();
    XorDigitsIsXor(d7, d6, d5, d4, d3, d2, d1, d0, r7, r6, r5, r4, r3, r2, r1, r0);
    XorDigitsIsXor(b7, b6, b5, b4, b3, b2, b1, b0, t7, t6, t5, t4, t3, t2, t1, t0);
    HalfFrom(a, Hex8(b7, b6, b5, b4, b3, b2, b1, b0), c, Hex8(d7, d6, d5, d4, d3, d2, d1, d0), x, 16, 12,
      Hex8(r7, r6, r5, r4, r3, r2, r1, r0), l, s, Hex8(t7, t6, t5, t4, t3, t2, t1, t0), k, u);
  }

  /** The second, with its rotations by 8 and 7. */
  lemma Second(a: Word, c: Word, x: Word,
      b7: Digit, b6: Digit, b5: Digit, b4: Digit, b3: Digit, b2: Digit, b1: Digit, b0: Digit,
      d7: Digit, d6: Digit, d5: Digit, d4: Digit, d3: Digit, d2: Digit, d1: Digit, d0: Digit,
      r7: Digit, r6: Digit, r5: Digit, r4: Digit, r3: Digit, r2: Digit, r1: Digit, r0: Digit,
      t7: Digit, t6: Digit, t5: Digit, t4: Digit, t3: Digit, t2: Digit, t1: Digit, t0: Digit,
      l: nat, s: Word, k: nat, u: Word)
    requires SumIs(a as int + Hex8(b7, b6, b5, b4, b3, b2, b1, b0) + x, Hex8(r7, r6, r5, r4, r3, r2, r1, r0))
    requires By8(XorDigits(d7, d6, d5, d4, d3, d2, d1, d0, r7, r6, r5, r4, r3, r2, r1, r0), l, s)
    requires SumIs(c as int + s, Hex8(t7, t6, t5, t4, t3, t2, t1, t0))
    requires By7(XorDigits(b7, b6, b5, b4, b3, b2, b1, b0, t7, t6, t5, t4, t3, t2, t1, t0), k, u)
    ensures HalfG(Quad(a, Hex8(b7, b6, b5, b4, b3, b2, b1, b0), c, Hex8(d7, d6, d5, d4, d3, d2, d1, d0)), x, 8, 7)
      == Quad(Hex8(r7, r6, r5, r4, r3, r2, r1, r0), u, Hex8(t7, t6, t5, t4, t3, t2, t1, t0), s)
  {
    hide Pow2, SumIs, WXor, HalfG, Hex8, XorDigits;
    Powers();
    XorDigitsIsXor(d7, d6, d5, d4, d3, d2, d1, d0, r7, r6, r5, r4, r3, r2, r1, r0);
    XorDigitsIsXor(b7, b6, b5, b4, b3, b2, b1, b0, t7, t6, t5, t4, t3, t2, t1, t0);
    HalfFrom(a, Hex8(b7, b6, b5, b4, b3, b2, b1, b0), c, Hex8(d7, d6, d5, d4, d3, d2, d1, d0), x, 8, 7,
      Hex8(r7, r6, r5, r4, r3, r2, r1, r0), l, s, Hex8(t7, t6, t5, t4, t3, t2, t1, t0), k, u);
  }

  lemma Powers()
    ensures Pow2(16) == 0x1_0000 && Pow2(12) == 0x1000 && Pow2(20) == 0x10_0000
    ensures Pow2(8) == 0x100 && Pow2(24) == 0x100_0000 && Pow2(7) == 0x80 && Pow2(25) == 0x200_0000
  {
    PowerTable();
    SmallPowers();
    hide Pow2;
    PowSplit(4, 8); PowSplit(4, 16); PowSplit(1, 24);
  }

  lemma SmallPowers()
    ensures Pow2(1) == 2 && Pow2(4) == 16 && Pow2(7) == 0x80
  {
    assert Pow2(2) == 4 && Pow2(3) == 8 && Pow2(5) == 32 && Pow2(6) == 64;
  }

  // ----- the 56 quarter rounds of one compression

  // G with digits r and k is quarter round k of round r, both from 0: the four
  // columns and then the four diagonals.  Where the first half costs too much
  // beside the second, it is a lemma of its own.

  lemma Half0()
    ensures HalfG(Quad(0x6A09E667, 0x510E527F, 0x6A09E667, 0x00000000), 0x03020100, 16, 12)
      == Quad(0xBE1A39E6, 0x6FEF2FEF, 0xA3F0A481, 0x39E6BE1A)
  {
    hide WXor, HalfG;
    First(0x6A09E667, 0x6A09E667, 0x03020100, 5, 1, 0, 14, 5, 2, 7, 15, 0, 0, 0, 0, 0, 0, 0, 0, 11, 14, 1, 10, 3, 9, 14, 6,
      10, 3, 15, 0, 10, 4, 8, 1, 0x39E6, 0x39E6BE1A, 0x6FE, 0x6FEF2FEF);
  }

  lemma G00()
    ensures G(Quad(0x6A09E667, 0x510E527F, 0x6A09E667, 0x00000000), 0x03020100, 0x07060504)
      == Quad(0x350F6ED9, 0x7C122543, 0x66FD8E51, 0xC30CE9D0)
  {
    hide WXor, HalfG;
    Half0();
    Second(0xBE1A39E6, 0xA3F0A481, 0x07060504, 6, 15, 14, 15, 2, 15, 14, 15, 3, 9, 14, 6, 11, 14, 1, 10, 3, 5, 0, 15, 6, 14, 13, 9,
      6, 6, 15, 13, 8, 14, 5, 1, 0xC3, 0xC30CE9D0, 0x3E, 0x7C122543);
  }

  lemma Half1()
    ensures HalfG(Quad(0xBB67AE85, 0x9B05688C, 0xBB67AE85, 0x00000000), 0x0B0A0908, 16, 12)
      == Quad(0x61772019, 0x77040846, 0xDB810FFC, 0x20196177)
  {
    hide WXor, HalfG;
    First(0xBB67AE85, 0xBB67AE85, 0x0B0A0908, 9, 11, 0, 5, 6, 8, 8, 12, 0, 0, 0, 0, 0, 0, 0, 0, 6, 1, 7, 7, 2, 0, 1, 9,
      13, 11, 8, 1, 0, 15, 15, 12, 0x2019, 0x20196177, 0x770, 0x77040846);
  }

  lemma G01()
    ensures G(Quad(0xBB67AE85, 0x9B05688C, 0xBB67AE85, 0x00000000), 0x0B0A0908, 0x0F0E0D0C)
      == Quad(0xE789356B, 0x2D1E9950, 0xF848A050, 0x1CC79054)
  {
    hide WXor, HalfG;
    Half1();
    Second(0x61772019, 0xDB810FFC, 0x0F0E0D0C, 7, 7, 0, 4, 0, 8, 4, 6, 2, 0, 1, 9, 6, 1, 7, 7, 14, 7, 8, 9, 3, 5, 6, 11,
      15, 8, 4, 8, 10, 0, 5, 0, 0x1C, 0x1CC79054, 0x16, 0x2D1E9950);
  }

  lemma Half2()
    ensures HalfG(Quad(0x3C6EF372, 0x1F83D9AB, 0x3C6EF372, 0x00000040), 0x13121110, 16, 12)
      == Quad(0x6F04DE2D, 0xBDD055FB, 0x1ADC6276, 0xDE6D6F04)
  {
    hide WXor, HalfG;
    First(0x3C6EF372, 0x3C6EF372, 0x13121110, 1, 15, 8, 3, 13, 9, 10, 11, 0, 0, 0, 0, 0, 0, 4, 0, 6, 15, 0, 4, 13, 14, 2, 13,
      1, 10, 13, 12, 6, 2, 7, 6, 0xDE6D, 0xDE6D6F04, 0xBDD, 0xBDD055FB);
  }

  lemma G02()
    ensures G(Quad(0x3C6EF372, 0x1F83D9AB, 0x3C6EF372, 0x00000040), 0x13121110, 0x17161514)
      == Quad(0x43EB493C, 0xCFDD537A, 0x5379E89C, 0x389D8626)
  {
    hide WXor, HalfG;
    Half2();
    Second(0x6F04DE2D, 0x1ADC6276, 0x17161514, 11, 13, 13, 0, 5, 5, 15, 11, 13, 14, 6, 13, 6, 15, 0, 4, 4, 3, 14, 11, 4, 9, 3, 12,
      5, 3, 7, 9, 14, 8, 9, 12, 0x38, 0x389D8626, 0x67, 0xCFDD537A);
  }

  lemma Half3()
    ensures HalfG(Quad(0xA54FF53A, 0x5BE0CD19, 0xA54FF53A, 0x0000000B), 0x1B1A1918, 16, 12)
      == Quad(0x1C4ADB6B, 0xC9DDB50D, 0x80B01184, 0xDB601C4A)
  {
    hide WXor, HalfG;
    First(0xA54FF53A, 0xA54FF53A, 0x1B1A1918, 5, 11, 14, 0, 12, 13, 1, 9, 0, 0, 0, 0, 0, 0, 0, 11, 1, 12, 4, 10, 13, 11, 6, 11,
      8, 0, 11, 0, 1, 1, 8, 4, 0xDB60, 0xDB601C4A, 0xC9D, 0xC9DDB50D);
  }

  lemma G03()
    ensures G(Quad(0xA54FF53A, 0x5BE0CD19, 0xA54FF53A, 0x0000000B), 0x1B1A1918, 0x1F1E1D1C)
      == Quad(0x0546AD94, 0x712CA71A, 0x5F8E3835, 0xDEDE26B1)
  {
    hide WXor, HalfG;
    Half3();
    Second(0x1C4ADB6B, 0x80B01184, 0x1F1E1D1C, 12, 9, 13, 13, 11, 5, 0, 13, 13, 11, 6, 0, 1, 12, 4, 10, 0, 5, 4, 6, 10, 13, 9, 4,
      5, 15, 8, 14, 3, 8, 3, 5, 0xDE, 0xDEDE26B1, 0x38, 0x712CA71A);
  }

  lemma G04()
    ensures G(Quad(0x350F6ED9, 0x2D1E9950, 0x5379E89C, 0xDEDE26B1), 0x23222120, 0x27262524)
      == Quad(0x841B353A, 0xAB80B582, 0x17FE2798, 0xB48BE36E)
  {
    hide WXor, HalfG;
    First(0x350F6ED9, 0x5379E89C, 0x23222120, 2, 13, 1, 14, 9, 9, 5, 0, 13, 14, 13, 14, 2, 6, 11, 1, 8, 5, 5, 0, 2, 9, 4, 9,
      6, 3, 7, 2, 4, 4, 2, 10, 0xFF8, 0x0FF85B8E, 0xD7A, 0xD7A4E6CD);
    Second(0x85502949, 0x6372442A, 0x27262524, 13, 7, 10, 4, 14, 6, 12, 13, 0, 15, 15, 8, 5, 11, 8, 14, 8, 4, 1, 11, 3, 5, 3, 10,
      1, 7, 15, 14, 2, 7, 9, 8, 0xB4, 0xB48BE36E, 0x55, 0xAB80B582);
  }

  lemma G05()
    ensures G(Quad(0xE789356B, 0xCFDD537A, 0x5F8E3835, 0xC30CE9D0), 0x2B2A2928, 0x2F2E2D2C)
      == Quad(0xBC762A99, 0x78D7C89F, 0xC15304DC, 0x05E7AB0B)
  {
    hide WXor, HalfG;
    First(0xE789356B, 0x5F8E3835, 0x2B2A2928, 12, 15, 13, 13, 5, 3, 7, 10, 12, 3, 0, 12, 14, 9, 13, 0, 14, 2, 9, 0, 11, 2, 0, 13,
      11, 11, 6, 11, 5, 9, 13, 1, 0x5BDD, 0x5BDD219C, 0xAAB, 0xAAB74B60);
    Second(0xE290B20D, 0xBB6B59D1, 0x2F2E2D2C, 10, 10, 11, 7, 4, 11, 6, 0, 5, 11, 13, 13, 2, 1, 9, 12, 11, 12, 7, 6, 2, 10, 9, 9,
      12, 1, 5, 3, 0, 4, 13, 12, 0x5, 0x05E7AB0B, 0x3C, 0x78D7C89F);
  }

  lemma G06()
    ensures G(Quad(0x43EB493C, 0x712CA71A, 0x66FD8E51, 0x1CC79054), 0x33323130, 0x37363534)
      == Quad(0x7BC6F67C, 0x44ADB812, 0x0A9A96E0, 0xF1CA1402)
  {
    hide WXor, HalfG;
    First(0x43EB493C, 0x66FD8E51, 0x33323130, 7, 1, 2, 12, 10, 7, 1, 10, 1, 12, 12, 7, 9, 0, 5, 4, 14, 8, 4, 10, 2, 1, 8, 6,
      1, 8, 13, 0, 8, 2, 13, 14, 0xB1D2, 0xB1D2F48D, 0x5C4, 0x5C469FC2);
    Second(0xE84A2186, 0x18D082DE, 0x37363534, 5, 12, 4, 6, 9, 15, 12, 2, 11, 1, 13, 2, 15, 4, 8, 13, 7, 11, 12, 6, 15, 6, 7, 12,
      0, 10, 9, 10, 9, 6, 14, 0, 0xF1, 0xF1CA1402, 0x22, 0x44ADB812);
  }

  lemma G07()
    ensures G(Quad(0x0546AD94, 0x7C122543, 0xF848A050, 0x389D8626), 0x3B3A3938, 0x3F3E3D3C)
      == Quad(0x0DB12F4B, 0x13AC4CB6, 0xC7F9BD09, 0x458798AB)
  {
    hide WXor, HalfG;
    First(0x0546AD94, 0xF848A050, 0x3B3A3938, 7, 12, 1, 2, 2, 5, 4, 3, 3, 8, 9, 13, 8, 6, 2, 6, 11, 12, 9, 3, 0, 12, 0, 15,
      8, 2, 7, 2, 2, 4, 5, 14, 0x8A29, 0x8A29840E, 0x11D, 0x11DFE600);
    Second(0xBC930C0F, 0x8272245E, 0x3F3E3D3C, 1, 1, 13, 15, 14, 6, 0, 0, 8, 10, 2, 9, 8, 4, 0, 14, 0, 13, 11, 1, 2, 15, 4, 11,
      12, 7, 15, 9, 11, 13, 0, 9, 0x45, 0x458798AB, 0x9, 0x13AC4CB6);
  }

  lemma G10()
    ensures G(Quad(0x841B353A, 0x13AC4CB6, 0x0A9A96E0, 0x05E7AB0B), 0x0B0A0908, 0x1B1A1918)
      == Quad(0xE7EF9637, 0xC008AF50, 0x2E545A47, 0x01C61C31)
  {
    hide WXor, HalfG;
    First(0x841B353A, 0x0A9A96E0, 0x0B0A0908, 1, 3, 10, 12, 4, 12, 11, 6, 0, 5, 14, 7, 10, 11, 0, 11, 10, 2, 13, 1, 8, 10, 15, 8,
      2, 12, 8, 14, 3, 14, 1, 6, 0x21F3, 0x21F3A736, 0x2A0, 0x2A03F227);
    Second(0xA2D18AF8, 0x2C8E3E16, 0x1B1A1918, 2, 10, 0, 3, 15, 2, 2, 7, 2, 1, 15, 3, 10, 7, 3, 6, 14, 7, 14, 15, 9, 6, 3, 7,
      2, 14, 5, 4, 5, 10, 4, 7, 0x1, 0x01C61C31, 0x60, 0xC008AF50);
  }

  lemma G11()
    ensures G(Quad(0xBC762A99, 0xAB80B582, 0xC7F9BD09, 0xF1CA1402), 0x0F0E0D0C, 0x2B2A2928)
      == Quad(0x0785C04E, 0xC44E969B, 0x421DE41D, 0x80FEA046)
  {
    hide WXor, HalfG;
    First(0xBC762A99, 0xC7F9BD09, 0x0F0E0D0C, 10, 11, 8, 0, 11, 5, 8, 2, 15, 1, 12, 10, 1, 4, 0, 2, 7, 7, 0, 4, 14, 13, 2, 7,
      12, 1, 1, 15, 4, 3, 13, 7, 0xF925, 0xF92586CE, 0x655, 0x6556A9FF);
    Second(0x7704ED27, 0xC11F43D7, 0x2B2A2928, 6, 5, 5, 6, 10, 9, 15, 15, 15, 9, 2, 5, 8, 6, 12, 14, 0, 7, 8, 5, 12, 0, 4, 14,
      4, 2, 1, 13, 14, 4, 1, 13, 0x80, 0x80FEA046, 0x62, 0xC44E969B);
  }

  lemma G12()
    ensures G(Quad(0x7BC6F67C, 0x78D7C89F, 0x17FE2798, 0x458798AB), 0x1F1E1D1C, 0x03020100)
      == Quad(0x6B812212, 0x39A217BF, 0x85C99B47, 0x292F1D74)
  {
    hide WXor, HalfG;
    First(0x7BC6F67C, 0x17FE2798, 0x1F1E1D1C, 7, 8, 13, 7, 12, 8, 9, 15, 4, 5, 8, 7, 9, 8, 10, 11, 1, 3, 11, 12, 13, 12, 3, 7,
      5, 12, 9, 10, 7, 13, 13, 3, 0x449C, 0x449C563B, 0x54C, 0x54C244DB);
    Second(0x13BCDC37, 0x5C9A7DD3, 0x03020100, 5, 4, 12, 2, 4, 4, 13, 11, 4, 4, 9, 12, 5, 6, 3, 11, 6, 11, 8, 1, 2, 2, 1, 2,
      8, 5, 12, 9, 9, 11, 4, 7, 0x29, 0x292F1D74, 0x1C, 0x39A217BF);
  }

  lemma G13()
    ensures G(Quad(0x0DB12F4B, 0x44ADB812, 0xC15304DC, 0xB48BE36E), 0x13121110, 0x37363534)
      == Quad(0x8900BD57, 0xEAC962AB, 0x88E8DA43, 0xAC92036C)
  {
    hide WXor, HalfG;
    First(0x0DB12F4B, 0xC15304DC, 0x13121110, 4, 4, 10, 13, 11, 8, 1, 2, 11, 4, 8, 11, 14, 3, 6, 14, 6, 5, 7, 0, 15, 8, 6, 13,
      13, 12, 5, 6, 13, 6, 13, 7, 0x1B03, 0x1B03D1FB, 0xEC5, 0xEC598FB6);
    Second(0x6570F86D, 0xDC56D6D7, 0x37363534, 14, 12, 5, 9, 8, 15, 11, 6, 1, 11, 0, 3, 13, 1, 15, 11, 8, 9, 0, 0, 11, 13, 5, 7,
      8, 8, 14, 8, 13, 10, 4, 3, 0xAC, 0xAC92036C, 0x75, 0xEAC962AB);
  }

  lemma G14()
    ensures G(Quad(0xE7EF9637, 0xC44E969B, 0x85C99B47, 0xAC92036C), 0x07060504, 0x2F2E2D2C)
      == Quad(0xBADA2BD4, 0x06C6D7AF, 0xBB0C1B51, 0x02886034)
  {
    hide WXor, HalfG;
    First(0xE7EF9637, 0x85C99B47, 0x07060504, 12, 4, 4, 14, 9, 6, 9, 11, 10, 12, 9, 2, 0, 3, 6, 12, 11, 3, 4, 4, 3, 1, 13, 6,
      11, 8, 8, 3, 11, 11, 1, 13, 0x32BA, 0x32BA1FD6, 0xD86, 0xD867CCD2);
    Second(0xB34431D6, 0xB883BB1D, 0x2F2E2D2C, 13, 8, 6, 7, 12, 12, 13, 2, 3, 2, 11, 10, 1, 15, 13, 6, 11, 10, 13, 10, 2, 11, 13, 4,
      11, 11, 0, 12, 1, 11, 5, 1, 0x2, 0x02886034, 0x3, 0x06C6D7AF);
  }

  lemma G15()
    ensures G(Quad(0x0785C04E, 0x39A217BF, 0x88E8DA43, 0x01C61C31), 0x33323130, 0x17161514)
      == Quad(0x117A63C6, 0x00E3E701, 0xF7F9C5F5, 0x5A047616)
  {
    hide WXor, HalfG;
    First(0x0785C04E, 0x88E8DA43, 0x33323130, 3, 9, 10, 2, 1, 7, 11, 15, 0, 1, 12, 6, 1, 12, 3, 1, 7, 4, 5, 10, 0, 9, 3, 13,
      9, 13, 15, 5, 4, 15, 13, 15, 0x150C, 0x150C759C, 0x860, 0x860A4575);
    Second(0x745A093D, 0x9DF54FDF, 0x17161514, 8, 6, 0, 10, 4, 5, 7, 5, 1, 5, 0, 12, 7, 5, 9, 12, 1, 1, 7, 10, 6, 3, 12, 6,
      15, 7, 15, 9, 12, 5, 15, 5, 0x5A, 0x5A047616, 0x0, 0x00E3E701);
  }

  lemma G16()
    ensures G(Quad(0x6B812212, 0xEAC962AB, 0x2E545A47, 0x80FEA046), 0x27262524, 0x3B3A3938)
      == Quad(0x1098B66C, 0xE69BF088, 0x1A159720, 0xE2193F4B)
  {
    hide WXor, HalfG;
    First(0x6B812212, 0x2E545A47, 0x27262524, 14, 10, 12, 9, 6, 2, 10, 11, 8, 0, 15, 14, 10, 0, 4, 6, 7, 13, 7, 0, 10, 9, 14, 1,
      3, 7, 15, 12, 5, 7, 13, 5, 0x9A7, 0x09A7FD8E, 0x57E, 0x57EDD353);
    Second(0x7D70A9E1, 0x37FC57D5, 0x3B3A3938, 5, 7, 14, 13, 13, 3, 5, 3, 0, 9, 10, 7, 15, 13, 8, 14, 1, 0, 9, 8, 11, 6, 6, 12,
      1, 10, 1, 5, 9, 7, 2, 0, 0xE2, 0xE2193F4B, 0x73, 0xE69BF088);
  }

  lemma G17()
    ensures G(Quad(0x8900BD57, 0xC008AF50, 0x421DE41D, 0x292F1D74), 0x3F3E3D3C, 0x23222120)
      == Quad(0x58BD36D5, 0x9C33E5B7, 0xB4A1B01C, 0xBDEC2A97)
  {
    hide WXor, HalfG;
    First(0x8900BD57, 0x421DE41D, 0x3F3E3D3C, 12, 0, 0, 8, 10, 15, 5, 0, 2, 9, 2, 15, 1, 13, 7, 4, 8, 8, 4, 7, 10, 9, 14, 3,
      15, 6, 11, 5, 8, 5, 8, 5, 0xB497, 0xB497A168, 0xAD5, 0xAD536BD2);
    Second(0x8847A9E3, 0xF6B58585, 0x23222120, 10, 13, 5, 3, 6, 11, 13, 2, 11, 4, 9, 7, 10, 1, 6, 8, 5, 8, 11, 13, 3, 6, 13, 5,
      11, 4, 10, 1, 11, 0, 1, 12, 0xBD, 0xBDEC2A97, 0x4E, 0x9C33E5B7);
  }

  lemma G20()
    ensures G(Quad(0xBADA2BD4, 0x9C33E5B7, 0x1A159720, 0x5A047616), 0x0F0E0D0C, 0x13121110)
      == Quad(0xE22019FA, 0x1C1BA13C, 0x6521745D, 0xE28AA125)
  {
    hide WXor, HalfG;
    First(0xBADA2BD4, 0x1A159720, 0x0F0E0D0C, 9, 12, 3, 3, 14, 5, 11, 7, 5, 10, 0, 4, 7, 6, 1, 6, 6, 6, 1, 12, 1, 14, 9, 7,
      8, 2, 9, 6, 13, 3, 3, 8, 0x6881, 0x68813C18, 0x68F, 0x68F1EA53);
    Second(0x661C1E97, 0x8296D338, 0x13121110, 6, 8, 15, 1, 14, 10, 5, 3, 6, 8, 8, 1, 3, 12, 1, 8, 14, 2, 2, 0, 1, 9, 15, 10,
      6, 5, 2, 1, 7, 4, 5, 13, 0xE2, 0xE28AA125, 0xE, 0x1C1BA13C);
  }

  lemma G21()
    ensures G(Quad(0x117A63C6, 0x06C6D7AF, 0xB4A1B01C, 0xE2193F4B), 0x2B2A2928, 0x33323130)
      == Quad(0xD8AF01B5, 0x8D6BD541, 0xD7FBCB2E, 0xC78379A0)
  {
    hide WXor, HalfG;
    First(0x117A63C6, 0xB4A1B01C, 0x2B2A2928, 0, 6, 12, 6, 13, 7, 10, 15, 14, 2, 1, 9, 3, 15, 4, 11, 4, 3, 6, 11, 6, 4, 9, 13,
      1, 0, 7, 8, 5, 1, 8, 14, 0x5BD6, 0x5BD6A172, 0x621, 0x62116BE8);
    Second(0x436B649D, 0x1078518E, 0x33323130, 6, 2, 1, 1, 6, 11, 14, 8, 5, 11, 13, 6, 10, 1, 7, 2, 13, 8, 10, 15, 0, 1, 11, 5,
      13, 7, 15, 11, 12, 11, 2, 14, 0xC7, 0xC78379A0, 0x46, 0x8D6BD541);
  }

  lemma G22()
    ensures G(Quad(0x1098B66C, 0x00E3E701, 0xBB0C1B51, 0xBDEC2A97), 0x37363534, 0x0B0A0908)
      == Quad(0xCEA815B8, 0x01C7252B, 0x9979AF8F, 0xE6369EE0)
  {
    hide WXor, HalfG;
    First(0x1098B66C, 0xBB0C1B51, 0x37363534, 0, 0, 14, 3, 14, 7, 0, 1, 11, 13, 14, 12, 2, 10, 9, 7, 4, 8, 11, 2, 13, 2, 10, 1,
      11, 3, 4, 3, 1, 0, 10, 15, 0xF836, 0xF836F55E, 0x7AE, 0x7AEB3A0F);
    Second(0x48B2D2A1, 0xB34310AF, 0x0B0A0908, 7, 10, 14, 11, 3, 10, 0, 15, 15, 8, 3, 6, 15, 5, 5, 14, 12, 14, 10, 8, 1, 5, 11, 8,
      9, 9, 7, 9, 10, 15, 8, 15, 0xE6, 0xE6369EE0, 0x0, 0x01C7252B);
  }

  lemma G23()
    ensures G(Quad(0x58BD36D5, 0xE69BF088, 0xF7F9C5F5, 0x02886034), 0x1F1E1D1C, 0x3B3A3938)
      == Quad(0xC1812B7E, 0x4D73C685, 0x9E2CEF6B, 0x81E5CC77)
  {
    hide WXor, HalfG;
    First(0x58BD36D5, 0xF7F9C5F5, 0x1F1E1D1C, 14, 6, 9, 11, 15, 0, 8, 8, 0, 2, 8, 8, 6, 0, 3, 4, 5, 14, 7, 7, 4, 4, 7, 9,
      1, 12, 4, 7, 2, 2, 15, 4, 0x244D, 0x244D5CFF, 0x27C, 0x27CFADCD);
    Second(0x5E774479, 0x1C4722F4, 0x3B3A3938, 2, 7, 12, 15, 10, 13, 12, 13, 2, 4, 4, 13, 5, 12, 15, 15, 12, 1, 8, 1, 2, 11, 7, 14,
      9, 14, 2, 12, 14, 15, 6, 11, 0x81, 0x81E5CC77, 0x26, 0x4D73C685);
  }

  lemma G24()
    ensures G(Quad(0xE22019FA, 0x8D6BD541, 0x9979AF8F, 0x81E5CC77), 0x1B1A1918, 0x17161514)
      == Quad(0x9AF92CCD, 0x3E258331, 0xEBFC97F9, 0x8E5EDD27)
  {
    hide WXor, HalfG;
    First(0xE22019FA, 0x9979AF8F, 0x1B1A1918, 8, 13, 6, 11, 13, 5, 4, 1, 8, 1, 14, 5, 12, 12, 7, 7, 8, 10, 10, 6, 0, 8, 5, 3,
      5, 13, 9, 13, 11, 10, 13, 2, 0xC424, 0xC4240B43, 0xF93, 0xF93D0F66);
    Second(0x8AA60853, 0x5D9DBAD2, 0x17161514, 15, 9, 3, 13, 0, 15, 6, 6, 12, 4, 2, 4, 0, 11, 4, 3, 9, 10, 15, 9, 2, 12, 12, 13,
      14, 11, 15, 12, 9, 7, 15, 9, 0x8E, 0x8E5EDD27, 0x1F, 0x3E258331);
  }

  lemma G25()
    ensures G(Quad(0xD8AF01B5, 0x01C7252B, 0x9E2CEF6B, 0xE28AA125), 0x27262524, 0x03020100)
      == Quad(0x7F46F5A3, 0x10749322, 0x40E13997, 0xB5926716)
  {
    hide WXor, HalfG;
    First(0xD8AF01B5, 0x9E2CEF6B, 0x27262524, 0, 1, 12, 7, 2, 5, 2, 11, 14, 2, 8, 10, 10, 1, 2, 5, 0, 1, 9, 12, 4, 12, 0, 4,
      8, 11, 4, 14, 13, 2, 8, 1, 0xED21, 0xED21E316, 0x7AA, 0x7AA8A89F);
    Second(0x019C4C04, 0x8B4ED281, 0x03020100, 7, 10, 10, 8, 10, 8, 9, 15, 14, 13, 2, 1, 14, 3, 1, 6, 7, 15, 4, 6, 15, 5, 10, 3,
      4, 0, 14, 1, 3, 9, 9, 7, 0xB5, 0xB5926716, 0x8, 0x10749322);
  }

  lemma G26()
    ensures G(Quad(0xCEA815B8, 0x4D73C685, 0x6521745D, 0xC78379A0), 0x2F2E2D2C, 0x3F3E3D3C)
      == Quad(0x04C1D031, 0x1D68CD00, 0xCE5F0982, 0xF874085C)
  {
    hide WXor, HalfG;
    First(0xCEA815B8, 0x6521745D, 0x2F2E2D2C, 4, 13, 7, 3, 12, 6, 8, 5, 12, 7, 8, 3, 7, 9, 10, 0, 4, 11, 4, 10, 0, 9, 6, 9,
      13, 5, 14, 11, 0, 1, 2, 6, 0x70C9, 0x70C98CC9, 0x7A3, 0x7A39898C);
    Second(0x4B4A0969, 0xD5EB0126, 0x3F3E3D3C, 7, 10, 3, 9, 8, 9, 8, 12, 7, 0, 12, 9, 8, 12, 12, 9, 0, 4, 12, 1, 13, 0, 3, 1,
      12, 14, 5, 15, 0, 9, 8, 2, 0xF8, 0xF874085C, 0xE, 0x1D68CD00);
  }

  lemma G27()
    ensures G(Quad(0xC1812B7E, 0x1C1BA13C, 0xD7FBCB2E, 0xE6369EE0), 0x23222120, 0x07060504)
      == Quad(0x106A65AF, 0xD0F47EE1, 0x729A0239, 0x27635083)
  {
    hide WXor, HalfG;
    First(0xC1812B7E, 0xD7FBCB2E, 0x23222120, 1, 12, 1, 11, 10, 1, 3, 12, 14, 6, 3, 6, 9, 14, 14, 0, 0, 0, 11, 14, 14, 13, 13, 10,
      4, 11, 3, 6, 11, 1, 11, 6, 0x733A, 0x733AE688, 0x8A, 0x08A572D1);
    Second(0x00BEEDDA, 0x4B36B1B6, 0x07060504, 0, 8, 10, 5, 7, 2, 13, 1, 7, 3, 3, 10, 14, 6, 8, 8, 1, 0, 6, 10, 6, 5, 10, 15,
      7, 2, 9, 10, 0, 2, 3, 9, 0x27, 0x27635083, 0x68, 0xD0F47EE1);
  }

  lemma G30()
    ensures G(Quad(0x9AF92CCD, 0xD0F47EE1, 0xCE5F0982, 0xB5926716), 0x2B2A2928, 0x1F1E1D1C)
      == Quad(0xE49B20A7, 0x79142753, 0xA4768709, 0x22575B02)
  {
    hide WXor, HalfG;
    First(0x9AF92CCD, 0xCE5F0982, 0x2B2A2928, 13, 0, 15, 4, 7, 14, 14, 1, 11, 5, 9, 2, 6, 7, 1, 6, 9, 7, 1, 7, 13, 4, 13, 6,
      8, 2, 1, 15, 2, 12, 0, 7, 0xB3C0, 0xB3C02285, 0x2E6, 0x2E652EB5);
    Second(0x9717D4D6, 0x821F2C07, 0x1F1E1D1C, 2, 14, 6, 5, 2, 14, 11, 5, 11, 3, 12, 0, 2, 2, 8, 5, 14, 4, 9, 11, 2, 0, 10, 7,
      10, 4, 7, 6, 8, 7, 0, 9, 0x22, 0x22575B02, 0x3C, 0x79142753);
  }

  lemma G31()
    ensures G(Quad(0x7F46F5A3, 0x3E258331, 0x729A0239, 0xF874085C), 0x33323130, 0x27262524)
      == Quad(0x98E77CA0, 0xDFBC1CCF, 0x5F2CCA97, 0x4A3ABF74)
  {
    hide WXor, HalfG;
    First(0x7F46F5A3, 0x729A0239, 0x33323130, 3, 14, 2, 5, 8, 3, 3, 1, 15, 8, 7, 4, 0, 8, 5, 12, 15, 0, 9, 14, 10, 10, 0, 4,
      1, 4, 15, 2, 0, 11, 2, 3, 0xA258, 0xA25808EA, 0x812, 0x8122AD78);
    Second(0xF09EAA04, 0x14F20B23, 0x27262524, 8, 1, 2, 2, 10, 13, 7, 8, 10, 2, 5, 8, 0, 8, 14, 10, 9, 8, 14, 7, 7, 12, 10, 0,
      5, 15, 2, 12, 12, 10, 9, 7, 0x4A, 0x4A3ABF74, 0x6F, 0xDFBC1CCF);
  }

  lemma G32()
    ensures G(Quad(0x04C1D031, 0x10749322, 0xEBFC97F9, 0x27635083), 0x3B3A3938, 0x0F0E0D0C)
      == Quad(0x226930B0, 0x953233EE, 0x5BF37053, 0xA3EE6147)
  {
    hide WXor, HalfG;
    First(0x04C1D031, 0xEBFC97F9, 0x3B3A3938, 1, 0, 7, 4, 9, 3, 2, 2, 2, 7, 6, 3, 5, 0, 8, 3, 5, 0, 7, 0, 9, 12, 8, 11,
      11, 8, 0, 5, 0, 15, 0, 12, 0xCC08, 0xCC087713, 0xC2E, 0xC2EA8719);
    Second(0x50709C8B, 0xB8050F0C, 0x0F0E0D0C, 12, 2, 14, 10, 8, 7, 1, 9, 12, 12, 0, 8, 7, 7, 1, 3, 2, 2, 6, 9, 3, 0, 11, 0,
      5, 11, 15, 3, 7, 0, 5, 3, 0xA3, 0xA3EE6147, 0x4A, 0x953233EE);
  }

  lemma G33()
    ensures G(Quad(0x106A65AF, 0x1D68CD00, 0x40E13997, 0x8E5EDD27), 0x37363534, 0x3F3E3D3C)
      == Quad(0x4336120D, 0x13909CF6, 0x56A017E7, 0x5AF9F2F9)
  {
    hide WXor, HalfG;
    First(0x106A65AF, 0x40E13997, 0x37363534, 1, 13, 6, 8, 12, 13, 0, 0, 8, 14, 5, 14, 13, 13, 2, 7, 6, 5, 0, 9, 6, 7, 14, 3,
      15, 11, 10, 6, 2, 4, 14, 14, 0xBAC4, 0xBAC4EB57, 0x9EE, 0x9EEE6CEE);
    Second(0x650967E3, 0xFBA624EE, 0x3F3E3D3C, 9, 14, 14, 14, 6, 12, 14, 14, 11, 10, 12, 4, 14, 11, 5, 7, 4, 3, 3, 6, 1, 2, 0, 13,
      5, 6, 10, 0, 1, 7, 14, 7, 0x5A, 0x5AF9F2F9, 0x9, 0x13909CF6);
  }

  lemma G34()
    ensures G(Quad(0xE49B20A7, 0xDFBC1CCF, 0x5BF37053, 0x5AF9F2F9), 0x13121110, 0x03020100)
      == Quad(0xED37CC74, 0x95DC1075, 0xFCC44624, 0xE4514841)
  {
    hide WXor, HalfG;
    First(0xE49B20A7, 0x5BF37053, 0x13121110, 13, 15, 11, 12, 1, 12, 12, 15, 5, 10, 15, 9, 15, 2, 15, 9, 13, 7, 6, 9, 4, 14, 8, 6,
      1, 8, 7, 2, 15, 13, 14, 3, 0xBC7F, 0xBC7F8D90, 0x12C, 0x12CC7CEE);
    Second(0xD7694E86, 0x1872FDE3, 0x03020100, 1, 2, 12, 12, 7, 12, 14, 14, 11, 12, 7, 15, 8, 13, 9, 0, 14, 13, 3, 7, 12, 12, 7, 4,
      15, 12, 12, 4, 4, 6, 2, 4, 0xE4, 0xE4514841, 0x4A, 0x95DC1075);
  }

  lemma G35()
    ensures G(Quad(0x98E77CA0, 0x953233EE, 0x56A017E7, 0x22575B02), 0x2F2E2D2C, 0x0B0A0908)
      == Quad(0xB9E66D6C, 0x461006E7, 0x5997F509, 0x7C3F5E12)
  {
    hide WXor, HalfG;
    First(0x98E77CA0, 0x56A017E7, 0x2F2E2D2C, 9, 5, 3, 2, 3, 3, 14, 14, 2, 2, 5, 7, 5, 11, 0, 2, 5, 13, 4, 7, 13, 13, 11, 10,
      13, 13, 5, 8, 9, 6, 15, 7, 0x86B8, 0x86B87F10, 0x519, 0x519486AA);
    Second(0x5D47DDBA, 0xDD5896F7, 0x0B0A0908, 5, 1, 9, 4, 8, 6, 10, 10, 8, 6, 11, 8, 7, 15, 1, 0, 11, 9, 14, 6, 6, 13, 6, 12,
      5, 9, 9, 7, 15, 5, 0, 9, 0x7C, 0x7C3F5E12, 0x23, 0x461006E7);
  }

  lemma G36()
    ensures G(Quad(0x226930B0, 0x13909CF6, 0xA4768709, 0x4A3ABF74), 0x17161514, 0x23222120)
      == Quad(0x9CB3211B, 0x4A3B0E2C, 0x31060B64, 0x2EC17D26)
  {
    hide WXor, HalfG;
    First(0x226930B0, 0xA4768709, 0x17161514, 1, 3, 9, 0, 9, 12, 15, 6, 4, 10, 3, 10, 11, 15, 7, 4, 4, 13, 0, 15, 14, 2, 11, 10,
      0, 2, 4, 4, 8, 14, 3, 14, 0x5DCE, 0x5DCE0735, 0x2C8, 0x2C811D41);
    Second(0x4D0FE2BA, 0x02448E3E, 0x23222120, 2, 12, 8, 1, 1, 13, 4, 1, 5, 13, 12, 14, 0, 7, 3, 5, 9, 12, 11, 3, 2, 1, 1, 11,
      3, 1, 0, 6, 0, 11, 6, 4, 0x2E, 0x2EC17D26, 0x25, 0x4A3B0E2C);
  }

  lemma G37()
    ensures G(Quad(0x4336120D, 0x79142753, 0x5F2CCA97, 0xA3EE6147), 0x07060504, 0x1B1A1918)
      == Quad(0x9ED6CBBC, 0x8002FCAA, 0xC1122100, 0x02C1F5AB)
  {
    hide WXor, HalfG;
    First(0x4336120D, 0x5F2CCA97, 0x07060504, 7, 9, 1, 4, 2, 7, 5, 3, 10, 3, 14, 14, 6, 1, 4, 7, 12, 3, 5, 0, 3, 14, 6, 4,
      11, 14, 5, 0, 2, 11, 5, 5, 0x5F23, 0x5F2360BE, 0xC06, 0xC06C7440);
    Second(0xC3503E64, 0xBE502B55, 0x1B1A1918, 12, 0, 6, 12, 7, 4, 4, 0, 5, 15, 2, 3, 6, 0, 11, 14, 9, 14, 13, 6, 12, 11, 11, 12,
      12, 1, 1, 2, 2, 1, 0, 0, 0x2, 0x02C1F5AB, 0x40, 0x8002FCAA);
  }

  lemma G40()
    ensures G(Quad(0xED37CC74, 0x8002FCAA, 0x31060B64, 0x7C3F5E12), 0x33323130, 0x37363534)
      == Quad(0x89788583, 0x22288AB4, 0xA5900C10, 0xD02D2459)
  {
    hide WXor, HalfG;
    First(0xED37CC74, 0x31060B64, 0x33323130, 8, 0, 0, 2, 15, 12, 10, 10, 7, 12, 3, 15, 5, 14, 1, 2, 10, 0, 6, 12, 15, 10, 4, 14,
      13, 5, 6, 2, 14, 7, 11, 7, 0xA45C, 0xA45CDC53, 0xB1D, 0xB1D55601);
    Second(0xA06CFA4E, 0xD562E7B7, 0x37363534, 11, 1, 13, 5, 5, 6, 0, 1, 10, 4, 5, 12, 13, 12, 5, 3, 8, 9, 7, 8, 8, 5, 8, 3,
      10, 5, 9, 0, 0, 12, 1, 0, 0xD0, 0xD02D2459, 0x11, 0x22288AB4);
  }

  lemma G41()
    ensures G(Quad(0xB9E66D6C, 0x95DC1075, 0xC1122100, 0x2EC17D26), 0x27262524, 0x2F2E2D2C)
      == Quad(0x3BD77EC7, 0xB237B787, 0x8E1B6D4F, 0xEEE5F426)
  {
    hide WXor, HalfG;
    First(0xB9E66D6C, 0xC1122100, 0x27262524, 9, 5, 13, 12, 1, 0, 7, 5, 2, 14, 12, 1, 7, 13, 2, 6, 7, 6, 14, 8, 10, 3, 0, 5,
      9, 15, 3, 5, 7, 9, 2, 9, 0xDE23, 0xDE235829, 0x95C, 0x95C0AE96);
    Second(0x76E8A305, 0x9F357929, 0x2F2E2D2C, 9, 5, 12, 0, 10, 14, 9, 6, 13, 14, 2, 3, 5, 8, 2, 9, 3, 11, 13, 7, 7, 14, 12, 7,
      8, 14, 1, 11, 6, 13, 4, 15, 0xEE, 0xEEE5F426, 0x59, 0xB237B787);
  }

  lemma G42()
    ensures G(Quad(0x9CB3211B, 0x461006E7, 0xFCC44624, 0x02C1F5AB), 0x3F3E3D3C, 0x2B2A2928)
      == Quad(0x4D6842FC, 0xA19417A1, 0xCA376446, 0x3CDDFD62)
  {
    hide WXor, HalfG;
    First(0x9CB3211B, 0xFCC44624, 0x3F3E3D3C, 4, 6, 1, 0, 0, 6, 14, 7, 0, 2, 12, 1, 15, 5, 10, 11, 2, 2, 0, 1, 6, 5, 3, 14,
      8, 13, 5, 9, 6, 6, 14, 4, 0x9095, 0x909520C0, 0x3, 0x003CB496);
    Second(0x2201653E, 0x8D5966E4, 0x2B2A2928, 0, 0, 3, 12, 11, 4, 9, 6, 9, 0, 9, 5, 2, 0, 12, 0, 4, 13, 6, 8, 4, 2, 15, 12,
      12, 10, 3, 7, 6, 4, 4, 6, 0x3C, 0x3CDDFD62, 0x50, 0xA19417A1);
  }

  lemma G43()
    ensures G(Quad(0x9ED6CBBC, 0x4A3B0E2C, 0x5997F509, 0xE4514841), 0x3B3A3938, 0x23222120)
      == Quad(0xF81E206B, 0x5B3665B2, 0x2B9D3506, 0x76A37FE0)
  {
    hide WXor, HalfG;
    First(0x9ED6CBBC, 0x5997F509, 0x3B3A3938, 4, 10, 3, 11, 0, 14, 2, 12, 14, 4, 5, 1, 4, 8, 4, 1, 2, 4, 4, 12, 1, 3, 2, 0,
      11, 4, 15, 9, 11, 5, 2, 6, 0x5B61, 0x5B61C01D, 0xB0A, 0xB0AFEC2B);
    Second(0x244C1320, 0xB4F9B526, 0x23222120, 11, 0, 10, 15, 14, 12, 2, 11, 5, 11, 6, 1, 12, 0, 1, 13, 15, 8, 1, 14, 2, 0, 6, 11,
      2, 11, 9, 13, 3, 5, 0, 6, 0x76, 0x76A37FE0, 0x2D, 0x5B3665B2);
  }

  lemma G44()
    ensures G(Quad(0x89788583, 0xB237B787, 0xCA376446, 0x76A37FE0), 0x1F1E1D1C, 0x0B0A0908)
      == Quad(0xD91E3FD0, 0xC9BD7F68, 0xADFA68C6, 0xBDFCD813)
  {
    hide WXor, HalfG;
    First(0x89788583, 0xCA376446, 0x1F1E1D1C, 11, 2, 3, 7, 11, 7, 8, 7, 7, 6, 10, 3, 7, 15, 14, 0, 5, 10, 12, 14, 5, 10, 2, 6,
      14, 15, 15, 13, 9, 0, 11, 3, 0x25C6, 0x25C62C6D, 0x734, 0x7345DCA2);
    Second(0x5ACE5A26, 0xEFFD90B3, 0x0B0A0908, 7, 3, 4, 5, 13, 12, 10, 2, 2, 5, 12, 6, 2, 12, 6, 13, 13, 9, 1, 14, 3, 15, 13, 0,
      10, 13, 15, 10, 6, 8, 12, 6, 0xBD, 0xBDFCD813, 0x64, 0xC9BD7F68);
  }

  lemma G45()
    ensures G(Quad(0x3BD77EC7, 0xA19417A1, 0x2B9D3506, 0xD02D2459), 0x17161514, 0x0F0E0D0C)
      == Quad(0xE4C16DEC, 0x3E343F11, 0xFB2E3DFB, 0x406BE449)
  {
    hide WXor, HalfG;
    First(0x3BD77EC7, 0x2B9D3506, 0x17161514, 10, 1, 9, 4, 1, 7, 10, 1, 13, 0, 2, 13, 2, 4, 5, 9, 15, 4, 8, 1, 10, 11, 7, 12,
      11, 10, 12, 2, 5, 9, 11, 2, 0x8F25, 0x8F2524AC, 0xE13, 0xE131B564);
    Second(0xF481AB7C, 0xBAC259B2, 0x0F0E0D0C, 14, 1, 3, 1, 11, 5, 6, 4, 8, 15, 2, 5, 2, 4, 10, 12, 14, 4, 12, 1, 6, 13, 14, 12,
      15, 11, 2, 14, 3, 13, 15, 11, 0x40, 0x406BE449, 0x1F, 0x3E343F11);
  }

  lemma G46()
    ensures G(Quad(0x4D6842FC, 0x5B3665B2, 0xA5900C10, 0xEEE5F426), 0x03020100, 0x07060504)
      == Quad(0x011C3195, 0x553A02CE, 0xD374E5C9, 0xD05C9474)
  {
    hide WXor, HalfG;
    First(0x4D6842FC, 0xA5900C10, 0x03020100, 5, 11, 3, 6, 6, 5, 11, 2, 14, 14, 14, 5, 15, 4, 2, 6, 10, 11, 10, 0, 10, 9, 10, 14,
      0, 3, 1, 8, 5, 1, 5, 5, 0x5D88, 0x5D884545, 0x4E7, 0x4E7582E3);
    Second(0xABA0A9AE, 0x03185155, 0x07060504, 4, 14, 7, 5, 8, 2, 14, 3, 5, 13, 8, 8, 4, 5, 4, 5, 0, 1, 1, 12, 3, 1, 9, 5,
      13, 3, 7, 4, 14, 5, 12, 9, 0xD0, 0xD05C9474, 0x2A, 0x553A02CE);
  }

  lemma G47()
    ensures G(Quad(0xF81E206B, 0x22288AB4, 0x8E1B6D4F, 0x3CDDFD62), 0x1B1A1918, 0x13121110)
      == Quad(0x24012AD6, 0x41D2073D, 0x328DCB2F, 0x6B1D5423)
  {
    hide WXor, HalfG;
    First(0xF81E206B, 0x8E1B6D4F, 0x1B1A1918, 2, 2, 2, 8, 8, 10, 11, 4, 3, 12, 13, 13, 15, 13, 6, 2, 3, 5, 6, 0, 12, 4, 3, 7,
      12, 7, 7, 0, 7, 7, 0, 12, 0x3955, 0x395509BD, 0xDB8, 0xDB8E558F);
    Second(0x3560C437, 0xC770770C, 0x13121110, 13, 11, 8, 14, 5, 5, 8, 15, 3, 9, 5, 5, 0, 9, 11, 13, 2, 4, 0, 1, 2, 10, 13, 6,
      3, 2, 8, 13, 12, 11, 2, 15, 0x6B, 0x6B1D5423, 0x20, 0x41D2073D);
  }

  lemma G50()
    ensures G(Quad(0xD91E3FD0, 0x41D2073D, 0xD374E5C9, 0x406BE449), 0x27262524, 0x3B3A3938)
      == Quad(0x75024957, 0xFEE2B782, 0x86EA6291, 0x2AFD7A4B)
  {
    hide WXor, HalfG;
    First(0xD91E3FD0, 0xD374E5C9, 0x27262524, 4, 1, 13, 2, 0, 7, 3, 13, 4, 0, 6, 11, 14, 4, 4, 9, 4, 2, 1, 6, 6, 12, 3, 1,
      5, 11, 14, 12, 14, 8, 4, 6, 0x8878, 0x8878027D, 0xF7B, 0xF7B1A3EE);
    Second(0x42166C31, 0x5BECE846, 0x3B3A3938, 15, 7, 11, 1, 10, 3, 14, 14, 8, 8, 7, 8, 0, 2, 7, 13, 7, 5, 0, 2, 4, 9, 5, 7,
      8, 6, 14, 10, 6, 2, 9, 1, 0x2A, 0x2AFD7A4B, 0x7F, 0xFEE2B782);
  }

  lemma G51()
    ensures G(Quad(0xE4C16DEC, 0xC9BD7F68, 0x328DCB2F, 0xD05C9474), 0x2F2E2D2C, 0x17161514)
      == Quad(0x5943B35E, 0x282BB226, 0x715990DE, 0xAFD7B7BE)
  {
    hide WXor, HalfG;
    First(0xE4C16DEC, 0x328DCB2F, 0x2F2E2D2C, 12, 9, 11, 13, 7, 15, 6, 8, 13, 0, 5, 12, 9, 4, 7, 4, 13, 13, 10, 13, 1, 10, 8, 0,
      12, 1, 8, 1, 13, 9, 2, 0, 0x8EF4, 0x8EF40DF1, 0x648, 0x648083CA);
    Second(0xDDAD1A80, 0xC181D920, 0x17161514, 6, 4, 8, 0, 8, 3, 12, 10, 8, 14, 15, 4, 0, 13, 15, 1, 5, 9, 4, 3, 11, 3, 5, 14,
      7, 1, 5, 9, 9, 0, 13, 14, 0xAF, 0xAFD7B7BE, 0x14, 0x282BB226);
  }

  lemma G52()
    ensures G(Quad(0x011C3195, 0x3E343F11, 0xADFA68C6, 0x6B1D5423), 0x23222120, 0x33323130)
      == Quad(0x67E9A1AA, 0xD3D78B40, 0x39817EDD, 0xC5A20CA8)
  {
    hide WXor, HalfG;
    First(0x011C3195, 0xADFA68C6, 0x23222120, 3, 14, 3, 4, 3, 15, 1, 1, 6, 11, 1, 13, 5, 4, 2, 3, 6, 2, 7, 2, 9, 1, 12, 6,
      7, 3, 13, 15, 7, 2, 3, 5, 0xC5E5, 0xC5E5096F, 0xD24, 0xD244DEB4);
    Second(0x627291C6, 0x73DF7235, 0x33323130, 13, 2, 4, 4, 13, 14, 11, 4, 12, 5, 14, 5, 0, 9, 6, 15, 6, 7, 14, 9, 10, 1, 10, 10,
      3, 9, 8, 1, 7, 14, 13, 13, 0xC5, 0xC5A20CA8, 0x69, 0xD3D78B40);
  }

  lemma G53()
    ensures G(Quad(0x24012AD6, 0x553A02CE, 0xFB2E3DFB, 0xBDFCD813), 0x3F3E3D3C, 0x07060504)
      == Quad(0xD46F2198, 0x21BED0DC, 0xCB87DFA4, 0x1D669C24)
  {
    hide WXor, HalfG;
    First(0x24012AD6, 0xFB2E3DFB, 0x3F3E3D3C, 5, 5, 3, 10, 0, 2, 12, 14, 11, 13, 15, 12, 13, 8, 1, 3, 11, 8, 7, 9, 6, 10, 14, 0,
      10, 14, 2, 1, 4, 3, 8, 0, 0xB2F3, 0xB2F30585, 0x14E, 0x14EFB1B4);
    Second(0xB8796AE0, 0xAE214380, 0x07060504, 1, 4, 14, 15, 11, 1, 11, 4, 11, 2, 15, 3, 0, 5, 8, 5, 13, 4, 6, 15, 2, 1, 9, 8,
      12, 11, 8, 7, 13, 15, 10, 4, 0x1D, 0x1D669C24, 0x10, 0x21BED0DC);
  }

  lemma G54()
    ensures G(Quad(0x75024957, 0x282BB226, 0x39817EDD, 0x1D669C24), 0x37363534, 0x0F0E0D0C)
      == Quad(0x430F218C, 0x10553402, 0x7506E2C7, 0x8EEF9AE8)
  {
    hide WXor, HalfG;
    First(0x75024957, 0x39817EDD, 0x37363534, 2, 8, 2, 11, 11, 2, 2, 6, 1, 13, 6, 6, 9, 12, 2, 4, 13, 4, 6, 4, 3, 0, 11, 1,
      14, 6, 1, 7, 4, 7, 13, 15, 0xAC95, 0xAC95C902, 0x5F9, 0x5F9CE3CF);
    Second(0xD46430B1, 0xE61747DF, 0x0F0E0D0C, 5, 15, 9, 12, 14, 3, 12, 15, 10, 12, 9, 5, 12, 9, 0, 2, 4, 3, 0, 15, 2, 1, 8, 12,
      7, 5, 0, 6, 14, 2, 12, 7, 0x8E, 0x8EEF9AE8, 0x8, 0x10553402);
  }

  lemma G55()
    ensures G(Quad(0x5943B35E, 0xD3D78B40, 0xCB87DFA4, 0x2AFD7A4B), 0x03020100, 0x2B2A2928)
      == Quad(0x7793917D, 0x716586D3, 0xAE8F410F, 0x9D32468B)
  {
    hide WXor, HalfG;
    First(0x5943B35E, 0xCB87DFA4, 0x03020100, 13, 3, 13, 7, 8, 11, 4, 0, 2, 10, 15, 13, 7, 10, 4, 11, 3, 0, 1, 13, 3, 15, 9, 14,
      1, 1, 5, 12, 15, 10, 8, 4, 0x45D5, 0x45D51AE0, 0x1C4, 0x1C4C28B7);
    Second(0x301D3F9E, 0x115CFA84, 0x2B2A2928, 1, 12, 4, 12, 2, 8, 11, 7, 4, 5, 13, 5, 1, 10, 14, 0, 7, 7, 9, 3, 9, 1, 7, 13,
      10, 14, 8, 15, 4, 1, 0, 15, 0x9D, 0x9D32468B, 0x38, 0x716586D3);
  }

  lemma G56()
    ensures G(Quad(0x67E9A1AA, 0x21BED0DC, 0x86EA6291, 0xAFD7B7BE), 0x0B0A0908, 0x1B1A1918)
      == Quad(0x8273BEEA, 0x7E619F96, 0xE268E17B, 0x8F4E4385)
  {
    hide WXor, HalfG;
    First(0x67E9A1AA, 0x86EA6291, 0x0B0A0908, 2, 1, 11, 14, 13, 0, 13, 12, 10, 15, 13, 7, 11, 7, 11, 14, 9, 4, 11, 2, 7, 11, 8, 14,
      5, 3, 1, 10, 9, 13, 15, 6, 0xCC30, 0xCC303B65, 0xD2A, 0xD2A72A44);
    Second(0x94B27B8E, 0x531A9DF6, 0x1B1A1918, 13, 2, 10, 7, 2, 10, 4, 4, 12, 12, 3, 0, 3, 11, 6, 5, 8, 2, 7, 3, 11, 14, 14, 10,
      14, 2, 6, 8, 14, 1, 7, 11, 0x8F, 0x8F4E4385, 0x3F, 0x7E619F96);
  }

  lemma G57()
    ensures G(Quad(0xD46F2198, 0xFEE2B782, 0x715990DE, 0xC5A20CA8), 0x13121110, 0x1F1E1D1C)
      == Quad(0x375C9AD6, 0x90BCEE01, 0x6FAD9358, 0x17D1DEB9)
  {
    hide WXor, HalfG;
    First(0xD46F2198, 0x715990DE, 0x13121110, 15, 14, 14, 2, 11, 7, 8, 2, 12, 5, 10, 2, 0, 12, 10, 8, 14, 6, 6, 3, 14, 10, 2, 10,
      5, 7, 13, 11, 11, 4, 9, 15, 0xE682, 0xE68223C1, 0x31D, 0x31DA9390);
    Second(0xE663EA2A, 0x57DBB49F, 0x1F1E1D1C, 3, 1, 13, 10, 9, 3, 9, 0, 14, 6, 8, 2, 2, 3, 12, 1, 3, 7, 5, 12, 9, 10, 13, 6,
      6, 15, 10, 13, 9, 3, 5, 8, 0x17, 0x17D1DEB9, 0x48, 0x90BCEE01);
  }

  lemma G60()
    ensures G(Quad(0x430F218C, 0x90BCEE01, 0xE268E17B, 0x9D32468B), 0x2F2E2D2C, 0x3F3E3D3C)
      == Quad(0x36653C6B, 0x20179635, 0xFFE7D8E6, 0xA34C57A3)
  {
    hide WXor, HalfG;
    First(0x430F218C, 0xE268E17B, 0x2F2E2D2C, 9, 0, 11, 12, 14, 14, 0, 1, 9, 13, 3, 2, 4, 6, 8, 11, 0, 2, 15, 10, 3, 12, 11, 9,
      5, 12, 9, 11, 8, 1, 4, 3, 0x7A32, 0x7A329FC8, 0xF42, 0xF42CC276);
    Second(0x02FA3CB9, 0x5C9B8143, 0x3F3E3D3C, 15, 4, 2, 12, 12, 2, 7, 6, 7, 10, 3, 2, 9, 15, 12, 8, 3, 6, 6, 5, 3, 12, 6, 11,
      15, 15, 14, 7, 13, 8, 14, 6, 0xA3, 0xA34C57A3, 0x10, 0x20179635);
  }

  lemma G61()
    ensures G(Quad(0x7793917D, 0x10553402, 0x6FAD9358, 0x8F4E4385), 0x17161514, 0x03020100)
      == Quad(0xB2A264FC, 0x28889DA0, 0x54EF597D, 0x4C2BB475)
  {
    hide WXor, HalfG;
    First(0x7793917D, 0x6FAD9358, 0x17161514, 1, 0, 5, 5, 3, 4, 0, 2, 8, 15, 4, 14, 4, 3, 8, 5, 9, 14, 15, 14, 13, 10, 9, 3,
      0, 8, 12, 3, 10, 5, 0, 8, 0x9916, 0x991611B0, 0x10A, 0x10A18969);
    Second(0x9EFEDA93, 0x08C3A508, 0x03020100, 1, 0, 10, 1, 8, 9, 6, 9, 9, 9, 1, 6, 1, 1, 11, 0, 11, 2, 10, 2, 6, 4, 15, 12,
      5, 4, 14, 15, 5, 9, 7, 13, 0x4C, 0x4C2BB475, 0x14, 0x28889DA0);
  }

  lemma G62()
    ensures G(Quad(0x8273BEEA, 0x716586D3, 0x7506E2C7, 0x17D1DEB9), 0x07060504, 0x27262524)
      == Quad(0xB26CF189, 0xAA0184C4, 0x90A5E3F1, 0x8726141C)
  {
    hide WXor, HalfG;
    First(0x8273BEEA, 0x7506E2C7, 0x07060504, 7, 1, 6, 5, 8, 6, 13, 3, 1, 7, 13, 1, 13, 14, 11, 9, 15, 10, 13, 15, 4, 10, 12, 1,
      0, 9, 7, 15, 12, 15, 13, 5, 0x9478, 0x9478ED0E, 0x906, 0x906781A4);
    Second(0xFADF4AC1, 0x097FCFD5, 0x27262524, 9, 0, 6, 7, 8, 1, 10, 4, 9, 4, 7, 8, 14, 13, 0, 14, 11, 2, 6, 12, 15, 1, 8, 9,
      9, 0, 10, 5, 14, 3, 15, 1, 0x87, 0x8726141C, 0x55, 0xAA0184C4);
  }

  lemma G63()
    ensures G(Quad(0x375C9AD6, 0x7E619F96, 0xAE8F410F, 0x8EEF9AE8), 0x23222120, 0x1B1A1918)
      == Quad(0x7C7B8DC4, 0xB366635F, 0x3BB0B6F9, 0xCBBD1FDB)
  {
    hide WXor, HalfG;
    First(0x375C9AD6, 0xAE8F410F, 0x23222120, 7, 14, 6, 1, 9, 15, 9, 6, 8, 14, 14, 15, 9, 10, 14, 8, 13, 8, 14, 0, 5, 11, 8, 12,
      6, 15, 15, 3, 9, 7, 1, 14, 0xC164, 0xC164560F, 0x888, 0x88811920);
    Second(0xD8E05B8C, 0x6FF3971E, 0x1B1A1918, 8, 8, 8, 1, 1, 9, 2, 0, 12, 1, 6, 4, 5, 6, 0, 15, 7, 12, 7, 11, 8, 13, 12, 4,
      3, 11, 11, 0, 11, 6, 15, 9, 0xCB, 0xCBBD1FDB, 0x59, 0xB366635F);
  }

  lemma G64()
    ensures G(Quad(0x36653C6B, 0x28889DA0, 0x90A5E3F1, 0xCBBD1FDB), 0x3B3A3938, 0x2B2A2928)
      == Quad(0x47BD97D5, 0x4CBFC400, 0xDD895B4C, 0x404B25C6)
  {
    hide WXor, HalfG;
    First(0x36653C6B, 0x90A5E3F1, 0x3B3A3938, 2, 8, 8, 8, 9, 13, 10, 0, 12, 11, 11, 13, 1, 15, 13, 11, 9, 10, 2, 8, 1, 3, 4, 3,
      9, 13, 3, 14, 3, 5, 8, 6, 0xC98, 0x0C985195, 0x826, 0x826B5B6A);
    Second(0x9A281343, 0x9D3E3586, 0x2B2A2928, 8, 2, 6, 11, 5, 11, 6, 10, 0, 12, 9, 8, 5, 1, 9, 5, 4, 7, 11, 13, 9, 7, 13, 5,
      13, 13, 8, 9, 5, 11, 4, 12, 0x40, 0x404B25C6, 0x26, 0x4CBFC400);
  }

  lemma G65()
    ensures G(Quad(0xB2A264FC, 0xAA0184C4, 0x3BB0B6F9, 0xA34C57A3), 0x0B0A0908, 0x33323130)
      == Quad(0x8CC4D5D7, 0x69CD4536, 0x17462AEB, 0x3629AF11)
  {
    hide WXor, HalfG;
    First(0xB2A264FC, 0x3BB0B6F9, 0x0B0A0908, 10, 10, 0, 1, 8, 4, 12, 4, 10, 3, 4, 12, 5, 7, 10, 3, 6, 7, 10, 13, 15, 2, 12, 8,
      14, 1, 1, 12, 7, 11, 13, 10, 0xA56B, 0xA56BC4E1, 0xF1E, 0xF1E4B1DF);
    Second(0x67ADF2C8, 0xE11C7BDA, 0x33323130, 15, 1, 14, 4, 11, 1, 13, 15, 10, 5, 6, 11, 12, 4, 14, 1, 8, 12, 12, 4, 13, 5, 13, 7,
      1, 7, 4, 6, 2, 10, 14, 11, 0x36, 0x3629AF11, 0x34, 0x69CD4536);
  }

  lemma G66()
    ensures G(Quad(0xB26CF189, 0xB366635F, 0xFFE7D8E6, 0x4C2BB475), 0x0F0E0D0C, 0x13121110)
      == Quad(0xB6E9D3FB, 0xD8507434, 0x06CC7A9B, 0x316368EB)
  {
    hide WXor, HalfG;
    First(0xB26CF189, 0xFFE7D8E6, 0x0F0E0D0C, 11, 3, 6, 6, 6, 3, 5, 15, 4, 12, 2, 11, 11, 4, 7, 5, 7, 4, 14, 1, 6, 1, 15, 4,
      13, 5, 6, 9, 1, 1, 11, 0, 0xD581, 0xD58138CA, 0x2EF, 0x2EF660F7);
    Second(0x74E161F4, 0xD56911B0, 0x13121110, 2, 14, 15, 6, 6, 0, 15, 7, 13, 5, 8, 1, 3, 8, 12, 10, 11, 6, 14, 9, 13, 3, 15, 11,
      0, 6, 12, 12, 7, 10, 9, 11, 0x31, 0x316368EB, 0x6C, 0xD8507434);
  }

  lemma G67()
    ensures G(Quad(0x7C7B8DC4, 0x20179635, 0x54EF597D, 0x8726141C), 0x1F1E1D1C, 0x37363534)
      == Quad(0xF5001539, 0x9AB50003, 0x58989F3D, 0xAEA00929)
  {
    hide WXor, HalfG;
    First(0x7C7B8DC4, 0x54EF597D, 0x1F1E1D1C, 2, 0, 1, 7, 9, 6, 3, 5, 8, 7, 2, 6, 1, 4, 1, 12, 11, 11, 11, 1, 4, 1, 1, 5,
      10, 9, 15, 8, 9, 6, 1, 4, 0x5509, 0x55093C97, 0x21, 0x02189EF0);
    Second(0xBBB14115, 0xA9F89614, 0x37363534, 0, 2, 1, 8, 9, 14, 15, 0, 5, 5, 0, 9, 3, 12, 9, 7, 15, 5, 0, 0, 1, 5, 3, 9,
      5, 8, 9, 8, 9, 15, 3, 13, 0xAE, 0xAEA00929, 0x4D, 0x9AB50003);
  }

  // ----- the seven rounds

  const V0: Words16 :=
    [0x6A09E667, 0xBB67AE85, 0x3C6EF372, 0xA54FF53A, 0x510E527F, 0x9B05688C, 0x1F83D9AB, 0x5BE0CD19,
     0x6A09E667, 0xBB67AE85, 0x3C6EF372, 0xA54FF53A, 0x00000000, 0x00000000, 0x00000040, 0x0000000B]

  const V1: Words16 :=
    [0x841B353A, 0xBC762A99, 0x7BC6F67C, 0x0DB12F4B, 0x13AC4CB6, 0xAB80B582, 0x78D7C89F, 0x44ADB812,
     0x0A9A96E0, 0xC7F9BD09, 0x17FE2798, 0xC15304DC, 0x05E7AB0B, 0xF1CA1402, 0x458798AB, 0xB48BE36E]

  const V2: Words16 :=
    [0xBADA2BD4, 0x117A63C6, 0x1098B66C, 0x58BD36D5, 0x9C33E5B7, 0x06C6D7AF, 0x00E3E701, 0xE69BF088,
     0x1A159720, 0xB4A1B01C, 0xBB0C1B51, 0xF7F9C5F5, 0x5A047616, 0xE2193F4B, 0xBDEC2A97, 0x02886034]

  const V3: Words16 :=
    [0x9AF92CCD, 0x7F46F5A3, 0x04C1D031, 0x106A65AF, 0xD0F47EE1, 0x3E258331, 0x10749322, 0x1D68CD00,
     0xCE5F0982, 0x729A0239, 0xEBFC97F9, 0x40E13997, 0xB5926716, 0xF874085C, 0x27635083, 0x8E5EDD27]

  const V4: Words16 :=
    [0xED37CC74, 0xB9E66D6C, 0x9CB3211B, 0x9ED6CBBC, 0x8002FCAA, 0x95DC1075, 0x461006E7, 0x4A3B0E2C,
     0x31060B64, 0xC1122100, 0xFCC44624, 0x5997F509, 0x7C3F5E12, 0x2EC17D26, 0x02C1F5AB, 0xE4514841]

  const V5: Words16 :=
    [0xD91E3FD0, 0xE4C16DEC, 0x011C3195, 0x24012AD6, 0x41D2073D, 0xC9BD7F68, 0x3E343F11, 0x553A02CE,
     0xD374E5C9, 0x328DCB2F, 0xADFA68C6, 0xFB2E3DFB, 0x406BE449, 0xD05C9474, 0x6B1D5423, 0xBDFCD813]

  const V6: Words16 :=
    [0x430F218C, 0x7793917D, 0x8273BEEA, 0x375C9AD6, 0x90BCEE01, 0x10553402, 0x716586D3, 0x7E619F96,
     0xE268E17B, 0x6FAD9358, 0x7506E2C7, 0xAE8F410F, 0x9D32468B, 0x8F4E4385, 0x17D1DEB9, 0x8EEF9AE8]

  const V7: Words16 :=
    [0x47BD97D5, 0x8CC4D5D7, 0xB6E9D3FB, 0xF5001539, 0x9AB50003, 0x4CBFC400, 0x69CD4536, 0xD8507434,
     0x06CC7A9B, 0x58989F3D, 0xDD895B4C, 0x17462AEB, 0x3629AF11, 0x316368EB, 0xAEA00929, 0x404B25C6]

  const M0: Words16 :=
    [0x03020100, 0x07060504, 0x0B0A0908, 0x0F0E0D0C, 0x13121110, 0x17161514, 0x1B1A1918, 0x1F1E1D1C,
     0x23222120, 0x27262524, 0x2B2A2928, 0x2F2E2D2C, 0x33323130, 0x37363534, 0x3B3A3938, 0x3F3E3D3C]

  const M1: Words16 :=
    [0x0B0A0908, 0x1B1A1918, 0x0F0E0D0C, 0x2B2A2928, 0x1F1E1D1C, 0x03020100, 0x13121110, 0x37363534,
     0x07060504, 0x2F2E2D2C, 0x33323130, 0x17161514, 0x27262524, 0x3B3A3938, 0x3F3E3D3C, 0x23222120]

  const M2: Words16 :=
    [0x0F0E0D0C, 0x13121110, 0x2B2A2928, 0x33323130, 0x37363534, 0x0B0A0908, 0x1F1E1D1C, 0x3B3A3938,
     0x1B1A1918, 0x17161514, 0x27262524, 0x03020100, 0x2F2E2D2C, 0x3F3E3D3C, 0x23222120, 0x07060504]

  const M3: Words16 :=
    [0x2B2A2928, 0x1F1E1D1C, 0x33323130, 0x27262524, 0x3B3A3938, 0x0F0E0D0C, 0x37363534, 0x3F3E3D3C,
     0x13121110, 0x03020100, 0x2F2E2D2C, 0x0B0A0908, 0x17161514, 0x23222120, 0x07060504, 0x1B1A1918]

  const M4: Words16 :=
    [0x33323130, 0x37363534, 0x27262524, 0x2F2E2D2C, 0x3F3E3D3C, 0x2B2A2928, 0x3B3A3938, 0x23222120,
     0x1F1E1D1C, 0x0B0A0908, 0x17161514, 0x0F0E0D0C, 0x03020100, 0x07060504, 0x1B1A1918, 0x13121110]

  const M5: Words16 :=
    [0x27262524, 0x3B3A3938, 0x2F2E2D2C, 0x17161514, 0x23222120, 0x33323130, 0x3F3E3D3C, 0x07060504,
     0x37363534, 0x0F0E0D0C, 0x03020100, 0x2B2A2928, 0x0B0A0908, 0x1B1A1918, 0x13121110, 0x1F1E1D1C]

  const M6: Words16 :=
    [0x2F2E2D2C, 0x3F3E3D3C, 0x17161514, 0x03020100, 0x07060504, 0x27262524, 0x23222120, 0x1B1A1918,
     0x3B3A3938, 0x2B2A2928, 0x0B0A0908, 0x33323130, 0x0F0E0D0C, 0x13121110, 0x1F1E1D1C, 0x37363534]

  lemma Schedules()
    ensures M1 == Permute(M0) && M2 == Permute(M1) && M3 == Permute(M2)
    ensures M4 == Permute(M3) && M5 == Permute(M4) && M6 == Permute(M5)
  {
  }

  lemma Round0()
    ensures Round(V0, M0) == V1
  {
    hide G;
    G00(); G01(); G02(); G03(); G04(); G05(); G06(); G07();
  }

  lemma Round1()
    ensures Round(V1, M1) == V2
  {
    hide G;
    G10(); G11(); G12(); G13(); G14(); G15(); G16(); G17();
  }

  lemma Round2()
    ensures Round(V2, M2) == V3
  {
    hide G;
    G20(); G21(); G22(); G23(); G24(); G25(); G26(); G27();
  }

  lemma Round3()
    ensures Round(V3, M3) == V4
  {
    hide G;
    G30(); G31(); G32(); G33(); G34(); G35(); G36(); G37();
  }

  lemma Round4()
    ensures Round(V4, M4) == V5
  {
    hide G;
    G40(); G41(); G42(); G43(); G44(); G45(); G46(); G47();
  }

  lemma Round5()
    ensures Round(V5, M5) == V6
  {
    hide G;
    G50(); G51(); G52(); G53(); G54(); G55(); G56(); G57();
  }

  lemma Round6()
    ensures Round(V6, M6) == V7
  {
    hide G;
    G60(); G61(); G62(); G63(); G64(); G65(); G66(); G67();
  }

  // ----- the digest

  lemma Fold0()
    ensures WXor(0x47BD97D5, 0x06CC7A9B) == 0x4171ED4E
    ensures WXor(0x8CC4D5D7, 0x58989F3D) == 0xD45C4AEA
  {
    hide WXor;
    XorDigitsIsXor(4, 7, 11, 13, 9, 7, 13, 5, 0, 6, 12, 12, 7, 10, 9, 11);
    XorDigitsIsXor(8, 12, 12, 4, 13, 5, 13, 7, 5, 8, 9, 8, 9, 15, 3, 13);
  }

  lemma Fold2()
    ensures WXor(0xB6E9D3FB, 0xDD895B4C) == 0x6B6088B7
    ensures WXor(0xF5001539, 0x17462AEB) == 0xE2463FD2
  {
    hide WXor;
    XorDigitsIsXor(11, 6, 14, 9, 13, 3, 15, 11, 13, 13, 8, 9, 5, 11, 4, 12);
    XorDigitsIsXor(15, 5, 0, 0, 1, 5, 3, 9, 1, 7, 4, 6, 2, 10, 14, 11);
  }

  lemma Fold4()
    ensures WXor(0x9AB50003, 0x3629AF11) == 0xAC9CAF12
    ensures WXor(0x4CBFC400, 0x316368EB) == 0x7DDCACEB
  {
    hide WXor;
    XorDigitsIsXor(9, 10, 11, 5, 0, 0, 0, 3, 3, 6, 2, 9, 10, 15, 1, 1);
    XorDigitsIsXor(4, 12, 11, 15, 12, 4, 0, 0, 3, 1, 6, 3, 6, 8, 14, 11);
  }

  lemma Fold6()
    ensures WXor(0x69CD4536, 0xAEA00929) == 0xC76D4C1F
    ensures WXor(0xD8507434, 0x404B25C6) == 0x981B51F2
  {
    hide WXor;
    XorDigitsIsXor(6, 9, 12, 13, 4, 5, 3, 6, 10, 14, 10, 0, 0, 9, 2, 9);
    XorDigitsIsXor(13, 8, 5, 0, 7, 4, 3, 4, 4, 0, 4, 11, 2, 5, 12, 6);
  }

  const DIGEST: Words8 :=
    [0x4171ED4E, 0xD45C4AEA, 0x6B6088B7, 0xE2463FD2, 0xAC9CAF12, 0x7DDCACEB, 0xC76D4C1F, 0x981B51F2]

  lemma FoldIs()
    ensures Fold(V7) == DIGEST
  {
    hide WXor;
    Fold0(); Fold2(); Fold4(); Fold6();
  }

  /** The 64 bytes 0, 1, ..., 63, input of one of the published test vectors. */
  function CountingBytes(): (b: seq<Byte>)
    ensures |b| == 64
  {
    seq(64, (i: nat) requires i < 64 => i)
  }

  lemma BlockIs()
    ensures BlockWords(CountingBytes()) == M0
  {
    var b := CountingBytes();
    forall i | 0 <= i < 16 ensures BlockWords(b)[i] == 0x03020100 + 0x04040404 * i {
    }
  }

  /** Seven rounds over the permuted schedule. */
  lemma RoundsAre()
    ensures Rounds(V0, M0, 7) == V7
  {
    hide Round, Permute, Schedule;
    Schedules();
    ScheduleStep(M0, 0); ScheduleStep(M0, 1); ScheduleStep(M0, 2);
    ScheduleStep(M0, 3); ScheduleStep(M0, 4); ScheduleStep(M0, 5);
    RoundsStep(V0, M0, 0); RoundsStep(V0, M0, 1); RoundsStep(V0, M0, 2); RoundsStep(V0, M0, 3);
    RoundsStep(V0, M0, 4); RoundsStep(V0, M0, 5); RoundsStep(V0, M0, 6);
    Round0(); Round1(); Round2(); Round3(); Round4(); Round5(); Round6();
  }

  lemma CompressIs()
    ensures Compress(IV, M0, 0, 64, 11) == DIGEST
  {
    hide Rounds, Fold;
    assert InitialState(IV, 0, 64, 11) == V0;
    RoundsAre();
    FoldIs();
  }

  /** Its BLAKE3 digest is the published
      4eed7141ea4a5cd4b788606bd23f46e212af9cacebacdc7d1f4c6dc7f2511b98, here as
      eight little-endian words. */
  lemma PublishedDigest()
    ensures Hash256(CountingBytes())
      == [0x4171ED4E, 0xD45C4AEA, 0x6B6088B7, 0xE2463FD2, 0xAC9CAF12, 0x7DDCACEB, 0xC76D4C1F, 0x981B51F2]
  {
    hide Compress, BlockWords;
    assert CountingBytes() + Zeros(0) == CountingBytes();
    BlockIs();
    CompressIs();
  }

  // ----- the three blocks of a header

  /** Three blocks of a chunk: the first flagged 1 (chunk start), the second 0,
      the third, of 52 bytes, 10 (chunk end and root). */
  function ThreeBlocks(a: Words16, b: Words16, c: Words16): Words8 {
    hide Compress;
    Compress(Compress(Compress(IV, a, 0, 64, 1), b, 0, 64, 0), c, 0, 52, 10)
  }

  /** A header of 180 bytes is hashed as three blocks, the last one filled up
      with twelve zero bytes. */
  lemma HeaderHash(header: seq<Byte>)
    requires |header| == 180
    ensures Hash256(header) == ThreeBlocks(BlockWords(header[..64]), BlockWords(header[64..128]),
      BlockWords(header[128..] + [0, 0, 0, 0, 0, 0, 0, 0, 0, 0, 0, 0]))
  {
    hide Compress, BlockWords;
    assert header[64..][..64] == header[64..128] && header[64..][64..] == header[128..];
    assert Zeros(12) == [0, 0, 0, 0, 0, 0, 0, 0, 0, 0, 0, 0];
    assert Hash256(header) == ChunkFrom(header[64..], Chain(IV, header[..64], 64, CHUNK_START), 0);
  }
}
