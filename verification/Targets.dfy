/** The three comparisons of a proof-of-work hash with a target: the kernel's
    on 32-bit words, the miners' on bytes, the pool's on integers. */
module Targets {
  import opened Words
  import opened Blake3

  // ----- little-endian digit strings

  function Value(base: nat, digits: seq<nat>): nat {
    if digits == [] then 0 else digits[0] + base * Value(base, digits[1..])
  }

  /** The n lowest bytes of x, lowest first. */
  function LowBytes(x: nat, n: nat): (d: seq<Byte>)
    ensures |d| == n
  {
    if n == 0 then [] else [x % 0x100] + LowBytes(x / 0x100, n - 1)
  }

  lemma {:induction false} LowBytesValue(x: nat, n: nat)
    requires x < Pow2(8 * n)
    ensures Value(0x100, LowBytes(x, n)) == x
    decreases n
  {
    hide Pow2;
    if n == 0 {
      NoBits();
    } else {
      ByteShift(x, n);
      LowBytesValue(x / 0x100, n - 1);
      LowBytesStep(x, n);
    }
  }

  lemma NoBits()
    ensures Pow2(8 * 0) == 1
  {
  }

  lemma ByteShift(x: nat, n: nat)
    requires n > 0 && x < Pow2(8 * n)
    ensures x / 0x100 < Pow2(8 * (n - 1))
  {
    hide Pow2;
    PowerTable();
    PowSplit(8, 8 * (n - 1));
  }

  lemma LowBytesStep(x: nat, n: nat)
    requires n > 0
    ensures Value(0x100, LowBytes(x, n)) == x % 0x100 + 0x100 * Value(0x100, LowBytes(x / 0x100, n - 1))
  {
    assert LowBytes(x, n)[1..] == LowBytes(x / 0x100, n - 1);
  }

  /** The highest differing digit decides the order. */
  lemma {:induction false} TopDigitDecides(base: nat, a: seq<nat>, b: seq<nat>, k: nat)
    requires |a| == |b| && k < |a| && a[k + 1..] == b[k + 1..] && a[k] < b[k]
    requires forall i :: 0 <= i < |a| ==> a[i] < base
    ensures Value(base, a) < Value(base, b)
    decreases k
  {
    hide Value;
    var u, v := Value(base, a[1..]), Value(base, b[1..]);
    ValueUnfold(base, a);
    ValueUnfold(base, b);
    if k > 0 {
      assert a[1..][k..] == a[k + 1..] && b[1..][k..] == b[k + 1..];
      TopDigitDecides(base, a[1..], b[1..], k - 1);
      HigherDigit(base, a[0], u, v);
    }
  }

  lemma ValueUnfold(base: nat, digits: seq<nat>)
    requires digits != []
    ensures Value(base, digits) == digits[0] + base * Value(base, digits[1..])
  {
  }

  lemma HigherDigit(base: nat, x: nat, u: nat, v: nat)
    requires x < base && u < v
    ensures x + base * u < base * v
  {
    MulMono(u + 1, v, base);
    assert (u + 1) * base == base * u + base && v * base == base * v;
  }

  function Reverse<T>(s: seq<T>): (r: seq<T>)
    ensures |r| == |s| && forall i :: 0 <= i < |s| ==> r[i] == s[|s| - 1 - i]
  {
    if s == [] then [] else Reverse(s[1..]) + [s[0]]
  }

  lemma ReverseTwice<T>(s: seq<T>)
    ensures Reverse(Reverse(s)) == s
  {
  }

  // ----- hashes and targets as numbers

  const TWO256: int := 0x1_00000000_00000000_00000000_00000000_00000000_00000000_00000000_00000000

  type Bytes32 = s: seq<Byte> | |s| == 32
    witness [0, 0, 0, 0, 0, 0, 0, 0, 0, 0, 0, 0, 0, 0, 0, 0, 0, 0, 0, 0, 0, 0, 0, 0, 0, 0, 0, 0, 0, 0, 0, 0]

  /** A hash or target held in little-endian words, as a number. */
  function WordsInt(w: seq<Word>): nat {
    Value(0x1_0000_0000, w)
  }

  /** Little-endian bytes as a number: how a 32-byte hash is read. */
  function BytesInt(b: seq<Byte>): nat {
    Value(0x100, b)
  }

  /** Big-endian bytes as a number: how the miners store targets. */
  function BigEndianInt(b: seq<Byte>): nat {
    BytesInt(Reverse(b))
  }

  function WordBytes(w: seq<Word>): (b: seq<Byte>)
    ensures |b| == 4 * |w|
  {
    if w == [] then [] else StoreWord(w[0]) + WordBytes(w[1..])
  }

  function BytesWords(b: seq<Byte>): (w: seq<Word>)
    requires |b| % 4 == 0
    ensures |w| == |b| / 4
  {
    if b == [] then [] else [LoadWord(b[0], b[1], b[2], b[3])] + BytesWords(b[4..])
  }

  /** Reading a byte buffer as words does not change the number it holds. */
  lemma {:induction false} BytesWordsInt(b: seq<Byte>)
    requires |b| % 4 == 0
    ensures WordsInt(BytesWords(b)) == BytesInt(b)
    decreases |b|
  {
    if b != [] {
      BytesWordsInt(b[4..]);
      assert BytesWords(b)[1..] == BytesWords(b[4..]);
      ValueStep(b); ValueStep(b[1..]); ValueStep(b[2..]); ValueStep(b[3..]);
    }
  }

  lemma ValueStep(b: seq<Byte>)
    requires b != []
    ensures BytesInt(b) == b[0] + 0x100 * BytesInt(b[1..])
    ensures |b| > 1 ==> b[1..][1..] == b[2..] && b[1..][0] == b[1]
  {
  }

  lemma {:induction false} WordBytesWords(w: seq<Word>)
    ensures BytesWords(WordBytes(w)) == w
    decreases |w|
  {
    if w != [] {
      WordBytesWords(w[1..]);
      assert WordBytes(w)[4..] == WordBytes(w[1..]);
    }
  }

  /** The 32 digest bytes hold the same number as the eight digest words. */
  lemma DigestInt(w: Words8)
    ensures BytesInt(WordBytes(w)) == WordsInt(w)
  {
    BytesWordsInt(WordBytes(w));
    WordBytesWords(w);
  }

  /** big.Int.FillBytes into 32 bytes: the absolute value, big endian. */
  function ToTargetBytes(target: int): Bytes32
    requires -TWO256 < target < TWO256
  {
    Reverse(LowBytes(if target < 0 then -target else target, 32))
  }

  lemma Pow256()
    ensures Pow2(8 * 32) == TWO256
  {
    hide Pow2;
    PowerTable();
    PowSplit(32, 32); PowSplit(64, 64); PowSplit(128, 128);
  }

  lemma TargetBytesInt(target: int)
    requires -TWO256 < target < TWO256
    ensures BigEndianInt(ToTargetBytes(target)) == if target < 0 then -target else target
  {
    var x: nat := if target < 0 then -target else target;
    Pow256();
    ReverseTwice(LowBytes(x, 32));
    LowBytesValue(x, 32);
  }

  // ----- the comparators

  /** The kernel's loop over eight words from the top. */
  method Accepts(tmp: array<Word>, target: array<Word>) returns (accept: bool)
    requires tmp.Length == 8 && target.Length == 8
    ensures accept <==> WordsInt(tmp[..]) <= WordsInt(target[..])
  {
    accept := true;
    for i := 8 downto 0
      invariant accept && tmp[i..] == target[i..]
    {
      if tmp[i] > target[i] {
        TopDigitDecides(0x1_0000_0000, target[..], tmp[..], i);
        return false;
      }
      if tmp[i] < target[i] {
        TopDigitDecides(0x1_0000_0000, tmp[..], target[..], i);
        return true;
      }
    }
    assert tmp[..] == tmp[0..] == target[0..] == target[..];
  }

  /** The miners' loop over the bytes, hash reversed against the target. */
  method CmpHashTarget(sum: Bytes32, be: Bytes32) returns (c: int)
    ensures c == if BytesInt(sum) < BigEndianInt(be) then -1
                 else if BytesInt(sum) == BigEndianInt(be) then 0 else 1
  {
    ghost var le := Reverse(be);
    for i := 0 to 32
      invariant sum[32 - i..] == le[32 - i..]
    {
      var a, b := sum[31 - i], be[i];
      if a != b {
        if a < b {
          TopDigitDecides(0x100, sum, le, 31 - i);
          return -1;
        }
        TopDigitDecides(0x100, le, sum, 31 - i);
        return 1;
      }
    }
    assert sum[0..] == sum && le[0..] == le;
    return 0;
  }

  datatype Decision = Rejected | AcceptedShare | SubmitBlock

  /** The pool's decision on integers. */
  function EvaluateSubmit(hash: int, shareTarget: int, blockTarget: int): (d: Decision)
    ensures d != Rejected <==> hash <= shareTarget
    ensures d == SubmitBlock <==> hash <= shareTarget && hash <= blockTarget
  {
    if hash > shareTarget then Rejected
    else if hash > blockTarget then AcceptedShare
    else SubmitBlock
  }

  /** The miners' decision on bytes. */
  method ClassifySolution(sum: Bytes32, shareBE: Bytes32, blockBE: Bytes32)
    returns (isShare: bool, isBlock: bool)
    ensures Verdict(isShare, isBlock)
         == EvaluateSubmit(BytesInt(sum), BigEndianInt(shareBE), BigEndianInt(blockBE))
    ensures isShare <==> BytesInt(sum) <= BigEndianInt(shareBE)
    ensures isBlock <==> isShare && BytesInt(sum) <= BigEndianInt(blockBE)
  {
    var c := CmpHashTarget(sum, shareBE);
    if c > 0 {
      return false, false;
    }
    c := CmpHashTarget(sum, blockBE);
    return true, c <= 0;
  }

  function Verdict(isShare: bool, isBlock: bool): Decision {
    if !isShare then Rejected else if isBlock then SubmitBlock else AcceptedShare
  }

  /** A kernel that is handed the miner's target bytes reversed, as words,
      accepts exactly the digests whose 256-bit value is at most the target. */
  lemma KernelTarget(digest: Words8, target: nat)
    requires target < TWO256
    ensures var words := BytesWords(Reverse(ToTargetBytes(target)));
            |words| == 8 && WordsInt(words) == target
            && (WordsInt(digest) <= WordsInt(words) <==> BytesInt(WordBytes(digest)) <= target)
  {
    var le := Reverse(ToTargetBytes(target));
    BytesWordsInt(le);
    TargetBytesInt(target);
    DigestInt(digest);
  }

  /** Miner and pool decide alike on the same hash and targets, unless the
      block target is negative: its bytes then hold the absolute value, and the
      verdicts differ exactly on shares at or below that value. */
  lemma VerdictsAgree(digest: Words8, shareTarget: nat, blockTarget: int)
    requires shareTarget < TWO256 && -TWO256 < blockTarget < TWO256
    ensures var hash := BytesInt(WordBytes(digest));
      EvaluateSubmit(hash, BigEndianInt(ToTargetBytes(shareTarget)), BigEndianInt(ToTargetBytes(blockTarget)))
        == EvaluateSubmit(hash, shareTarget, blockTarget)
      <==> blockTarget >= 0 || hash > shareTarget || hash > -blockTarget
  {
    TargetBytesInt(shareTarget);
    TargetBytesInt(blockTarget);
  }
}
