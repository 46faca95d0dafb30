/** The single-chunk BLAKE3 hash as its specification states it ("BLAKE3: one
    function, fast everywhere", sections 2.2 and 2.4): the simple form that the
    array code of the miners is proved against. */
module Blake3 {
  import opened Words

  type Words8 = s: seq<Word> | |s| == 8 witness [0, 0, 0, 0, 0, 0, 0, 0]
  type Words16 = s: seq<Word> | |s| == 16 witness [0, 0, 0, 0, 0, 0, 0, 0, 0, 0, 0, 0, 0, 0, 0, 0]
  type Index = i: nat | i < 16

  const IV: Words8 := [0x6A09E667, 0xBB67AE85, 0x3C6EF372, 0xA54FF53A,
                       0x510E527F, 0x9B05688C, 0x1F83D9AB, 0x5BE0CD19]

  /** The message permutation: word i of the next schedule is word SIGMA[i]. */
  const SIGMA: seq<Index> := [2, 6, 3, 10, 7, 0, 4, 13, 1, 11, 12, 5, 9, 14, 15, 8]

  const ROUNDS: nat := 7

  const CHUNK_START: Word := 1
  const CHUNK_END: Word := 2
  const ROOT: Word := 8

  // ----- the quarter round and its inverse

  datatype Quad = Quad(a: Word, b: Word, c: Word, d: Word)
  type Quads = s: seq<Quad> | |s| == 4
    witness [Quad(0, 0, 0, 0), Quad(0, 0, 0, 0), Quad(0, 0, 0, 0), Quad(0, 0, 0, 0)]

  /** One half of the quarter round, with rotation counts s and t. */
  function HalfG(q: Quad, x: Word, s: nat, t: nat): Quad
    requires 0 < s < 32 && 0 < t < 32
  {
    var a := U32(q.a + q.b + x);
    var d := Rotr(WXor(q.d, a), s);
    var c := U32(q.c + d);
    var b := Rotr(WXor(q.b, c), t);
    Quad(a, b, c, d)
  }

  function UnHalfG(q: Quad, x: Word, s: nat, t: nat): Quad
    requires 0 < s < 32 && 0 < t < 32
  {
    var b := WXor(Rotr(q.b, 32 - t), q.c);
    var c := U32(q.c - q.d);
    var d := WXor(Rotr(q.d, 32 - s), q.a);
    Quad(U32(q.a - b - x), b, c, d)
  }

  function G(q: Quad, x: Word, y: Word): Quad {
    HalfG(HalfG(q, x, 16, 12), y, 8, 7)
  }

  function UnG(q: Quad, x: Word, y: Word): Quad {
    UnHalfG(UnHalfG(q, y, 8, 7), x, 16, 12)
  }

  lemma AddSub(a: Word, b: int)
    ensures U32(U32(a + b) - b) == a && U32(U32(a - b) + b) == a
  {
    WrapBack(a, a + b, b);
    WrapBack(a, a - b, -b);
  }

  lemma WrapBack(a: Word, t: int, b: int)
    requires t == a + b
    ensures U32(U32(t) - b) == a
  {
    var q := t / TWO32;
    DivUnique(U32(t) - b, TWO32, -q, a);
  }

  /** Xoring in a word and rotating is undone by rotating on and xoring again. */
  lemma XorRotrInverse(a: Word, b: Word, n: nat)
    requires 0 < n < 32
    ensures WXor(Rotr(Rotr(WXor(a, b), n), 32 - n), b) == a
    ensures Rotr(WXor(WXor(Rotr(a, 32 - n), b), b), n) == a
  {
    RotrInverse(WXor(a, b), n); XorCancel(a, b);
    RotrInverse(a, 32 - n); XorCancel(Rotr(a, 32 - n), b);
  }

  lemma HalfGInverse(q: Quad, x: Word, s: nat, t: nat)
    requires 0 < s < 32 && 0 < t < 32
    ensures UnHalfG(HalfG(q, x, s, t), x, s, t) == q
  {
    hide Rotr, WXor;
    var a := U32(q.a + q.b + x);
    var d: int := Rotr(WXor(q.d, a), s);
    var c: int := U32(q.c + d);
    XorRotrInverse(q.b, c, t);
    XorRotrInverse(q.d, a, s);
    assert U32(a - q.b - x) == q.a by { AddSub(q.a, q.b + x); }
    assert U32(c - d) == q.c by { AddSub(q.c, d); }
  }

  lemma UnHalfGInverse(q: Quad, x: Word, s: nat, t: nat)
    requires 0 < s < 32 && 0 < t < 32
    ensures HalfG(UnHalfG(q, x, s, t), x, s, t) == q
  {
    hide Rotr, WXor;
    var b := WXor(Rotr(q.b, 32 - t), q.c);
    var c := U32(q.c - q.d);
    XorRotrInverse(q.b, q.c, t);
    XorRotrInverse(q.d, q.a, s);
    assert U32(U32(q.a - b - x) + b + x) == q.a by { AddSub(q.a, b + x); }
    assert U32(c + q.d) == q.c by { AddSub(q.c, q.d); }
  }

  /** For fixed message words the quarter round is a bijection of the four
      words it touches. */
  lemma GInverse(q: Quad, x: Word, y: Word)
    ensures UnG(G(q, x, y), x, y) == q && G(UnG(q, x, y), x, y) == q
  {
    HalfGInverse(q, x, 16, 12);
    HalfGInverse(HalfG(q, x, 16, 12), y, 8, 7);
    UnHalfGInverse(q, y, 8, 7);
    UnHalfGInverse(UnHalfG(q, y, 8, 7), x, 16, 12);
  }

  // ----- rounds

  /** The 4 x 4 state as four quarter-round operands: its columns. */
  function Columns(v: Words16): Quads {
    [Quad(v[0], v[4], v[8], v[12]), Quad(v[1], v[5], v[9], v[13]),
     Quad(v[2], v[6], v[10], v[14]), Quad(v[3], v[7], v[11], v[15])]
  }

  function FromColumns(q: Quads): Words16 {
    [q[0].a, q[1].a, q[2].a, q[3].a, q[0].b, q[1].b, q[2].b, q[3].b,
     q[0].c, q[1].c, q[2].c, q[3].c, q[0].d, q[1].d, q[2].d, q[3].d]
  }

  /** Its diagonals. */
  function Diagonals(v: Words16): Quads {
    [Quad(v[0], v[5], v[10], v[15]), Quad(v[1], v[6], v[11], v[12]),
     Quad(v[2], v[7], v[8], v[13]), Quad(v[3], v[4], v[9], v[14])]
  }

  function FromDiagonals(q: Quads): Words16 {
    [q[0].a, q[1].a, q[2].a, q[3].a, q[3].b, q[0].b, q[1].b, q[2].b,
     q[2].c, q[3].c, q[0].c, q[1].c, q[1].d, q[2].d, q[3].d, q[0].d]
  }

  /** Four quarter rounds at once, fed by eight message words. */
  function MixAll(q: Quads, m: seq<Word>): Quads
    requires |m| == 8
  {
    [G(q[0], m[0], m[1]), G(q[1], m[2], m[3]), G(q[2], m[4], m[5]), G(q[3], m[6], m[7])]
  }

  function UnmixAll(q: Quads, m: seq<Word>): Quads
    requires |m| == 8
  {
    [UnG(q[0], m[0], m[1]), UnG(q[1], m[2], m[3]), UnG(q[2], m[4], m[5]), UnG(q[3], m[6], m[7])]
  }

  lemma MixAllInverse(q: Quads, m: seq<Word>)
    requires |m| == 8
    ensures UnmixAll(MixAll(q, m), m) == q && MixAll(UnmixAll(q, m), m) == q
  {
    hide G, UnG;
    GInverse(q[0], m[0], m[1]); GInverse(q[1], m[2], m[3]);
    GInverse(q[2], m[4], m[5]); GInverse(q[3], m[6], m[7]);
  }

  function Round(v: Words16, w: Words16): Words16 {
    FromDiagonals(MixAll(Diagonals(FromColumns(MixAll(Columns(v), w[..8]))), w[8..]))
  }

  function UnRound(v: Words16, w: Words16): Words16 {
    FromColumns(UnmixAll(Columns(FromDiagonals(UnmixAll(Diagonals(v), w[8..]))), w[..8]))
  }

  lemma Regroup(v: Words16, q: Quads)
    ensures FromColumns(Columns(v)) == v && Columns(FromColumns(q)) == q
    ensures FromDiagonals(Diagonals(v)) == v && Diagonals(FromDiagonals(q)) == q
  {
  }

  lemma RoundInverse(v: Words16, w: Words16)
    ensures UnRound(Round(v, w), w) == v && Round(UnRound(v, w), w) == v
  {
    hide MixAll, UnmixAll, Columns, Diagonals, FromColumns, FromDiagonals;
    var c := MixAll(Columns(v), w[..8]);
    var d := MixAll(Diagonals(FromColumns(c)), w[8..]);
    Regroup(v, c); Regroup(FromColumns(c), d);
    MixAllInverse(Columns(v), w[..8]); MixAllInverse(Diagonals(FromColumns(c)), w[8..]);
    var e := UnmixAll(Diagonals(v), w[8..]);
    var f := UnmixAll(Columns(FromDiagonals(e)), w[..8]);
    Regroup(v, e); Regroup(FromDiagonals(e), f);
    MixAllInverse(Diagonals(v), w[8..]); MixAllInverse(Columns(FromDiagonals(e)), w[..8]);
  }

  /** Where round r reads schedule position i from: the r-fold permutation. */
  function Sigma(r: nat, i: Index): Index {
    if r == 0 then i else Sigma(r - 1, SIGMA[i])
  }

  /** The message words of round r, read from the unpermuted block by index. */
  function Schedule(m: Words16, r: nat): Words16 {
    seq(16, (i: nat) requires i < 16 => m[Sigma(r, i)])
  }

  /** The state after the first `rounds` rounds. */
  function Rounds(v: Words16, m: Words16, rounds: nat): Words16
    decreases rounds, 0
  {
    if rounds == 0 then v else AfterRound(v, m, rounds - 1)
  }

  /** The state after round r, counting from 0. */
  function AfterRound(v: Words16, m: Words16, r: nat): Words16
    decreases r, 1
  {
    Round(Rounds(v, m, r), Schedule(m, r))
  }

  lemma RoundsStep(v: Words16, m: Words16, r: nat)
    ensures Rounds(v, m, r + 1) == Round(Rounds(v, m, r), Schedule(m, r))
  {
    hide Round, Schedule;
    assert Rounds(v, m, r + 1) == AfterRound(v, m, r);
  }

  function UnRounds(v: Words16, m: Words16, rounds: nat): Words16
    decreases rounds
  {
    if rounds == 0 then v else UnRounds(UnRound(v, Schedule(m, rounds - 1)), m, rounds - 1)
  }

  /** The keyed transform of the 16-word state is a bijection, for any number
      of rounds and in particular for the seven that are used. */
  lemma {:induction false} RoundsInverse(v: Words16, m: Words16, rounds: nat)
    ensures UnRounds(Rounds(v, m, rounds), m, rounds) == v
    ensures Rounds(UnRounds(v, m, rounds), m, rounds) == v
    decreases rounds
  {
    hide Round, UnRound, Schedule;
    if rounds > 0 {
      var w := Schedule(m, rounds - 1);
      RoundsStep(v, m, rounds - 1);
      RoundsStep(UnRounds(v, m, rounds), m, rounds - 1);
      RoundsInverse(v, m, rounds - 1);
      RoundInverse(Rounds(v, m, rounds - 1), w);
      RoundsInverse(UnRound(v, w), m, rounds - 1);
      RoundInverse(v, w);
    }
  }

  // ----- compression and the single-chunk hash

  function InitialState(cv: Words8, counter: nat, len: Word, flags: Word): Words16
    requires counter < TWO64
  {
    [cv[0], cv[1], cv[2], cv[3], cv[4], cv[5], cv[6], cv[7], IV[0], IV[1], IV[2], IV[3],
     counter % 0x1_0000_0000, counter / 0x1_0000_0000, len, flags]
  }

  /** The first eight output words: the two halves of the state, xored. */
  function Fold(v: Words16): Words8 {
    seq(8, (i: nat) requires i < 8 => WXor(v[i], v[i + 8]))
  }

  function Compress(cv: Words8, m: Words16, counter: nat, len: Word, flags: Word): Words8
    requires counter < TWO64
  {
    Fold(Rounds(InitialState(cv, counter, len, flags), m, ROUNDS))
  }

  /** 64 bytes as 16 little-endian words. */
  function BlockWords(b: seq<Byte>): Words16
    requires |b| == 64
  {
    seq(16, (i: nat) requires i < 16 => LoadWord(b[4 * i], b[4 * i + 1], b[4 * i + 2], b[4 * i + 3]))
  }

  /** Compresses one block of `len` message bytes, padded to 64. */
  function Chain(cv: Words8, block: seq<Byte>, len: Word, flags: Word): Words8
    requires |block| == 64
  {
    Compress(cv, BlockWords(block), 0, len, flags)
  }

  function Zeros(n: nat): seq<Byte> {
    seq(n, _ => 0)
  }

  /** The remaining blocks of a chunk, from chaining value `cv`. */
  function ChunkFrom(input: seq<Byte>, cv: Words8, startFlag: Word): Words8
    requires startFlag <= CHUNK_START
    decreases |input|
  {
    hide Compress, BlockWords;
    if |input| <= 64 then
      Chain(cv, input + Zeros(64 - |input|), |input|, startFlag + CHUNK_END + ROOT)
    else
      ChunkFrom(input[64..], Chain(cv, input[..64], 64, startFlag), 0)
  }

  /** BLAKE3-256 of at most one chunk, as eight little-endian words. */
  function Hash256(input: seq<Byte>): Words8
    requires |input| <= 1024
  {
    ChunkFrom(input, IV, CHUNK_START)
  }
}
