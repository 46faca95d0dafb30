/** The array code that the two kernels, the two hosts and the CPU reference
    run, proved to compute the specification's compression function. */
module Compression {
  import opened Words
  import opened Blake3

  predicate Distinct(a: nat, b: nat, c: nat, d: nat) {
    a != b && a != c && a != d && b != c && b != d && c != d
  }

  /** The quarter round applied to four words of a state. */
  function MixAt(v: Words16, a: Index, b: Index, c: Index, d: Index, x: Word, y: Word): Words16 {
    var q := G(Quad(v[a], v[b], v[c], v[d]), x, y);
    v[a := q.a][b := q.b][c := q.c][d := q.d]
  }

  method B3G(v: array<Word>, a: Index, b: Index, c: Index, d: Index, x: Word, y: Word)
    requires v.Length == 16 && Distinct(a, b, c, d)
    modifies v
    ensures v[..] == MixAt(old(v[..]), a, b, c, d, x, y)
  {
    hide Rotr, WXor, U32;
    ghost var u := v[..];
    ghost var q := Quad(v[a], v[b], v[c], v[d]);
    v[a] := U32(v[a] as int + v[b] + x);
    v[d] := Rotr(WXor(v[d], v[a]), 16);
    v[c] := U32(v[c] as int + v[d]);
    v[b] := Rotr(WXor(v[b], v[c]), 12);
    assert Quad(v[a], v[b], v[c], v[d]) == HalfG(q, x, 16, 12);
    v[a] := U32(v[a] as int + v[b] + y);
    v[d] := Rotr(WXor(v[d], v[a]), 8);
    v[c] := U32(v[c] as int + v[d]);
    v[b] := Rotr(WXor(v[b], v[c]), 7);
    assert Quad(v[a], v[b], v[c], v[d]) == G(q, x, y);
    assert forall k :: 0 <= k < 16 && Distinct(a, b, c, d) && k != a && k != b && k != c && k != d ==> v[k] == u[k];
    assert v[..] == MixAt(u, a, b, c, d, x, y) by { hide G; }
  }

  /** The first four quarter rounds, one after the other. */
  function MixColumns(v: Words16, w: Words16): Words16 {
    MixAt(MixAt(MixAt(MixAt(v,
      0, 4, 8, 12, w[0], w[1]), 1, 5, 9, 13, w[2], w[3]),
      2, 6, 10, 14, w[4], w[5]), 3, 7, 11, 15, w[6], w[7])
  }

  function MixDiagonals(v: Words16, w: Words16): Words16 {
    MixAt(MixAt(MixAt(MixAt(v,
      0, 5, 10, 15, w[8], w[9]), 1, 6, 11, 12, w[10], w[11]),
      2, 7, 8, 13, w[12], w[13]), 3, 4, 9, 14, w[14], w[15])
  }

  lemma SequentialColumns(v: Words16, w: Words16)
    ensures MixColumns(v, w) == FromColumns(MixAll(Columns(v), w[..8]))
  {
    hide G;
  }

  lemma SequentialDiagonals(v: Words16, w: Words16)
    ensures MixDiagonals(v, w) == FromDiagonals(MixAll(Diagonals(v), w[8..]))
  {
    hide G;
  }

  /** Mixing the columns, then the diagonals, one after the other is the same
      as mixing each four at once: no quarter round disturbs another's words. */
  lemma SequentialRound(v: Words16, w: Words16)
    ensures MixDiagonals(MixColumns(v, w), w) == Round(v, w)
  {
    hide MixColumns, MixDiagonals, G, MixAll, Columns, Diagonals, FromColumns, FromDiagonals;
    SequentialColumns(v, w);
    SequentialDiagonals(MixColumns(v, w), w);
  }

  /** One round of the C code, on the state in place. */
  method MixRound(v: array<Word>, w: array<Word>)
    requires v.Length == 16 && w.Length == 16 && v != w
    modifies v
    ensures v[..] == Round(old(v[..]), w[..])
  {
    hide G, Round;
    B3G(v, 0, 4, 8, 12, w[0], w[1]);
    B3G(v, 1, 5, 9, 13, w[2], w[3]);
    B3G(v, 2, 6, 10, 14, w[4], w[5]);
    B3G(v, 3, 7, 11, 15, w[6], w[7]);
    assert v[..] == MixColumns(old(v[..]), w[..]);
    B3G(v, 0, 5, 10, 15, w[8], w[9]);
    B3G(v, 1, 6, 11, 12, w[10], w[11]);
    B3G(v, 2, 7, 8, 13, w[12], w[13]);
    B3G(v, 3, 4, 9, 14, w[14], w[15]);
    SequentialRound(old(v[..]), w[..]);
  }

  /** What the code's copy through `t` does to the schedule `w`. */
  function Permute(w: Words16): Words16 {
    [w[2], w[6], w[3], w[10], w[7], w[0], w[4], w[13],
     w[1], w[11], w[12], w[5], w[9], w[14], w[15], w[8]]
  }

  /** Permuting the schedule in place after each round gives round r + 1 the
      words that the index-only form reads from the original block. */
  lemma ScheduleStep(m: Words16, r: nat)
    ensures Permute(Schedule(m, r)) == Schedule(m, r + 1)
    ensures Schedule(m, 0) == m
  {
    var p, s := Permute(Schedule(m, r)), Schedule(m, r + 1);
    forall i: Index ensures p[i] == s[i] {
      assert p[i] == Schedule(m, r)[SIGMA[i]] by { hide Schedule; }
    }
  }

  method CopyWords(dst: array<Word>, src: array<Word>, n: nat)
    requires n <= dst.Length && n <= src.Length && dst != src
    modifies dst
    ensures dst[..n] == src[..n]
    ensures forall j :: n <= j < dst.Length ==> dst[j] == old(dst[j])
  {
    for i := 0 to n
      invariant forall j :: 0 <= j < i ==> dst[j] == src[j]
      invariant forall j :: i <= j < dst.Length ==> dst[j] == old(dst[j])
    {
      dst[i] := src[i];
    }
  }

  method PermuteLow(w: array<Word>, t: array<Word>)
    requires w.Length == 16 && t.Length == 16 && w != t
    modifies w
    ensures w[..8] == Permute(t[..])[..8] && w[8..] == old(w[8..])
  {
    w[0] := t[2]; w[1] := t[6]; w[2] := t[3]; w[3] := t[10];
    w[4] := t[7]; w[5] := t[0]; w[6] := t[4]; w[7] := t[13];
  }

  method PermuteHigh(w: array<Word>, t: array<Word>)
    requires w.Length == 16 && t.Length == 16 && w != t
    modifies w
    ensures w[8..] == Permute(t[..])[8..] && w[..8] == old(w[..8])
  {
    w[8] := t[1]; w[9] := t[11]; w[10] := t[12]; w[11] := t[5];
    w[12] := t[9]; w[13] := t[14]; w[14] := t[15]; w[15] := t[8];
  }

  method PermuteInPlace(w: array<Word>, t: array<Word>)
    requires w.Length == 16 && t.Length == 16 && w != t
    modifies w, t
    ensures w[..] == Permute(old(w[..]))
  {
    hide Permute;
    ghost var u := w[..];
    CopyWords(t, w, 16);
    assert t[..16] == t[..] == u;
    PermuteLow(w, t);
    PermuteHigh(w, t);
    assert w[..] == w[..8] + w[8..];
    assert Permute(u) == Permute(u)[..8] + Permute(u)[8..];
  }

  method LoadState(v: array<Word>, cv: array<Word>, counter: Word, len: Word, flags: Word)
    requires v.Length == 16 && cv.Length == 8 && v != cv
    modifies v
    ensures v[..] == InitialState(cv[..], counter, len, flags)
  {
    CopyWords(v, cv, 8);
    v[8] := IV[0]; v[9] := IV[1]; v[10] := IV[2]; v[11] := IV[3];
    v[12] := counter; v[13] := 0; v[14] := len; v[15] := flags;
  }

  /** The output loop: both halves of the state change, the first is the result. */
  method StoreOutput(v: array<Word>, cv: array<Word>, out: array<Word>)
    requires v.Length == 16 && cv.Length == 8 && out.Length == 8
    requires v != cv && v != out
    modifies v, out
    ensures out[..] == Fold(old(v[..]))
  {
    ghost var u := v[..];
    for i := 0 to 8
      invariant forall j :: 0 <= j < i ==> v[j] == Fold(u)[j]
      invariant forall j :: i <= j < 8 ==> v[j] == u[j]
      invariant forall j :: 8 + i <= j < 16 ==> v[j] == u[j]
    {
      hide WXor;
      v[i] := WXor(v[i], v[i + 8]);
      v[i + 8] := WXor(v[i + 8], cv[i]);
    }
    CopyWords(out, v, 8);
  }

  /** The looping form of the CUDA kernel, both hosts and the CPU reference:
      rounds read a copied schedule that is permuted between rounds. */
  method CompressLoop(m: array<Word>, cv: array<Word>, counter: Word, len: Word, flags: Word,
                      out: array<Word>)
    requires m.Length == 16 && cv.Length == 8 && out.Length == 8
    modifies out
    ensures out[..] == Compress(old(cv[..]), old(m[..]), counter, len, flags)
  {
    hide Round, Permute, Schedule, InitialState, Fold;
    var v := new Word[16];
    var w := new Word[16];
    var t := new Word[16];
    LoadState(v, cv, counter, len, flags);
    ghost var start := v[..];
    CopyWords(w, m, 16);
    ScheduleStep(m[..], 0);
    for r := 0 to 7
      invariant r <= 6 ==> v[..] == Rounds(start, m[..], r) && w[..] == Schedule(m[..], r)
      invariant r == 7 ==> v[..] == Rounds(start, m[..], 7)
      invariant m[..] == old(m[..]) && cv[..] == old(cv[..])
    {
      MixRound(v, w);
      RoundsStep(start, m[..], r);
      if r < 6 {
        PermuteInPlace(w, t);
        ScheduleStep(m[..], r);
      }
    }
    StoreOutput(v, cv, out);
  }

  /** The OpenCL form: seven unrolled rounds that permute the message itself,
      six times and not after the last round. */
  method CompressUnrolled(m: array<Word>, cv: array<Word>, counter: Word, len: Word, flags: Word,
                          out: array<Word>)
    requires m.Length == 16 && cv.Length == 8 && out.Length == 8 && m != cv && m != out
    modifies m, out
    ensures out[..] == Compress(old(cv[..]), old(m[..]), counter, len, flags)
    ensures m[..] == Schedule(old(m[..]), 6)
  {
    hide Round, Permute, Schedule, InitialState, Fold;
    ghost var block := m[..];
    ScheduleStep(block, 0);
    var v := new Word[16];
    var t := new Word[16];
    LoadState(v, cv, counter, len, flags);
    ghost var start := v[..];
    MixRound(v, m); PermuteInPlace(m, t); RoundsStep(start, block, 0); ScheduleStep(block, 0);
    MixRound(v, m); PermuteInPlace(m, t); RoundsStep(start, block, 1); ScheduleStep(block, 1);
    MixRound(v, m); PermuteInPlace(m, t); RoundsStep(start, block, 2); ScheduleStep(block, 2);
    MixRound(v, m); PermuteInPlace(m, t); RoundsStep(start, block, 3); ScheduleStep(block, 3);
    MixRound(v, m); PermuteInPlace(m, t); RoundsStep(start, block, 4); ScheduleStep(block, 4);
    MixRound(v, m); PermuteInPlace(m, t); RoundsStep(start, block, 5); ScheduleStep(block, 5);
    MixRound(v, m); RoundsStep(start, block, 6);
    assert v[..] == Rounds(start, block, 7);
    StoreOutput(v, cv, out);
  }

  // ----- midstate

  function WithNonce(header: seq<Byte>, nonce: Word): (h: seq<Byte>)
    requires |header| == 180
    ensures |h| == 180
  {
    header[..140] + StoreWord(nonce) + header[144..]
  }

  /** Chaining value after the first two blocks. */
  function MidCv(header: seq<Byte>): Words8
    requires |header| == 180
  {
    hide Compress;
    Chain(Chain(IV, header[..64], 64, CHUNK_START), header[64..128], 64, 0)
  }

  /** The third block with its nonce word cleared. */
  function MidBlock(header: seq<Byte>): Words16
    requires |header| == 180
  {
    BlockWords(header[128..] + Zeros(12))[3 := 0]
  }

  /** What the kernel computes for one nonce. */
  function NonceDigest(cv: Words8, block: Words16, nonce: Word): Words8 {
    Compress(cv, block[3 := nonce], 0, 52, CHUNK_END + ROOT)
  }

  lemma NonceBlock(header: seq<Byte>, nonce: Word)
    requires |header| == 180
    ensures BlockWords(WithNonce(header, nonce)[128..] + Zeros(12)) == MidBlock(header)[3 := nonce]
  {
    var b := WithNonce(header, nonce)[128..] + Zeros(12);
    var c := header[128..] + Zeros(12);
    assert forall k :: 0 <= k < 64 && !(12 <= k < 16) ==> b[k] == c[k];
    assert b[12..16] == StoreWord(nonce) by {
      var s := StoreWord(nonce);
      assert WithNonce(header, nonce)[140..144] == s;
    }
    assert LoadWord(b[12], b[13], b[14], b[15]) == nonce by {
      hide LoadWord;
      assert b[12] == StoreWord(nonce)[0] && b[13] == StoreWord(nonce)[1]
          && b[14] == StoreWord(nonce)[2] && b[15] == StoreWord(nonce)[3];
    }
  }

  /** The midstate shortcut is the hash: one compression from the midstate with
      the nonce in word 3 equals BLAKE3-256 of the whole header carrying that
      nonce in bytes 140..143. */
  lemma MidstateCorrect(header: seq<Byte>, nonce: Word)
    requires |header| == 180
    ensures Hash256(WithNonce(header, nonce)) == NonceDigest(MidCv(header), MidBlock(header), nonce)
  {
    hide Compress, BlockWords, MidBlock, StoreWord;
    var h := WithNonce(header, nonce);
    assert h[..64] == header[..64];
    assert h[64..][..64] == header[64..128];
    assert h[64..][64..] == h[128..];
    NonceBlock(header, nonce);
    assert Hash256(h) == ChunkFrom(h[64..], Chain(IV, header[..64], 64, CHUNK_START), 0);
    assert Hash256(h) == ChunkFrom(h[128..], MidCv(header), 0);
  }

  method LoadBlock(m: array<Word>, header: array<Byte>, at: nat, n: nat)
    requires m.Length == 16 && n <= 16 && at + 4 * n <= header.Length
    modifies m
    ensures forall i :: 0 <= i < n ==>
      m[i] == LoadWord(header[at + 4 * i], header[at + 4 * i + 1], header[at + 4 * i + 2], header[at + 4 * i + 3])
    ensures forall i :: n <= i < 16 ==> m[i] == old(m[i])
  {
    for i := 0 to n
      invariant forall j :: 0 <= j < i ==>
        m[j] == LoadWord(header[at + 4 * j], header[at + 4 * j + 1], header[at + 4 * j + 2], header[at + 4 * j + 3])
      invariant forall j :: i <= j < 16 ==> m[j] == old(m[j])
    {
      m[i] := LoadWord(header[at + 4 * i], header[at + 4 * i + 1], header[at + 4 * i + 2], header[at + 4 * i + 3]);
    }
  }

  /** One whole 64-byte block compressed into the chaining value. */
  method AbsorbBlock(header: array<Byte>, at: nat, flags: Word, m: array<Word>, cv: array<Word>, tmp: array<Word>)
    requires at + 64 <= header.Length && m.Length == 16 && cv.Length == 8 && tmp.Length == 8
    requires m != cv && cv != tmp && m != tmp
    modifies m, cv, tmp
    ensures cv[..] == Chain(old(cv[..]), header[at..at + 64], 64, flags)
  {
    hide Compress, LoadWord;
    LoadBlock(m, header, at, 16);
    assert m[..] == BlockWords(header[at..at + 64]);
    CompressLoop(m, cv, 0, 64, flags, tmp);
    CopyWords(cv, tmp, 8);
    assert cv[..] == cv[..8] && tmp[..] == tmp[..8];
  }

  /** The chaining-value half of computing the midstate. */
  method ChainTwoBlocks(header: array<Byte>, cv: array<Word>)
    requires header.Length == 180 && cv.Length == 8
    modifies cv
    ensures cv[..] == MidCv(header[..])
  {
    hide Compress, LoadWord, Chain;
    var m := new Word[16];
    var tmp := new Word[8];
    for i := 0 to 8
      invariant forall j :: 0 <= j < i ==> cv[j] == IV[j]
    {
      cv[i] := IV[i];
    }
    assert cv[..] == IV;
    AbsorbBlock(header, 0, 0x01, m, cv, tmp);
    assert header[0..64] == header[..][..64];
    AbsorbBlock(header, 64, 0x00, m, cv, tmp);
    assert header[64..128] == header[..][64..128];
  }

  method ComputeMidstate(header: array<Byte>, cv: array<Word>, block2: array<Word>)
    requires header.Length == 180 && cv.Length == 8 && block2.Length == 16 && cv != block2
    modifies cv, block2
    ensures cv[..] == MidCv(header[..]) && block2[..] == MidBlock(header[..])
  {
    hide Compress, LoadWord, MidCv;
    ChainTwoBlocks(header, cv);
    for i := 0 to 16
      invariant forall j :: 0 <= j < i ==> block2[j] == 0
      invariant cv[..] == MidCv(header[..])
    {
      block2[i] := 0;
    }
    LoadBlock(block2, header, 128, 13);
    block2[3] := 0;
    ZeroTail(header[..]);
    assert block2[..] == MidBlock(header[..]);
  }

  /** The twelve padding bytes are three zero words. */
  lemma ZeroTail(header: seq<Byte>)
    requires |header| == 180
    ensures forall i :: 13 <= i < 16 ==> BlockWords(header[128..] + Zeros(12))[i] == 0
  {
    var b := header[128..] + Zeros(12);
    assert forall k :: 52 <= k < 64 ==> b[k] == 0;
    forall i | 13 <= i < 16 ensures BlockWords(b)[i] == 0 {
      assert b[4 * i] == 0 && b[4 * i + 1] == 0 && b[4 * i + 2] == 0 && b[4 * i + 3] == 0;
    }
  }
}
