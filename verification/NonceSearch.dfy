/** The CPU reference search: one ascending scan, and the threaded search that
    slices the range and keeps the lowest winner. */
module NonceSearch {
  import opened Words
  import opened Blake3
  import opened Compression
  import opened Targets
  import opened Wrappers

  /** What the host hands to a search: midstate, third block and target. */
  datatype Puzzle = Puzzle(cv: Words8, block: Words16, target: Words8)

  predicate Hit(p: Puzzle, nonce: Word) {
    WordsInt(NonceDigest(p.cv, p.block, nonce)) <= WordsInt(p.target)
  }

  function HitOf(p: Puzzle): Word -> bool {
    (n: Word) => Hit(p, n)
  }

  /** The nonce of work item `gid`: a 32-bit sum that may wrap. */
  function NonceAt(start: Word, gid: nat): Word {
    U32(start + gid)
  }

  /** Item `gid` wins; nonce 0 is skipped. */
  predicate Wins(hit: Word -> bool, start: Word, gid: nat) {
    NonceAt(start, gid) != 0 && hit(NonceAt(start, gid))
  }

  /** The lowest winning item of [lo, hi). */
  function FirstWin(hit: Word -> bool, start: Word, lo: nat, hi: nat): (r: Option<nat>)
    ensures r.Some? ==> lo <= r.value < hi && Wins(hit, start, r.value)
    ensures r.Some? ==> forall g :: lo <= g < r.value ==> !Wins(hit, start, g)
    ensures r.None? ==> forall g :: lo <= g < hi ==> !Wins(hit, start, g)
    decreases hi - lo
  {
    if lo >= hi then None
    else if Wins(hit, start, lo) then Some(lo)
    else FirstWin(hit, start, lo + 1, hi)
  }

  function Found(hit: Word -> bool, start: Word, lo: nat, hi: nat): Word {
    var r := FirstWin(hit, start, lo, hi);
    if r.None? then 0 else NonceAt(start, r.value)
  }

  lemma FoundStep(hit: Word -> bool, start: Word, lo: nat, hi: nat)
    ensures Found(hit, start, lo, hi) ==
      if lo >= hi then 0
      else if Wins(hit, start, lo) then NonceAt(start, lo)
      else Found(hit, start, lo + 1, hi)
  {
    hide Wins, NonceAt;
  }

  // ----- slicing

  function Per(count: Word, slices: Word): nat
    requires slices > 0
  {
    U32(count + slices - 1) / slices
  }

  function Begin(count: Word, slices: Word, s: nat): Word
    requires s < slices
  {
    U32(s * Per(count, slices))
  }

  function End(count: Word, slices: Word, s: nat): Word
    requires s < slices
  {
    var end := U32(Begin(count, slices, s) + Per(count, slices));
    if end > count || s == slices - 1 then count else end
  }

  predicate InSlice(count: Word, slices: Word, s: nat, g: nat)
    requires s < slices
  {
    Begin(count, slices, s) <= g < End(count, slices, s)
  }

  /** The slice that holds item `g`. */
  function SliceOf(count: Word, slices: Word, g: nat): nat
    requires slices > 0
  {
    if Per(count, slices) == 0 then slices - 1 else g / Per(count, slices)
  }

  /** Rounding up: either `slices` slices of `per` items reach past `count`
      without leaving 32 bits, or the sum overflowed and `per` is 0. */
  lemma PerBounds(count: Word, slices: Word)
    requires 0 < slices
    ensures count + slices - 1 < TWO32 ==>
      count <= slices * Per(count, slices) <= count + slices - 1
    ensures count + slices - 1 >= TWO32 ==> Per(count, slices) == 0
  {
    var t := U32(count + slices - 1);
    var per := Per(count, slices);
    assert t == per * slices + t % slices;
    assert per * slices == slices * per;
    if count + slices - 1 >= TWO32 {
      assert t < slices;
      DivUnique(t, slices, 0, t);
    }
  }

  /** No 32-bit sum or product of the slice bounds wraps. */
  lemma BoundsExact(count: Word, slices: Word, s: nat)
    requires s < slices
    ensures Begin(count, slices, s) == s * Per(count, slices)
    ensures var e := s * Per(count, slices) + Per(count, slices);
      End(count, slices, s) == if e > count || s == slices - 1 then count else e
  {
    hide Per, U32;
    var per := Per(count, slices);
    var begin := s * per;
    PerBounds(count, slices);
    if count + slices - 1 < TWO32 {
      assert begin + per <= slices * per by { MulMono(s + 1, slices, per); }
    } else {
      assert begin == 0;
    }
    U32Small(begin);
    U32Small(begin + per);
  }

  lemma Successor(s: nat, per: nat)
    ensures (s + 1) * per == s * per + per
  {
  }

  lemma BlockOf(g: nat, per: nat, s: nat)
    requires per > 0
    ensures s * per <= g < s * per + per <==> s == g / per
  {
    if s * per <= g < s * per + per {
      DivUnique(g, per, s, g - s * per);
    }
    assert g == (g / per) * per + g % per;
  }

  lemma SliceBlock(per: nat, slices: nat, count: nat, g: nat, s: nat, begin: nat, top: nat)
    requires per > 0 && g < count <= top && s < slices && begin == s * per && top == slices * per
    ensures g / per < slices
    ensures begin <= g < (if begin + per > count || s == slices - 1 then count else begin + per)
      <==> s == g / per
  {
    BlockOf(g, per, s);
    assert g / per < slices by {
      BlockOf(g, per, g / per);
      MulCancel(g / per, slices, per);
    }
    if s == slices - 1 { Successor(s, per); }
  }

  /** The slices partition [0, count): every item is in exactly one. */
  lemma SlicesPartition(count: Word, slices: Word, g: nat, s: nat)
    requires 0 < slices && g < count && s < slices
    ensures SliceOf(count, slices, g) < slices
    ensures InSlice(count, slices, s, g) <==> s == SliceOf(count, slices, g)
  {
    hide Per, Begin, End;
    var per := Per(count, slices);
    PerBounds(count, slices);
    BoundsExact(count, slices, s);
    if per == 0 {
      assert s * per == 0 && slices * per == 0;
    } else {
      SliceBlock(per, slices, count, g, s, s * per, slices * per);
    }
  }

  // ----- the threaded search as a function

  /** The join loop over the first k slices: the lowest winner, 0 if none. */
  function MinWinner(hit: Word -> bool, start: Word, count: Word, slices: Word, k: nat): Word
    requires k <= slices
  {
    if k == 0 then 0 else
      var w := MinWinner(hit, start, count, slices, k - 1);
      var f := Found(hit, start, Begin(count, slices, k - 1), End(count, slices, k - 1));
      if f != 0 && (w == 0 || f < w) then f else w
  }

  lemma {:induction false} MinWinnerIsMin(hit: Word -> bool, start: Word, count: Word, slices: Word, k: nat)
    requires k <= slices
    ensures var w := MinWinner(hit, start, count, slices, k);
      && (w != 0 ==> exists s :: 0 <= s < k && w == SliceFound(hit, start, count, slices, s))
      && forall s :: 0 <= s < k && SliceFound(hit, start, count, slices, s) != 0 ==>
           0 < w <= SliceFound(hit, start, count, slices, s)
    decreases k
  {
    hide MinWinner, SliceFound;
    MinStep(hit, start, count, slices, k);
    if k > 0 {
      MinWinnerIsMin(hit, start, count, slices, k - 1);
    }
  }

  lemma MinStep(hit: Word -> bool, start: Word, count: Word, slices: Word, k: nat)
    requires k <= slices
    ensures MinWinner(hit, start, count, slices, k) ==
      if k == 0 then 0
      else
        var w := MinWinner(hit, start, count, slices, k - 1);
        var f := SliceFound(hit, start, count, slices, k - 1);
        if f != 0 && (w == 0 || f < w) then f else w
  {
    hide Begin, End, Found;
  }

  function SliceFound(hit: Word -> bool, start: Word, count: Word, slices: Word, s: nat): Word
    requires s < slices
  {
    Found(hit, start, Begin(count, slices, s), End(count, slices, s))
  }

  /** The processor count the code settles on. */
  function Processors(hw: Word): Word {
    if hw == 0 || hw > 64 then 1 else hw
  }

  /** How many slices are used; 1 stands for the sequential short cut too. */
  function SliceCount(count: Word, hw: Word): (n: Word)
    ensures 1 <= n <= 64
  {
    var h := Processors(hw);
    if count < h * 4 || count <= 4096 then 1 else ThreadCount(count, h)
  }

  /** Rounding up can overflow to less than one item a thread. */
  function ThreadCount(count: Word, h: Word): (n: Word)
    requires 0 < h
    ensures n == 1 || n == h
  {
    if U32(count + (h - 1)) / h < 1 then 1 else h
  }

  function Sequential(hit: Word -> bool, start: Word, count: Word): Word {
    Found(hit, start, 0, count)
  }

  function Parallel(hit: Word -> bool, start: Word, count: Word, hw: Word): Word {
    var n := SliceCount(count, hw);
    MinWinner(hit, start, count, n, n)
  }

  /** What the threaded search returns when the creation of thread `failAt`
      fails: it falls back to the ascending scan if that thread is one it needs. */
  function Returned(hit: Word -> bool, start: Word, count: Word, hw: Word, failAt: nat): Word {
    if failAt < SliceCount(count, hw) then Sequential(hit, start, count) else Parallel(hit, start, count, hw)
  }

  /** Small ranges are scanned without threads. */
  predicate ShortCut(count: Word, hw: Word) {
    count < Processors(hw) * 4 || count <= 4096
  }

  lemma SliceWithin(count: Word, slices: Word, s: nat)
    requires s < slices
    ensures End(count, slices, s) <= count
  {
  }

  /** The slice holding the overall first winner reports it. */
  lemma FirstWinnersSlice(hit: Word -> bool, start: Word, count: Word, slices: Word, g: nat)
    requires slices > 0 && FirstWin(hit, start, 0, count) == Some(g)
    ensures var s := SliceOf(count, slices, g);
      s < slices && SliceFound(hit, start, count, slices, s) == NonceAt(start, g)
  {
    var s := SliceOf(count, slices, g);
    SlicesPartition(count, slices, g, 0);
    SlicesPartition(count, slices, g, s);
    var b := Begin(count, slices, s);
    var r := FirstWin(hit, start, b, End(count, slices, s));
    assert r.Some?;
    SliceWithin(count, slices, s);
  }

  /** Without a wrap, no slice finds a lower nonce than the scan does. */
  lemma SliceNotLower(hit: Word -> bool, start: Word, count: Word, slices: Word, s: nat)
    requires s < slices && (slices == 1 || start + count <= TWO32 + 1)
    requires SliceFound(hit, start, count, slices, s) != 0
    ensures 0 < Sequential(hit, start, count) <= SliceFound(hit, start, count, slices, s)
  {
    hide Begin, End, FirstWin;
    SliceWithin(count, slices, s);
    var q := FirstWin(hit, start, Begin(count, slices, s), End(count, slices, s));
    var r := FirstWin(hit, start, 0, count);
    assert Wins(hit, start, q.value);
    assert r.Some? && r.value <= q.value;
    assert Wins(hit, start, r.value);
    if slices == 1 {
      assert Begin(count, slices, s) == 0 && End(count, slices, s) == count by { BoundsExact(count, slices, s); }
    } else {
      assert NonceAt(start, q.value) == start + q.value;
      assert NonceAt(start, r.value) == start + r.value;
    }
  }

  /** While nonces do not wrap past 0 the threaded search returns exactly what
      the ascending scan returns, for any number of slices. */
  lemma SlicedEqualsSequential(hit: Word -> bool, start: Word, count: Word, slices: Word)
    requires slices > 0 && (slices == 1 || start + count <= TWO32 + 1)
    ensures MinWinner(hit, start, count, slices, slices) == Sequential(hit, start, count)
  {
    hide MinWinner, SliceFound, FirstWin, SliceOf, NonceAt;
    var w := MinWinner(hit, start, count, slices, slices);
    MinWinnerIsMin(hit, start, count, slices, slices);
    var r := FirstWin(hit, start, 0, count);
    if w != 0 {
      var s :| 0 <= s < slices && w == SliceFound(hit, start, count, slices, s);
      SliceNotLower(hit, start, count, slices, s);
    }
    if r.Some? {
      FirstWinnersSlice(hit, start, count, slices, r.value);
      assert Wins(hit, start, r.value);
    }
  }

  lemma WrappedNonces(start: Word, count: Word, g: nat)
    requires start + count > TWO32 + 1 && g < count
    ensures NonceAt(start, 0) == start
    ensures 0 < NonceAt(start, count - 1) == start + count - 1 - TWO32 < start
    ensures NonceAt(start, g) == start <==> g == 0
    ensures NonceAt(start, g) == NonceAt(start, count - 1) <==> g == count - 1
  {
  }

  /** The range is sliced, one slice a processor, exactly when 1 to 64 processors
      are reported, it has more than 4096 nonces, and rounding up stays inside
      32 bits; otherwise it is scanned. */
  lemma SlicesAre(count: Word, hw: Word)
    ensures SliceCount(count, hw) ==
      if 1 <= hw <= 64 && count > 4096 && count + hw - 1 < 0x1_0000_0000 then hw else 1
  {
    var h := Processors(hw);
    var sum := count + (h - 1);
    if sum >= TWO32 {
      DivUnique(U32(sum), h, 0, U32(sum));
    } else if count > 4096 {
      assert U32(sum) == sum;
      QuotientPositive(sum, h);
    }
  }

  /** Past the wrap, two slices and an acceptance predicate met by the first and
      the last nonce only: the scan returns the first, the threads at most the
      last. */
  lemma WrappedSlicesDiffer(start: Word, count: Word, hw: Word)
    requires start + count > TWO32 + 1 && SliceCount(count, hw) > 1
    ensures var hit := EndsOnly(start, count);
      Sequential(hit, start, count) == start && Parallel(hit, start, count, hw) < start
  {
    hide SliceFound, MinWinner, NonceAt, SliceCount;
    SlicesAre(count, hw);
    var n := SliceCount(count, hw);
    var last := NonceAt(start, count - 1);
    var hit := EndsOnly(start, count);
    WrappedNonces(start, count, 0);
    assert Wins(hit, start, 0);
    LastSliceFinds(start, count, n);
    MinWinnerIsMin(hit, start, count, n, n);
    var t := SliceOf(count, n, count - 1);
    assert SliceFound(hit, start, count, n, t) == last;
  }

  /** Accepts the first and the last nonce of the range only. */
  function EndsOnly(start: Word, count: Word): Word -> bool
    requires count > 0
  {
    (n: Word) => n == start || n == NonceAt(start, count - 1)
  }

  lemma LastSliceFinds(start: Word, count: Word, n: Word)
    requires start + count > TWO32 + 1 && 1 < n <= 64 && 4096 < count && count + n - 1 < TWO32
    ensures var t := SliceOf(count, n, count - 1);
      t < n && SliceFound(EndsOnly(start, count), start, count, n, t) == NonceAt(start, count - 1)
  {
    hide NonceAt, FirstWin, Begin, End, SliceOf;
    var t := SliceOf(count, n, count - 1);
    var hit := EndsOnly(start, count);
    SlicesPartition(count, n, count - 1, 0);
    SlicesPartition(count, n, count - 1, t);
    LastSliceSkipsFirst(count, n);
    SliceWithin(count, n, t);
    WrappedNonces(start, count, 0);
    assert Wins(hit, start, count - 1);
    forall g | Begin(count, n, t) <= g < count - 1 ensures !Wins(hit, start, g) {
      WrappedNonces(start, count, g);
    }
    var r := FirstWin(hit, start, Begin(count, n, t), End(count, n, t));
    assert r.Some? && r.value == count - 1;
  }

  lemma LastSliceSkipsFirst(count: Word, slices: Word)
    requires 1 < slices <= 64 && 4096 < count && count + slices - 1 < TWO32
    ensures SliceOf(count, slices, count - 1) < slices
    ensures Begin(count, slices, SliceOf(count, slices, count - 1)) > 0
  {
    hide Per, Begin, End;
    var per := Per(count, slices);
    var t := SliceOf(count, slices, count - 1);
    SlicesPartition(count, slices, count - 1, 0);
    BoundsExact(count, slices, t);
    PerBounds(count, slices);
    SecondSlice(per, slices, count);
    MulMono(1, t, per);
  }

  lemma SecondSlice(per: nat, slices: nat, count: nat)
    requires 1 < slices <= 64 && 4096 < count && count <= slices * per <= count + slices - 1
    ensures 0 < per < count && (count - 1) / per >= 1
  {
    PositiveFactor(slices, per);
    MulMono(2, slices, per);
    QuotientPositive(count - 1, per);
  }

  /** Exactly when the threaded search is the ascending scan for every acceptance
      predicate: when no nonce comes after the wrap to 0, or only one slice is
      used. */
  lemma ParallelIffSequential(start: Word, count: Word, hw: Word)
    ensures (forall hit :: Parallel(hit, start, count, hw) == Sequential(hit, start, count))
      <==> start + count <= TWO32 + 1 || SliceCount(count, hw) == 1
  {
    if start + count <= TWO32 + 1 || SliceCount(count, hw) == 1 {
      forall hit: Word -> bool
        ensures Parallel(hit, start, count, hw) == Sequential(hit, start, count)
      {
        SlicedEqualsSequential(hit, start, count, SliceCount(count, hw));
      }
    } else {
      WrappedSlicesDiffer(start, count, hw);
      assert Parallel(EndsOnly(start, count), start, count, hw) != Sequential(EndsOnly(start, count), start, count);
    }
  }

  // ----- the C code

  type Int32 = i: int | -0x8000_0000 <= i < 0x8000_0000

  /** `(int32_t)nonce`: nonces from 2^31 up are stored as negative ints. */
  function ToInt32(w: Word): (i: Int32)
    ensures U32(i) == w
  {
    if w >= 0x8000_0000 then w - 0x1_0000_0000 else w
  }

  /** The loop body shared by the scans: one compression and one comparison. */
  method TestNonce(p: Puzzle, nonce: Word, tmp: array<Word>) returns (accept: bool)
    requires tmp.Length == 8
    modifies tmp
    ensures accept == Hit(p, nonce) && tmp[..] == NonceDigest(p.cv, p.block, nonce)
  {
    hide Compress;
    var m2 := new Word[16](i requires 0 <= i < 16 => p.block[i]);
    m2[3] := nonce;
    assert m2[..] == p.block[3 := nonce];
    var cv := new Word[8](i requires 0 <= i < 8 => p.cv[i]);
    assert cv[..] == p.cv;
    CompressLoop(m2, cv, 0, 52, 0x02 + 0x08, tmp);
    var target := new Word[8](i requires 0 <= i < 8 => p.target[i]);
    assert target[..] == p.target;
    accept := Accepts(tmp, target);
  }

  /** The ascending scan; a null `hashOut` asks for no digest. */
  method CpuSearchNonce(p: Puzzle, start: Word, count: Word, hashOut: array?<Word>) returns (found: Int32)
    requires hashOut != null ==> hashOut.Length == 8
    modifies hashOut
    ensures U32(found) == Sequential(HitOf(p), start, count)
    ensures hashOut != null ==>
      hashOut[..] == if found != 0 then NonceDigest(p.cv, p.block, U32(found)) else old(hashOut[..])
  {
    hide Hit, NonceDigest, Found;
    var tmp := new Word[8];
    for gid := 0 to count
      invariant hashOut != null ==> hashOut[..] == old(hashOut[..])
      invariant Sequential(HitOf(p), start, count) == Found(HitOf(p), start, gid, count)
    {
      FoundStep(HitOf(p), start, gid, count);
      var nonce := U32(start + gid);
      if nonce != 0 {
        var accept := TestNonce(p, nonce, tmp);
        if accept {
          if hashOut != null {
            CopyWords(hashOut, tmp, 8);
            assert hashOut[..8] == hashOut[..] && tmp[..8] == tmp[..];
          }
          return ToInt32(nonce);
        }
      }
    }
    FoundStep(HitOf(p), start, count, count);
    return 0;
  }

  /** The context of one slice thread. */
  class SearchCtx {
    const p: Puzzle
    const start: Word
    const count: Word
    const slice: Word
    const slices: Word
    var found: Int32
    var hash: Words8

    constructor (p: Puzzle, start: Word, count: Word, slice: Word, slices: Word)
      requires slice < slices
      ensures For(p, start, count, slice, slices)
    {
      this.p, this.start, this.count, this.slice, this.slices := p, start, count, slice, slices;
      found := 0;
    }

    ghost predicate For(p: Puzzle, start: Word, count: Word, slice: nat, slices: Word) {
      && this.p == p && this.start == start && this.count == count
      && this.slice == slice && this.slices == slices && slice < slices
    }

    /** The thread has run: its result is its slice's first winner. */
    ghost predicate Finished()
      requires slice < slices
      reads this
    {
      && U32(found) == SliceFound(HitOf(p), start, count, slices, slice)
      && (found != 0 ==> hash == NonceDigest(p.cv, p.block, U32(found)))
    }

    /** The thread's range, in 32-bit arithmetic. */
    method Bounds() returns (begin: Word, end: Word)
      requires slice < slices
      ensures begin == Begin(count, slices, slice) && end == End(count, slices, slice)
    {
      var per := U32(count + slices - 1) / slices;
      begin := U32(slice * per);
      end := U32(begin + per);
      if end > count || slice == slices - 1 {
        end := count;
      }
    }

    method SearchSlice()
      requires slice < slices
      modifies this
      ensures Finished()
    {
      hide Hit, NonceDigest, Begin, End, Found;
      var begin, end := Bounds();
      found := 0;
      var tmp := new Word[8];
      var gid := begin;
      while gid < end
        invariant found == 0
        invariant end == End(count, slices, slice)
        invariant SliceFound(HitOf(p), start, count, slices, slice) == Found(HitOf(p), start, gid, end)
      {
        FoundStep(HitOf(p), start, gid, end);
        var nonce := U32(start + gid);
        if nonce != 0 {
          var accept := TestNonce(p, nonce, tmp);
          if accept {
            found := ToInt32(nonce);
            hash := tmp[..];
            return;
          }
        }
        gid := gid + 1;
      }
      FoundStep(HitOf(p), start, gid, end);
    }
  }

  /** The threaded search.  Threads share only constants, so they may finish in
      any order; `failAt` is the thread whose creation fails, if it is below the
      slice count.  A null `hashOut` is fine unless slices ran and one won. */
  method CpuSearchNonceParallel(p: Puzzle, start: Word, count: Word, hashOut: array?<Word>, hw: Word, failAt: nat)
    returns (found: Int32)
    requires hashOut != null ==> hashOut.Length == 8
    requires hashOut == null ==>
      ShortCut(count, hw) || failAt < SliceCount(count, hw) || Parallel(HitOf(p), start, count, hw) == 0
    modifies hashOut
    ensures U32(found) == Returned(HitOf(p), start, count, hw, failAt)
    ensures hashOut != null ==>
      hashOut[..] == if found != 0 then NonceDigest(p.cv, p.block, U32(found)) else old(hashOut[..])
  {
    hide Hit, NonceDigest, Sequential, MinWinner, ThreadCount;
    var h := Processors(hw);
    if count < h * 4 || count <= 4096 {
      SlicedEqualsSequential(HitOf(p), start, count, 1);
      found := CpuSearchNonce(p, start, count, hashOut);
      return;
    }
    var n := ThreadCount(count, h);
    var ctx: seq<SearchCtx> := [];
    for s := 0 to n
      invariant |ctx| == s && fresh(ctx) && failAt >= s
      invariant hashOut != null ==> hashOut[..] == old(hashOut[..])
      invariant forall k :: 0 <= k < s ==> ctx[k].For(p, start, count, k, n)
    {
      if s == failAt {
        found := CpuSearchNonce(p, start, count, hashOut);
        return;
      }
      var c := new SearchCtx(p, start, count, s, n);
      ctx := ctx + [c];
    }
    RunSlices(ctx, n);
    found := KeepLowest(p, start, count, n, ctx, hashOut);
  }

  /** The loop after the joins: the lowest winner and its digest. */
  method KeepLowest(p: Puzzle, start: Word, count: Word, n: Word, ctx: seq<SearchCtx>, hashOut: array?<Word>)
    returns (found: Int32)
    requires hashOut != null ==> hashOut.Length == 8
    requires hashOut == null ==> MinWinner(HitOf(p), start, count, n, n) == 0
    requires |ctx| == n
    requires forall k :: 0 <= k < n ==> ctx[k].For(p, start, count, k, n) && ctx[k].Finished()
    modifies hashOut
    ensures U32(found) == MinWinner(HitOf(p), start, count, n, n)
    ensures hashOut != null ==>
      hashOut[..] == if found != 0 then NonceDigest(p.cv, p.block, U32(found)) else old(hashOut[..])
  {
    hide Hit, NonceDigest, MinWinner, SliceFound;
    found := 0;
    ghost var hit := HitOf(p);
    MinStep(hit, start, count, n, 0);
    MinWinnerIsMin(hit, start, count, n, n);
    for s := 0 to n
      invariant hashOut != null ==>
        hashOut[..] == if found != 0 then NonceDigest(p.cv, p.block, U32(found)) else old(hashOut[..])
      invariant U32(found) == MinWinner(hit, start, count, n, s)
      invariant forall k :: 0 <= k < n ==> ctx[k].Finished()
    {
      var f := ctx[s].found;
      MinStep(hit, start, count, n, s + 1);
      if f != 0 && (found == 0 || U32(f) < U32(found)) {
        found := f;
        forall i | 0 <= i < 8 { hashOut[i] := ctx[s].hash[i]; }
        assert hashOut[..] == ctx[s].hash;
      }
    }
  }

  /** Starts every slice thread and joins them all; each step lets any thread
      that has not run yet run. */
  method RunSlices(ctx: seq<SearchCtx>, n: Word)
    requires |ctx| == n
    requires forall k :: 0 <= k < n ==> ctx[k].slice == k < ctx[k].slices
    modifies ctx
    ensures forall k :: 0 <= k < n ==> ctx[k].Finished()
  {
    var pending: set<nat> := {};
    for i := 0 to n
      invariant forall k: nat :: k in pending <==> k < i
    {
      pending := pending + {i};
    }
    while pending != {}
      invariant forall k :: k in pending ==> k < n
      invariant forall k: nat :: k < n && k !in pending ==> ctx[k].Finished()
      decreases |pending|
    {
      hide SliceFound, NonceDigest, Hit;
      var s :| s in pending;
      ctx[s].SearchSlice();
      pending := pending - {s};
    }
  }
}
