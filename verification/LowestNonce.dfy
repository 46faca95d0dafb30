/** What the threaded search promises, the lowest matching nonce for any number
    of threads, and exactly when it keeps that promise. */
module LowestNonce {
  import opened Words
  import opened Blake3
  import opened Compression
  import opened Targets
  import opened NonceSearch
  import opened Wrappers

  /** `n` is the lowest winning nonce of the range, or 0 and there is none. */
  ghost predicate IsLowest(hit: Word -> bool, start: Word, count: Word, n: Word) {
    && (n != 0 ==> exists g :: 0 <= g < count && Wins(hit, start, g) && NonceAt(start, g) == n)
    && forall g :: 0 <= g < count && Wins(hit, start, g) ==> 0 < n <= NonceAt(start, g)
  }

  /** Slice s holds both the nonce 2^32 - 1 and, past the wrap, the nonce 1. */
  predicate Straddles(start: Word, count: Word, slices: Word, s: nat)
    requires s < slices
  {
    Begin(count, slices, s) < TWO32 - start && TWO32 - start + 1 < End(count, slices, s)
  }

  predicate NoneStraddles(start: Word, count: Word, slices: Word) {
    forall s :: 0 <= s < slices ==> !Straddles(start, count, slices, s)
  }

  // ----- the promise is kept when no slice straddles the wrap

  /** Inside such a slice the nonces that count rise with the items. */
  lemma SliceRises(start: Word, count: Word, slices: Word, s: nat, g: nat, h: nat)
    requires s < slices && !Straddles(start, count, slices, s)
    requires Begin(count, slices, s) <= g <= h < End(count, slices, s)
    requires NonceAt(start, g) != 0 && NonceAt(start, h) != 0
    ensures NonceAt(start, g) <= NonceAt(start, h)
  {
    hide Begin, End;
    SliceWithin(count, slices, s);
    NonceValue(start, g);
    NonceValue(start, h);
  }

  lemma NonceValue(start: Word, g: nat)
    requires g < TWO32
    ensures NonceAt(start, g) == if start + g < TWO32 then start + g else start + g - TWO32
  {
  }

  /** A winner keeps the result at or below its own nonce. */
  lemma ResultNotAbove(hit: Word -> bool, start: Word, count: Word, slices: Word, g: nat)
    requires slices > 0 && NoneStraddles(start, count, slices) && g < count && Wins(hit, start, g)
    ensures 0 < MinWinner(hit, start, count, slices, slices) <= NonceAt(start, g)
  {
    hide MinWinner, Begin, End, SliceOf, NonceAt, FirstWin, Straddles;
    var s := SliceOf(count, slices, g);
    SlicesPartition(count, slices, g, 0);
    SlicesPartition(count, slices, g, s);
    SliceWithin(count, slices, s);
    var r := FirstWin(hit, start, Begin(count, slices, s), End(count, slices, s));
    assert r.Some? && r.value <= g;
    SliceRises(start, count, slices, s, r.value, g);
    MinWinnerIsMin(hit, start, count, slices, slices);
    assert SliceFound(hit, start, count, slices, s) == NonceAt(start, r.value);
  }

  lemma ResultIsLowest(hit: Word -> bool, start: Word, count: Word, slices: Word)
    requires slices > 0 && NoneStraddles(start, count, slices)
    ensures IsLowest(hit, start, count, MinWinner(hit, start, count, slices, slices))
  {
    hide MinWinner, Begin, End, NonceAt, FirstWin, NoneStraddles, Wins;
    var w := MinWinner(hit, start, count, slices, slices);
    MinWinnerIsMin(hit, start, count, slices, slices);
    if w != 0 {
      var s :| 0 <= s < slices && w == SliceFound(hit, start, count, slices, s);
      SliceWithin(count, slices, s);
      var r := FirstWin(hit, start, Begin(count, slices, s), End(count, slices, s));
      assert Wins(hit, start, r.value) && NonceAt(start, r.value) == w;
    }
    forall g | 0 <= g < count && Wins(hit, start, g) ensures 0 < w <= NonceAt(start, g) {
      ResultNotAbove(hit, start, count, slices, g);
    }
  }

  // ----- and broken by one target whenever some slice does

  /** The target every hash meets. */
  const ALL_ONES: Words8 := [0xFFFF_FFFF, 0xFFFF_FFFF, 0xFFFF_FFFF, 0xFFFF_FFFF,
                             0xFFFF_FFFF, 0xFFFF_FFFF, 0xFFFF_FFFF, 0xFFFF_FFFF]

  lemma {:induction false} WordsAtMost(a: seq<Word>, b: seq<Word>)
    requires |a| == |b| && forall i :: 0 <= i < |a| ==> a[i] <= b[i]
    ensures WordsInt(a) <= WordsInt(b)
    decreases |a|
  {
    if a != [] {
      WordsAtMost(a[1..], b[1..]);
    }
  }

  lemma AllAccepted(cv: Words8, block: Words16, n: Word)
    ensures HitOf(Puzzle(cv, block, ALL_ONES))(n)
  {
    hide NonceDigest, WordsInt;
    WordsAtMost(NonceDigest(cv, block, n), ALL_ONES);
  }

  /** When every nonce wins, a slice finds its first item, or its second when
      the first is the skipped nonce 0. */
  lemma FirstOfSlice(hit: Word -> bool, start: Word, count: Word, slices: Word, s: nat)
    requires s < slices && forall n :: hit(n)
    ensures var b: nat, e: nat := Begin(count, slices, s), End(count, slices, s);
      SliceFound(hit, start, count, slices, s)
        == if b < e && NonceAt(start, b) != 0 then NonceAt(start, b)
           else if b + 1 < e then NonceAt(start, b + 1) else 0
  {
    hide Begin, End, NonceAt;
    var b: nat, e: nat := Begin(count, slices, s), End(count, slices, s);
    SliceWithin(count, slices, s);
    var r := FirstWin(hit, start, b, e);
    if b < e && NonceAt(start, b) != 0 {
      assert Wins(hit, start, b);
    } else if b + 1 < e {
      NextNonzero(start, b);
      assert Wins(hit, start, b + 1);
    }
  }

  lemma NextNonzero(start: Word, g: nat)
    requires NonceAt(start, g) == 0
    ensures NonceAt(start, g + 1) == 1
  {
  }

  /** No slice reports the nonce 1 if a slice that straddles the wrap holds it. */
  lemma OneIsMissed(hit: Word -> bool, start: Word, count: Word, slices: Word, s: nat, t: nat)
    requires s < slices && t < slices && Straddles(start, count, slices, s) && forall n :: hit(n)
    ensures SliceFound(hit, start, count, slices, t) != 1
  {
    hide Begin, End, SliceFound, NonceAt, SliceOf;
    SliceWithin(count, slices, s);
    SliceWithin(count, slices, t);
    var one := TWO32 - start + 1;
    var b: nat := Begin(count, slices, t);
    FirstOfSlice(hit, start, count, slices, t);
    SlicesPartition(count, slices, one, s);
    SlicesPartition(count, slices, one, t);
    NonceValue(start, b);
    if b + 1 < TWO32 { NonceValue(start, b + 1); }
  }

  lemma StraddleLosesLowest(hit: Word -> bool, start: Word, count: Word, slices: Word, s: nat)
    requires s < slices && Straddles(start, count, slices, s) && forall n :: hit(n)
    ensures !IsLowest(hit, start, count, MinWinner(hit, start, count, slices, slices))
  {
    hide MinWinner, Begin, End, SliceFound, NonceAt;
    SliceWithin(count, slices, s);
    var one := TWO32 - start + 1;
    NonceValue(start, one);
    assert Wins(hit, start, one);
    var w := MinWinner(hit, start, count, slices, slices);
    MinWinnerIsMin(hit, start, count, slices, slices);
    if w != 0 {
      var t :| 0 <= t < slices && w == SliceFound(hit, start, count, slices, t);
      OneIsMissed(hit, start, count, slices, s, t);
    }
  }

  /** For n slices: for every midstate, their least winner is the lowest matching
      nonce for every target if and only if no slice holds nonces on both sides
      of the wrap. */
  lemma SlicedLowestIff(cv: Words8, block: Words16, start: Word, count: Word, slices: Word)
    requires slices > 0
    ensures (forall target: Words8 :: SlicesKeepPromise(Puzzle(cv, block, target), start, count, slices))
      <==> NoneStraddles(start, count, slices)
  {
    hide MinWinner, IsLowest, Straddles;
    if NoneStraddles(start, count, slices) {
      forall target: Words8 ensures SlicesKeepPromise(Puzzle(cv, block, target), start, count, slices) {
        ResultIsLowest(HitOf(Puzzle(cv, block, target)), start, count, slices);
      }
    } else {
      var s :| 0 <= s < slices && Straddles(start, count, slices, s);
      forall m ensures HitOf(Puzzle(cv, block, ALL_ONES))(m) { AllAccepted(cv, block, m); }
      StraddleLosesLowest(HitOf(Puzzle(cv, block, ALL_ONES)), start, count, slices, s);
      assert !SlicesKeepPromise(Puzzle(cv, block, ALL_ONES), start, count, slices);
    }
  }

  ghost predicate SlicesKeepPromise(p: Puzzle, start: Word, count: Word, slices: Word)
    requires slices > 0
  {
    IsLowest(HitOf(p), start, count, MinWinner(HitOf(p), start, count, slices, slices))
  }

  // ----- the promise of the code

  /** What the code returns is the lowest matching nonce. */
  ghost predicate KeepsPromise(p: Puzzle, start: Word, count: Word, hw: Word, failAt: nat) {
    IsLowest(HitOf(p), start, count, Returned(HitOf(p), start, count, hw, failAt))
  }

  /** The slices whose winners decide: the fallback scan is a single one. */
  function DecidingSlices(count: Word, hw: Word, failAt: nat): (n: Word)
    ensures 1 <= n <= 64
  {
    if failAt < SliceCount(count, hw) then 1 else SliceCount(count, hw)
  }

  lemma ReturnedIsSliced(hit: Word -> bool, start: Word, count: Word, hw: Word, failAt: nat)
    ensures var n := DecidingSlices(count, hw, failAt);
      Returned(hit, start, count, hw, failAt) == MinWinner(hit, start, count, n, n)
  {
    hide MinWinner, Sequential, SliceCount;
    SlicedEqualsSequential(hit, start, count, 1);
  }

  /** The promise, exactly: for every midstate, what the threaded search returns
      is the lowest matching nonce for every target if and only if none of the
      deciding slices holds nonces on both sides of the wrap. */
  lemma LowestIff(cv: Words8, block: Words16, start: Word, count: Word, hw: Word, failAt: nat)
    ensures (forall target: Words8 :: KeepsPromise(Puzzle(cv, block, target), start, count, hw, failAt))
      <==> NoneStraddles(start, count, DecidingSlices(count, hw, failAt))
  {
    hide IsLowest, Returned, MinWinner, NoneStraddles, DecidingSlices;
    var n := DecidingSlices(count, hw, failAt);
    forall target: Words8
      ensures KeepsPromise(Puzzle(cv, block, target), start, count, hw, failAt)
        <==> SlicesKeepPromise(Puzzle(cv, block, target), start, count, n)
    {
      ReturnedIsSliced(HitOf(Puzzle(cv, block, target)), start, count, hw, failAt);
    }
    SlicedLowestIff(cv, block, start, count, n);
  }

  /** One slice straddles the wrap exactly when the range goes past nonce 1. */
  lemma WholeRange(start: Word, count: Word)
    ensures NoneStraddles(start, count, 1) <==> start + count <= TWO32 + 1
  {
    hide Begin, End;
    BoundsExact(count, 1, 0);
    assert NoneStraddles(start, count, 1) <==> !Straddles(start, count, 1, 0);
  }

  lemma NoWrapNoStraddle(start: Word, count: Word, slices: Word)
    requires start + count <= TWO32 + 1
    ensures NoneStraddles(start, count, slices)
  {
    hide Begin, End;
    forall s | 0 <= s < slices ensures !Straddles(start, count, slices, s) {
      SliceWithin(count, slices, s);
    }
  }

  /** The promise of the ascending scan itself: lowest for every target if and
      only if the range does not go past the wrap. */
  lemma ScanLowestIff(cv: Words8, block: Words16, start: Word, count: Word)
    ensures (forall target: Words8 :: ScanKeepsPromise(Puzzle(cv, block, target), start, count))
      <==> start + count <= TWO32 + 1
  {
    hide IsLowest, MinWinner, Sequential, NoneStraddles;
    forall target: Words8
      ensures ScanKeepsPromise(Puzzle(cv, block, target), start, count)
        <==> SlicesKeepPromise(Puzzle(cv, block, target), start, count, 1)
    {
      SlicedEqualsSequential(HitOf(Puzzle(cv, block, target)), start, count, 1);
    }
    SlicedLowestIff(cv, block, start, count, 1);
    WholeRange(start, count);
  }

  ghost predicate ScanKeepsPromise(p: Puzzle, start: Word, count: Word) {
    IsLowest(HitOf(p), start, count, Sequential(HitOf(p), start, count))
  }

  /** For a caller who knows neither the processor count nor whether threads can
      be created: the lowest match is returned for every target, whatever they
      are, if and only if the range does not go past the wrap. */
  lemma LowestForAnyThreadsIff(cv: Words8, block: Words16, start: Word, count: Word)
    ensures (forall target: Words8, hw, failAt ::
               KeepsPromise(Puzzle(cv, block, target), start, count, hw, failAt))
      <==> start + count <= TWO32 + 1
  {
    hide KeepsPromise, NoneStraddles, DecidingSlices;
    if start + count <= TWO32 + 1 {
      forall target: Words8, hw: Word, failAt: nat
        ensures KeepsPromise(Puzzle(cv, block, target), start, count, hw, failAt)
      {
        NoWrapNoStraddle(start, count, DecidingSlices(count, hw, failAt));
        LowestIff(cv, block, start, count, hw, failAt);
      }
    } else {
      FirstThreadFails(count);
      WholeRange(start, count);
      LowestIff(cv, block, start, count, 1, 0);
    }
  }

  lemma FirstThreadFails(count: Word)
    ensures DecidingSlices(count, 1, 0) == 1
  {
  }

  // ----- against the ascending scan, at a target

  /** The first nonce slice s tests comes after the wrap. */
  predicate StartsPastWrap(start: Word, count: Word, slices: Word, s: nat)
    requires s < slices
  {
    var b: nat, e: nat := Begin(count, slices, s), End(count, slices, s);
    (b < e && start + b > TWO32) || (b + 1 < e && start + b == TWO32)
  }

  lemma StartOfSlice(hit: Word -> bool, start: Word, count: Word, slices: Word, s: nat)
    requires s < slices && start + count > TWO32 + 1 && forall n :: hit(n)
    ensures var f := SliceFound(hit, start, count, slices, s);
      if StartsPastWrap(start, count, slices, s) then 0 < f < start else f == 0 || f >= start
  {
    hide Begin, End, SliceFound, NonceAt;
    var b: nat := Begin(count, slices, s);
    SliceWithin(count, slices, s);
    FirstOfSlice(hit, start, count, slices, s);
    NonceValue(start, b);
    if b + 1 < TWO32 { NonceValue(start, b + 1); }
  }

  lemma FirstIsStart(hit: Word -> bool, start: Word, count: Word)
    requires start > 0 && count > 0 && hit(start)
    ensures FirstWin(hit, start, 0, count) == Some(0) && Sequential(hit, start, count) == start
    ensures NonceAt(start, 0) == start
  {
    hide NonceAt;
    NonceValue(start, 0);
    assert Wins(hit, start, 0);
  }

  lemma AcceptAllIffSequential(hit: Word -> bool, start: Word, count: Word, slices: Word)
    requires slices > 0 && start + count > TWO32 + 1 && forall n :: hit(n)
    ensures MinWinner(hit, start, count, slices, slices) == start
      <==> forall s :: 0 <= s < slices ==> !StartsPastWrap(start, count, slices, s)
  {
    hide MinWinner, SliceFound, StartsPastWrap, FirstWin, SliceOf, NonceAt;
    var w := MinWinner(hit, start, count, slices, slices);
    MinWinnerIsMin(hit, start, count, slices, slices);
    FirstIsStart(hit, start, count);
    FirstWinnersSlice(hit, start, count, slices, 0);
    if s :| 0 <= s < slices && StartsPastWrap(start, count, slices, s) {
      StartOfSlice(hit, start, count, slices, s);
    } else {
      var t :| 0 <= t < slices && w == SliceFound(hit, start, count, slices, t);
      StartOfSlice(hit, start, count, slices, t);
    }
  }

  /** Exactly when the code's result is the scan's for every acceptance predicate. */
  lemma ReturnedIffSequential(start: Word, count: Word, hw: Word, failAt: nat)
    ensures (forall hit :: Returned(hit, start, count, hw, failAt) == Sequential(hit, start, count))
      <==> start + count <= TWO32 + 1 || DecidingSlices(count, hw, failAt) == 1
  {
    hide Parallel, Sequential, SliceCount;
    ParallelIffSequential(start, count, hw);
    if failAt >= SliceCount(count, hw) {
      assert forall hit :: Returned(hit, start, count, hw, failAt) == Parallel(hit, start, count, hw);
    }
  }

  /** At the target every hash meets, whatever the midstate, the code's result is
      the scan's if and only if none of the deciding slices starts after the
      wrap. */
  lemma AllOnesIffSequential(cv: Words8, block: Words16, start: Word, count: Word, hw: Word, failAt: nat)
    ensures var hit, n := HitOf(Puzzle(cv, block, ALL_ONES)), DecidingSlices(count, hw, failAt);
      Returned(hit, start, count, hw, failAt) == Sequential(hit, start, count)
      <==> forall s :: 0 <= s < n ==> !StartsPastWrap(start, count, n, s)
  {
    hide MinWinner, StartsPastWrap, HitOf, DecidingSlices, Sequential, Returned;
    var hit, n := HitOf(Puzzle(cv, block, ALL_ONES)), DecidingSlices(count, hw, failAt);
    forall m ensures hit(m) { AllAccepted(cv, block, m); }
    ReturnedIsSliced(hit, start, count, hw, failAt);
    if start + count <= TWO32 + 1 {
      SlicedEqualsSequential(hit, start, count, n);
      forall s | 0 <= s < n ensures !StartsPastWrap(start, count, n, s) { NoStartPastWrap(start, count, n, s); }
    } else {
      FirstIsStart(hit, start, count);
      AcceptAllIffSequential(hit, start, count, n);
    }
  }

  lemma NoStartPastWrap(start: Word, count: Word, slices: Word, s: nat)
    requires s < slices && start + count <= TWO32 + 1
    ensures !StartsPastWrap(start, count, slices, s)
  {
    hide Begin, End;
    SliceWithin(count, slices, s);
  }

  // ----- independence of the thread count

  /** The result is the same for every processor count, every thread that may
      not start and every acceptance predicate if and only if no nonce follows
      the wrap or the range is one that is never sliced. */
  lemma SameForAnyThreadsIff(start: Word, count: Word)
    ensures (forall hit, hw, failAt :: Returned(hit, start, count, hw, failAt) == Sequential(hit, start, count))
      <==> start + count <= TWO32 + 1 || count <= 4096 || count == TWO32 - 1
  {
    hide Parallel, SliceCount, Sequential;
    if start + count <= TWO32 + 1 || count <= 4096 || count == TWO32 - 1 {
      forall hit: Word -> bool, hw: Word, failAt: nat
        ensures Returned(hit, start, count, hw, failAt) == Sequential(hit, start, count)
      {
        SlicesAre(count, hw);
        ParallelIffSequential(start, count, hw);
      }
    } else {
      SlicesAre(count, 2);
      ParallelIffSequential(start, count, 2);
      var hit :| Parallel(hit, start, count, 2) != Sequential(hit, start, count);
      assert Returned(hit, start, count, 2, 2) == Parallel(hit, start, count, 2);
    }
  }

  // ----- inputs that break the promise

  /** Whatever the midstate: with the all-ones target, 8192 nonces from
      0xFFFFFF00 and two processors, the result is 3840; one processor gives
      0xFFFFFF00; and the lowest match is 1. */
  lemma PromiseBroken(cv: Words8, block: Words16)
    ensures var hit := HitOf(Puzzle(cv, block, ALL_ONES));
      && Returned(hit, 0xFFFF_FF00, 8192, 2, 2) == 3840
      && Returned(hit, 0xFFFF_FF00, 8192, 1, 1) == 0xFFFF_FF00
      && Wins(hit, 0xFFFF_FF00, 257) && NonceAt(0xFFFF_FF00, 257) == 1
  {
    hide MinWinner, SliceFound, SliceCount, Sequential;
    var hit := HitOf(Puzzle(cv, block, ALL_ONES));
    forall m ensures hit(m) { AllAccepted(cv, block, m); }
    SlicesAre(8192, 2);
    SlicesAre(8192, 1);
    HalvesOf8192();
    FirstOfSlice(hit, 0xFFFF_FF00, 8192, 2, 0);
    FirstOfSlice(hit, 0xFFFF_FF00, 8192, 2, 1);
    FirstOfSlice(hit, 0xFFFF_FF00, 8192, 1, 0);
    MinWinnerIsMin(hit, 0xFFFF_FF00, 8192, 2, 2);
    MinWinnerIsMin(hit, 0xFFFF_FF00, 8192, 1, 1);
  }

  /** And where two slices meet exactly at the wrap: they return the lowest match,
      1, but if the second thread cannot be created the result is 0xFFFFF000. */
  lemma FallbackBreaksPromise(cv: Words8, block: Words16)
    ensures var hit := HitOf(Puzzle(cv, block, ALL_ONES));
      && NoneStraddles(0xFFFF_F000, 8192, SliceCount(8192, 2))
      && Returned(hit, 0xFFFF_F000, 8192, 2, 2) == 1
      && Returned(hit, 0xFFFF_F000, 8192, 2, 1) == 0xFFFF_F000
      && Wins(hit, 0xFFFF_F000, 4097) && NonceAt(0xFFFF_F000, 4097) == 1
  {
    hide HitOf, Returned, NoneStraddles, Wins, NonceAt;
    var hit := HitOf(Puzzle(cv, block, ALL_ONES));
    forall m ensures hit(m) { AllAccepted(cv, block, m); }
    SlicesAre(8192, 2);
    MeetAtWrap();
    FallbackResults(hit);
  }

  lemma MeetAtWrap()
    ensures NoneStraddles(0xFFFF_F000, 8192, 2)
  {
    hide Begin, End;
    HalvesOf8192();
    forall s | 0 <= s < 2 ensures !Straddles(0xFFFF_F000, 8192, 2, s) {
      if s == 0 { assert !Straddles(0xFFFF_F000, 8192, 2, 0); } else { assert !Straddles(0xFFFF_F000, 8192, 2, 1); }
    }
  }

  lemma FallbackResults(hit: Word -> bool)
    requires forall n :: hit(n)
    ensures Returned(hit, 0xFFFF_F000, 8192, 2, 2) == 1
    ensures Returned(hit, 0xFFFF_F000, 8192, 2, 1) == 0xFFFF_F000
    ensures Wins(hit, 0xFFFF_F000, 4097) && NonceAt(0xFFFF_F000, 4097) == 1
  {
    hide MinWinner, SliceFound, SliceCount, Sequential, Begin, End;
    SlicesAre(8192, 2);
    HalvesOf8192();
    FirstOfSlice(hit, 0xFFFF_F000, 8192, 2, 0);
    FirstOfSlice(hit, 0xFFFF_F000, 8192, 2, 1);
    MinWinnerIsMin(hit, 0xFFFF_F000, 8192, 2, 2);
    FirstIsStart(hit, 0xFFFF_F000, 8192);
  }

  lemma HalvesOf8192()
    ensures Begin(8192, 2, 0) == 0 && End(8192, 2, 0) == 4096
    ensures Begin(8192, 2, 1) == 4096 && End(8192, 2, 1) == 8192
    ensures Begin(8192, 1, 0) == 0 && End(8192, 1, 0) == 8192
  {
  }
}
