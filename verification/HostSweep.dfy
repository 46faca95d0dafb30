/** The GPU hosts' answer to a work message: sweeping the 2^32 nonces of one
    header in batches. */
module HostSweep {
  import opened Words
  import opened Blake3
  import opened Compression
  import opened Targets
  import opened NonceSearch
  import opened Wrappers
  import opened Kernel
  import Hex

  const BATCH: Word := 0x400_0000

  datatype Message =
    | Progress(checked: nat)
    | Searched(checked: nat)
    | Solution(nonce: Word, checked: nat, header: string)
    | Failure

  /** The header with this nonce hashes to at most the target. */
  predicate Meets(header: seq<Byte>, target: Bytes32, nonce: Word)
    requires |header| == 180
  {
    WordsInt(Hash256(WithNonce(header, nonce))) <= BytesInt(target)
  }

  function PuzzleOf(header: seq<Byte>, target: Bytes32): Puzzle
    requires |header| == 180
  {
    Puzzle(MidCv(header), MidBlock(header), BytesWords(target))
  }

  /** What the kernel accepts is what the hash of the full header meets. */
  lemma HitIsMeets(header: seq<Byte>, target: Bytes32, nonce: Word)
    requires |header| == 180
    ensures Hit(PuzzleOf(header, target), nonce) <==> Meets(header, target, nonce)
  {
    hide Hash256, NonceDigest, MidCv, MidBlock, WithNonce;
    MidstateCorrect(header, nonce);
    BytesWordsInt(target);
  }

  // ----- batches

  /** First nonce of batch k. */
  function BatchStart(k: nat): Word {
    U32(1 + k * BATCH)
  }

  function BatchNonce(k: nat, g: nat): Word {
    NonceAt(BatchStart(k), g)
  }

  /** The batch and the item that test nonce n. */
  function BatchOf(n: Word): (nat, nat) {
    (U32(n - 1) / BATCH, U32(n - 1) % BATCH)
  }

  /** 64 batches test every nonce exactly once; the value that wraps to 0 and is
      skipped is the very last item. */
  lemma SweepCoversOnce(n: Word, k: nat, g: nat)
    requires k < 64 && g < BATCH
    ensures BatchNonce(k, g) == n <==> (k, g) == BatchOf(n)
    ensures BatchOf(n).0 < 64 && BatchOf(n).1 < BATCH
    ensures BatchOf(0) == (63, BATCH - 1)
  {
    hide U32;
    var y := k * BATCH + g;
    BatchSum(k, g);
    Predecessor(n, y);
    PairUnique(U32(n - 1), k, g);
    PairBound(U32(n - 1));
    LastItem();
  }

  lemma LastItem()
    ensures BatchOf(0) == (63, BATCH - 1)
  {
    PairUnique(TWO32 - 1, 63, BATCH - 1);
  }

  lemma BatchSum(k: nat, g: nat)
    requires k < 64 && g < BATCH
    ensures BatchNonce(k, g) == U32(k * BATCH + g + 1) && k * BATCH + g < TWO32
  {
  }

  lemma Predecessor(n: Word, y: nat)
    requires y < TWO32
    ensures U32(y + 1) == n <==> y == U32(n - 1)
  {
  }

  lemma PairUnique(y: nat, k: nat, g: nat)
    requires g < BATCH
    ensures (k, g) == (y / BATCH, y % BATCH) <==> y == k * BATCH + g
  {
    if y == k * BATCH + g { DivUnique(y, BATCH, k, g); }
  }

  lemma PairBound(y: Word)
    ensures y / BATCH < 64 && y % BATCH < BATCH
  {
  }

  /** The progress lines printed while k batches complete without a winner. */
  function ProgressLines(k: nat): seq<Message> {
    if k == 0 then []
    else ProgressLines(k - 1) + (if k % 8 == 0 then [Progress(k * BATCH)] else [])
  }

  /** No nonce of the first k batches meets the target. */
  ghost predicate NoneIn(header: seq<Byte>, target: Bytes32, k: nat)
    requires |header| == 180
  {
    forall j, g :: 0 <= j < k && 0 <= g < BATCH && BatchNonce(j, g) != 0 ==>
      !Meets(header, target, BatchNonce(j, g))
  }

  lemma NoneInAll(header: seq<Byte>, target: Bytes32, n: Word)
    requires |header| == 180 && NoneIn(header, target, 64) && n != 0
    ensures !Meets(header, target, n)
  {
    hide Meets;
    var (k, g) := BatchOf(n);
    SweepCoversOnce(n, k, g);
  }

  lemma BatchStarts(k: nat)
    requires k < 64
    ensures BatchStart(k) == 1 + k * BATCH
    ensures U32(BatchStart(k) as int + BATCH) < BatchStart(k) <==> k == 63
    ensures k < 63 ==> U32(BatchStart(k) as int + BATCH) == BatchStart(k + 1)
  {
  }

  method SetNonce(header: array<Byte>, nonce: Word)
    requires header.Length == 180
    modifies header
    ensures header[..] == WithNonce(old(header[..]), nonce)
  {
    header[140] := nonce % 0x100;
    header[141] := nonce / 0x100 % 0x100;
    header[142] := nonce / 0x1_0000 % 0x100;
    header[143] := nonce / 0x100_0000;
    StoreBytes(nonce);
  }

  lemma StoreBytes(w: Word)
    ensures StoreWord(w) == [w % 0x100, w / 0x100 % 0x100, w / 0x1_0000 % 0x100, w / 0x100_0000]
  {
    ShiftTwice(w);
    ShiftTwice(w / 0x100);
    var q, r := w / 0x100_0000, w % 0x100_0000;
    DivUnique(w / 0x100, 0x1_0000, q, r / 0x100);
  }

  lemma ShiftTwice(w: nat)
    ensures w / 0x100 / 0x100 == w / 0x1_0000
  {
    var q, r := w / 0x1_0000, w % 0x1_0000;
    DivUnique(w / 0x100, 0x100, q, r / 0x100);
  }

  /** What a launch over batch k found, said about the header's own hash. */
  lemma BatchResult(header: seq<Byte>, target: Bytes32, k: nat, found: Word)
    requires |header| == 180 && k < 64 && NoneIn(header, target, k)
    requires Finds(Launch(PuzzleOf(header, target), BatchStart(k), BATCH), GridThreads(BATCH), found)
    ensures found == 0 ==> NoneIn(header, target, k + 1)
    ensures found != 0 ==> Meets(header, target, found) && BatchOf(found).0 == k
  {
    hide Hit, Meets, PuzzleOf, BatchStart, NonceAt, BatchOf;
    var p := PuzzleOf(header, target);
    var l := Launch(p, BatchStart(k), BATCH);
    if found == 0 {
      forall g | 0 <= g < BATCH && BatchNonce(k, g) != 0
        ensures !Meets(header, target, BatchNonce(k, g))
      {
        assert !Winner(l, g);
        HitIsMeets(header, target, BatchNonce(k, g));
      }
    } else {
      var g :| 0 <= g < GridThreads(BATCH) && Winner(l, g) && found == NonceAt(l.start, g);
      HitIsMeets(header, target, found);
      assert BatchNonce(k, g) == found;
      SweepCoversOnce(found, k, g);
    }
  }

  function Lines(reply: Option<Message>): seq<Message> {
    if reply.None? then [] else [reply.value]
  }

  /** What a reply vouches for.  "Searched": 64 batches ran, 2^32 nonces are
      counted, and no non-zero nonce meets the target.  "Solution": the nonce
      meets the target and is in the last batch run, no earlier batch holds
      one, and the reported header is the work header carrying it. */
  ghost predicate Sound(header: seq<Byte>, target: Bytes32, reply: Option<Message>, batches: nat)
    requires |header| == 180
  {
    hide Meets, WithNonce, Hex.Encode, BatchOf;
    match reply
    case None => true
    case Some(Searched(checked)) =>
      checked == TWO32 && batches == 64 && forall n: Word :: n != 0 ==> !Meets(header, target, n)
    case Some(Solution(nonce, checked, text)) =>
      && nonce != 0 && Meets(header, target, nonce) && text == Hex.Encode(WithNonce(header, nonce))
      && checked == batches * BATCH && BatchOf(nonce).0 == batches - 1
      && batches > 0 && NoneIn(header, target, batches - 1)
    case Some(Failure) => batches < 64
    case Some(Progress(_)) => false
  }

  /** The batch that ends the sweep, by a winner or by the wrap, prints none. */
  function LinesBefore(found: bool, batches: nat): seq<Message> {
    ProgressLines(if (found || batches == 64) && batches > 0 then batches - 1 else batches)
  }

  /** The progress lines of `batches` batches: one for every eight, at 2^29 nonces
      each, as long as another batch follows. */
  predicate Reported(lines: seq<Message>, batches: nat, ended: bool) {
    && (forall i :: 0 <= i < |lines| ==> lines[i] == Progress((i + 1) * 0x2000_0000))
    && (if ended then 8 * |lines| < batches <= 8 * |lines| + 8 else 8 * |lines| <= batches < 8 * |lines| + 8)
  }

  lemma {:induction false} ProgressLinesAre(k: nat)
    ensures Reported(ProgressLines(k), k, false)
    decreases k
  {
    if k > 0 { ProgressLinesAre(k - 1); }
  }

  lemma LinesBeforeAre(found: bool, batches: nat)
    requires batches > 0 || !found
    ensures Reported(LinesBefore(found, batches), batches, found || batches == 64)
  {
    hide ProgressLines;
    ProgressLinesAre(batches);
    if batches > 0 { ProgressLinesAre(batches - 1); }
  }

  /** What the first `batches` batches say together: no winner, or one in the
      last of them. */
  ghost predicate Outcome(header: seq<Byte>, target: Bytes32, found: Word, batches: nat)
    requires |header| == 180
  {
    hide Meets, BatchOf, NoneIn;
    if found == 0 then NoneIn(header, target, batches)
    else batches > 0 && NoneIn(header, target, batches - 1)
         && Meets(header, target, found) && BatchOf(found).0 == batches - 1
  }

  /** The batch loop.  The stop flag reads false on its first `stopAfter` loads
      and true from then on; the device fails on batch `failAt`. */
  method Sweep(gpu: Gpu, p: Puzzle, ghost header: seq<Byte>, ghost target: Bytes32, stopAfter: nat, failAt: nat)
    returns (found: Word, failed: bool, batches: nat, checked: nat, out: seq<Message>)
    requires gpu.hashOut.Length == 8 && |header| == 180 && p == PuzzleOf(header, target)
    modifies gpu, gpu.hashOut
    ensures batches <= 64 && checked == batches * BATCH && (found != 0 ==> batches > 0)
    ensures out == LinesBefore(found != 0, batches)
    ensures failed <==> failAt == batches < 64 && stopAfter > batches && found == 0
    ensures Outcome(header, target, found, batches)
    ensures found == 0 && batches < 64 && !failed ==> stopAfter <= batches
  {
    hide Hit, Meets, NonceDigest, NoneIn, BatchStart, BatchOf, Winner, PuzzleOf, NonceAt;
    NoneInZero(header, target);
    var start: Word := 1;
    found, failed, checked, out, batches := 0, false, 0, [], 0;
    BatchStarts(0);
    while stopAfter > batches && found == 0
      invariant found == 0 && !failed && batches < 64 && checked == batches * BATCH
      invariant start == BatchStart(batches) && NoneIn(header, target, batches)
      invariant out == ProgressLines(batches)
      decreases 64 - batches
    {
      if batches == failAt {
        failed := true;
        return;
      }
      var nonceOut, hash := gpu.SearchGpu(p, start, BATCH);
      BatchResult(header, target, batches, nonceOut);
      BatchStarts(batches);
      checked := checked + BATCH;
      batches := batches + 1;
      if nonceOut != 0 {
        found := nonceOut;
        break;
      }
      var next := U32(start as int + BATCH);
      if next < start {
        start := 1;
        break;
      }
      start := next;
      if checked / BATCH % 8 == 0 {
        out := out + [Progress(checked)];
      }
    }
  }

  /** The answer to one work message.  The loop ends for every header, target,
      stop time and device fault; there is no reply only when told to stop.  A
      sweep neither stopped nor failed reports a solution exactly when some
      non-zero nonce meets the target. */
  method HandleWork(gpu: Gpu, header: array<Byte>, target: Bytes32, stopAfter: nat, failAt: nat)
    returns (out: seq<Message>, reply: Option<Message>, ghost batches: nat)
    requires gpu.hashOut.Length == 8 && header.Length == 180
    modifies gpu, gpu.hashOut
    ensures batches <= 64 && Sound(header[..], target, reply, batches)
    ensures reply.None? ==> stopAfter <= batches
    ensures reply == Some(Failure) ==> failAt == batches
    ensures out == LinesBefore(Solved(reply), batches) + Lines(reply)
    ensures Reported(LinesBefore(Solved(reply), batches), batches, Solved(reply) || batches == 64)
    ensures reply.Some? && !reply.value.Failure? ==>
      (Solved(reply) <==> exists n: Word :: n != 0 && Meets(header[..], target, n))
  {
    hide Hit, Meets, NonceDigest, Hex.Encode, WithNonce, NoneIn, BatchStart, BatchOf, PuzzleOf, ProgressLines,
         MidCv, MidBlock, BytesWords;
    var cv := new Word[8];
    var block2 := new Word[16];
    ComputeMidstate(header, cv, block2);
    PuzzleIs(header[..], target);
    var p := Puzzle(cv[..], block2[..], BytesWords(target));
    hide LinesBefore, Reported;
    var found, failed, ran, checked, lines := Sweep(gpu, p, header[..], target, stopAfter, failAt);
    out, reply, batches := lines, None, ran;
    LinesBeforeAre(found != 0, ran);
    if failed {
      reply := Some(Failure);
    } else if found != 0 {
      var solved := new Byte[180](i requires 0 <= i < 180 reads header => header[i]);
      assert solved[..] == header[..];
      SetNonce(solved, found);
      reply := Some(Solution(found, checked, Hex.Encode(solved[..])));
    } else if stopAfter > ran {
      forall n: Word | n != 0 ensures !Meets(header[..], target, n) {
        NoneInAll(header[..], target, n);
      }
      reply := Some(Searched(checked));
    }
    out := out + Lines(reply);
  }

  predicate Solved(reply: Option<Message>) {
    reply.Some? && reply.value.Solution?
  }

  lemma PuzzleIs(header: seq<Byte>, target: Bytes32)
    requires |header| == 180
    ensures PuzzleOf(header, target) == Puzzle(MidCv(header), MidBlock(header), BytesWords(target))
  {
  }

  lemma NoneInZero(header: seq<Byte>, target: Bytes32)
    requires |header| == 180
    ensures NoneIn(header, target, 0)
  {
  }
}
