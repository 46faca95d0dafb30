/** One kernel launch as a concurrent step system: every work item compresses
    its nonce, winners race on a compare-and-swap, and the first one copies its
    digest out word by word. */
module Kernel {
  import opened Words
  import opened Blake3
  import opened Compression
  import opened NonceSearch

  datatype Launch = Launch(p: Puzzle, start: Word, count: Word)

  /** A thread's next access to shared memory. */
  datatype Pc = Ready | AtCas | Writing(word: nat) | Done

  /** Shared memory and the threads. */
  datatype Device = Device(result: Word, hash: Words8, pcs: seq<Pc>)

  function Initial(hash: Words8, threads: nat): Device {
    Device(0, hash, seq(threads, _ => Ready))
  }

  function Digest(l: Launch, t: nat): Words8 {
    NonceDigest(l.p.cv, l.p.block, NonceAt(l.start, t))
  }

  predicate Winner(l: Launch, t: nat) {
    t < l.count && Wins(HitOf(l.p), l.start, t)
  }

  /** Thread t takes its next step; a finished thread does nothing. */
  function Step(l: Launch, d: Device, t: nat): Device {
    hide Digest, Winner, NonceAt;
    if t >= |d.pcs| then d
    else match d.pcs[t]
      case Ready =>
        // Bounds test, nonce 0 test, compression and comparison are private.
        d.(pcs := d.pcs[t := if Winner(l, t) then AtCas else Done])
      case AtCas =>
        if d.result == 0 then Device(NonceAt(l.start, t), d.hash, d.pcs[t := Writing(0)])
        else d.(pcs := d.pcs[t := Done])
      case Writing(i) =>
        if i < 8 then
          d.(hash := d.hash[i := Digest(l, t)[i]], pcs := d.pcs[t := if i == 7 then Done else Writing(i + 1)])
        else d
      case Done => d
  }

  /** The threads take steps in the order of `schedule`. */
  function Exec(l: Launch, d: Device, schedule: seq<nat>): Device {
    if schedule == [] then d
    else Step(l, Exec(l, d, schedule[..|schedule| - 1]), schedule[|schedule| - 1])
  }

  ghost predicate AllDone(d: Device) {
    forall t :: 0 <= t < |d.pcs| ==> d.pcs[t] == Done
  }

  // ----- safety

  /** Thread w owns the result: it alone writes, and what it has written so far
      is its own digest. */
  ghost predicate OwnedBy(l: Launch, d: Device, w: nat) {
    && w < |d.pcs| && Winner(l, w) && d.result == NonceAt(l.start, w)
    && (d.pcs[w] == Done || (d.pcs[w].Writing? && d.pcs[w].word < 8))
    && (forall t :: 0 <= t < |d.pcs| && t != w ==> !d.pcs[t].Writing?)
    && (d.pcs[w] == Done ==> d.hash == Digest(l, w))
    && (d.pcs[w].Writing? ==> d.hash[..d.pcs[w].word] == Digest(l, w)[..d.pcs[w].word])
  }

  /** Nobody has won yet: no winner has finished and the digest cell is as it was. */
  ghost predicate Unowned(l: Launch, d: Device, hash: Words8) {
    && d.result == 0 && d.hash == hash
    && (forall t :: 0 <= t < |d.pcs| ==> !d.pcs[t].Writing?)
    && (forall t :: 0 <= t < |d.pcs| && d.pcs[t] == Done ==> !Winner(l, t))
  }

  ghost predicate Inv(l: Launch, d: Device, hash: Words8) {
    && (forall t :: 0 <= t < |d.pcs| && d.pcs[t] == AtCas ==> Winner(l, t))
    && (Unowned(l, d, hash) || exists w :: OwnedBy(l, d, w))
  }

  lemma OwnedStep(l: Launch, d: Device, t: nat, w: nat)
    requires OwnedBy(l, d, w)
    ensures OwnedBy(l, Step(l, d, t), w)
  {
    hide Winner, Digest, NonceAt;
    var e := Step(l, d, t);
    WinnerNonzero(l, w);
    if t == w && d.pcs[t].Writing? {
      var i := d.pcs[t].word;
      assert e.hash[..i] == d.hash[..i];
      assert e.hash[..i + 1] == Digest(l, w)[..i + 1];
    }
  }

  lemma WinnerNonzero(l: Launch, w: nat)
    ensures Winner(l, w) ==> NonceAt(l.start, w) != 0
  {
  }

  lemma StepInv(l: Launch, d: Device, t: nat, hash: Words8)
    requires Inv(l, d, hash)
    ensures Inv(l, Step(l, d, t), hash)
  {
    hide Winner, Digest, NonceAt, OwnedBy;
    var e := Step(l, d, t);
    if Unowned(l, d, hash) {
      if t < |d.pcs| && d.pcs[t] == AtCas {
        Claim(l, d, t, hash);
      } else {
        assert Unowned(l, e, hash);
      }
    } else {
      var w :| OwnedBy(l, d, w);
      OwnedStep(l, d, t, w);
    }
  }

  lemma Claim(l: Launch, d: Device, t: nat, hash: Words8)
    requires Unowned(l, d, hash) && t < |d.pcs| && d.pcs[t] == AtCas && Winner(l, t)
    ensures OwnedBy(l, Step(l, d, t), t)
  {
    hide Digest, Winner, NonceAt;
    WinnerNonzero(l, t);
  }

  lemma {:induction false} ExecInv(l: Launch, hash: Words8, threads: nat, schedule: seq<nat>)
    ensures Inv(l, Exec(l, Initial(hash, threads), schedule), hash)
    ensures |Exec(l, Initial(hash, threads), schedule).pcs| == threads
    decreases |schedule|
  {
    hide Step, Inv;
    if schedule == [] {
      assert Inv(l, Initial(hash, threads), hash) by { InitialInv(l, hash, threads); }
    } else {
      var s := schedule[..|schedule| - 1];
      ExecInv(l, hash, threads, s);
      StepInv(l, Exec(l, Initial(hash, threads), s), schedule[|schedule| - 1], hash);
      StepKeepsThreads(l, Exec(l, Initial(hash, threads), s), schedule[|schedule| - 1]);
    }
  }

  lemma InitialInv(l: Launch, hash: Words8, threads: nat)
    ensures Inv(l, Initial(hash, threads), hash)
  {
  }

  lemma StepKeepsThreads(l: Launch, d: Device, t: nat)
    ensures |Step(l, d, t).pcs| == |d.pcs|
  {
  }

  /** `found` is non-zero exactly when some item of the range wins, and is then
      the nonce of one that does. */
  predicate Finds(l: Launch, threads: nat, found: Word) {
    hide Winner, NonceAt;
    && (found != 0 <==> exists g :: 0 <= g < threads && Winner(l, g))
    && (found != 0 ==> exists g :: 0 <= g < threads && Winner(l, g) && found == NonceAt(l.start, g))
  }

  /** Safety for every interleaving: once all threads are done the result cell
      is non-zero exactly when some non-zero nonce of the range is accepted; it
      then holds such a nonce, and the digest cells hold exactly that nonce's
      digest.  Otherwise the digest cells are untouched. */
  lemma KernelSafety(l: Launch, hash: Words8, threads: nat, schedule: seq<nat>)
    requires AllDone(Exec(l, Initial(hash, threads), schedule))
    ensures var d := Exec(l, Initial(hash, threads), schedule);
      && Finds(l, threads, d.result)
      && (d.result != 0 ==> d.hash == NonceDigest(l.p.cv, l.p.block, d.result))
      && (d.result == 0 ==> d.hash == hash)
  {
    hide Exec, NonceDigest;
    ExecInv(l, hash, threads, schedule);
    var d := Exec(l, Initial(hash, threads), schedule);
    if w :| OwnedBy(l, d, w) {
      assert Winner(l, w) && d.result != 0;
    }
  }

  // ----- progress

  function Weight(pc: Pc): nat {
    match pc
    case Ready => 10
    case AtCas => 9
    case Writing(i) => if i < 8 then 8 - i else 0
    case Done => 0
  }

  function TotalWeight(pcs: seq<Pc>): nat {
    if pcs == [] then 0 else TotalWeight(pcs[..|pcs| - 1]) + Weight(pcs[|pcs| - 1])
  }

  lemma {:induction false} TotalWeightUpdate(pcs: seq<Pc>, t: nat, pc: Pc)
    requires t < |pcs|
    ensures TotalWeight(pcs[t := pc]) == TotalWeight(pcs) - Weight(pcs[t]) + Weight(pc)
    decreases |pcs|
  {
    var n := |pcs| - 1;
    if t == n {
      assert pcs[t := pc][..n] == pcs[..n];
    } else {
      assert pcs[t := pc][..n] == pcs[..n][t := pc];
      TotalWeightUpdate(pcs[..n], t, pc);
    }
  }

  /** Every step of an unfinished thread makes progress, so whatever the
      schedule, at most ten such steps per thread are possible; none is ever
      blocked. */
  lemma StepProgress(l: Launch, d: Device, t: nat, hash: Words8)
    requires Inv(l, d, hash) && t < |d.pcs| && d.pcs[t] != Done
    ensures TotalWeight(Step(l, d, t).pcs) < TotalWeight(d.pcs)
  {
    hide Winner, Digest, NonceAt;
    TotalWeightUpdate(d.pcs, t, Step(l, d, t).pcs[t]);
  }

  /** No step of the schedule was wasted on a finished thread. */
  ghost predicate Productive(l: Launch, d: Device, schedule: seq<nat>) {
    schedule == [] ||
    var s, t := schedule[..|schedule| - 1], schedule[|schedule| - 1];
    Productive(l, d, s) && t < |Exec(l, d, s).pcs| && Exec(l, d, s).pcs[t] != Done
  }

  /** A launch of n threads is over after at most 10 * n productive steps. */
  lemma {:induction false} LaunchTerminates(l: Launch, hash: Words8, threads: nat, schedule: seq<nat>)
    requires Productive(l, Initial(hash, threads), schedule)
    ensures |schedule| + TotalWeight(Exec(l, Initial(hash, threads), schedule).pcs) <= 10 * threads
    decreases |schedule|
  {
    hide Step, Inv;
    if schedule == [] {
      ReadyWeight(threads);
    } else {
      var s := schedule[..|schedule| - 1];
      LaunchTerminates(l, hash, threads, s);
      ExecInv(l, hash, threads, s);
      StepProgress(l, Exec(l, Initial(hash, threads), s), schedule[|schedule| - 1], hash);
    }
  }

  lemma {:induction false} ReadyWeight(threads: nat)
    ensures TotalWeight(seq(threads, _ => Ready)) == 10 * threads
    decreases threads
  {
    if threads > 0 {
      ReadyWeight(threads - 1);
      assert seq(threads, _ => Ready)[..threads - 1] == seq(threads - 1, _ => Ready);
    }
  }

  // ----- launching

  /** `(batch_size + threads - 1) / threads` blocks of 256 threads. */
  function GridThreads(batch: Word): nat {
    U32(batch + 255) / 256 * 256
  }

  /** The grid has a thread for every item exactly when rounding the batch up
      stays inside 32 bits. */
  lemma GridCovers(batch: Word)
    ensures GridThreads(batch) >= batch <==> batch + 255 < TWO32
  {
  }

  lemma ExecNothing(l: Launch, d: Device)
    ensures Exec(l, d, []) == d
  {
  }

  lemma ExecStep(l: Launch, d: Device, schedule: seq<nat>, t: nat)
    ensures Exec(l, d, schedule + [t]) == Step(l, Exec(l, d, schedule), t)
  {
    hide Step;
    assert (schedule + [t])[..|schedule|] == schedule;
  }

  /** A step moves only its own thread. */
  lemma StepOthers(l: Launch, d: Device, t: nat)
    ensures |Step(l, d, t).pcs| == |d.pcs|
    ensures forall u :: 0 <= u < |d.pcs| && u != t ==> Step(l, d, t).pcs[u] == d.pcs[u]
  {
    hide Digest, Winner, NonceAt;
  }

  class Gpu {
    var result: Word
    const hashOut: array<Word>

    constructor ()
      ensures hashOut.Length == 8 && fresh(hashOut)
    {
      hashOut := new Word[8];
    }

    /** Clears the result cell, launches the grid and waits.  The scheduler may
        run any unfinished thread next. */
    method SearchGpu(p: Puzzle, start: Word, batch: Word) returns (found: Word, hash: Words8)
      requires hashOut.Length == 8
      modifies this, hashOut
      ensures found == result
      ensures Finds(Launch(p, start, batch), GridThreads(batch), found)
      ensures found != 0 ==> hash == NonceDigest(p.cv, p.block, found)
    {
      hide NonceDigest, Winner, NonceAt, Inv, Exec, Step, TotalWeight, Finds;
      ghost var before := hashOut[..];
      result := 0;
      var threads := U32(batch + 255) / 256 * 256;
      var pcs := seq(threads, _ => Ready);
      ghost var l := Launch(p, start, batch);
      ghost var schedule: seq<nat> := [];
      ExecNothing(l, Initial(before, threads));
      var unfinished: set<nat> := {};
      for t := 0 to threads
        invariant forall u: nat :: u in unfinished <==> u < t
      {
        unfinished := unfinished + {t};
      }
      while unfinished != {}
        invariant Device(result, hashOut[..], pcs) == Exec(l, Initial(before, threads), schedule)
        invariant |pcs| == threads
        invariant forall u: nat :: u in unfinished <==> u < threads && pcs[u] != Done
        decreases TotalWeight(pcs)
      {
        var t :| t in unfinished;
        ghost var d := Device(result, hashOut[..], pcs);
        ExecInv(l, before, threads, schedule);
        StepProgress(l, d, t, before);
        StepOthers(l, d, t);
        ExecStep(l, Initial(before, threads), schedule, t);
        pcs := RunThread(p, start, batch, pcs, t);
        schedule := schedule + [t];
        if pcs[t] == Done { unfinished := unfinished - {t}; }
      }
      KernelSafety(l, before, threads, schedule);
      found := result;
      hash := hashOut[..];
    }

    /** One step of thread t: a private computation, one atomic compare-and-swap
        or one word written. */
    method RunThread(p: Puzzle, start: Word, count: Word, pcs: seq<Pc>, t: nat) returns (next: seq<Pc>)
      requires hashOut.Length == 8 && t < |pcs| && pcs[t] != Done
      modifies this, hashOut
      ensures Device(result, hashOut[..], next)
           == Step(Launch(p, start, count), Device(old(result), old(hashOut[..]), pcs), t)
    {
      hide NonceDigest, Hit;
      var nonce := U32(start + t);
      match pcs[t] {
        case Ready =>
          var accept := false;
          if t < count && nonce != 0 {
            var tmp := new Word[8];
            accept := TestNonce(p, nonce, tmp);
          }
          next := pcs[t := if accept then AtCas else Done];
        case AtCas =>
          if result == 0 {
            result := nonce;
            next := pcs[t := Writing(0)];
          } else {
            next := pcs[t := Done];
          }
        case Writing(i) =>
          next := pcs;
          if i < 8 {
            hashOut[i] := NonceDigest(p.cv, p.block, nonce)[i];
            next := pcs[t := if i == 7 then Done else Writing(i + 1)];
          }
      }
    }
  }
}
