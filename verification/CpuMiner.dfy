/** The CPU miner's enumeration of (extra nonce 2, nonce) pairs, its verdicts
    on them, and why no two attempts of a job repeat each other's work. */
module CpuMiner {
  import opened Words
  import opened Blake3
  import opened Compression
  import opened Targets
  import opened Headers
  import Hex

  /** The proof-of-work hash of a header, as the number that is compared. */
  function HashInt(h: Header): nat {
    BytesInt(WordBytes(Hash256(h)))
  }

  /** The pool's judgement of a rebuilt header. */
  function Judge(h: Header, shareTarget: int, compact: Word -> int): Decision {
    hide HashInt, WordAt;
    EvaluateSubmit(HashInt(h), shareTarget, compact(WordAt(h, 116)))
  }

  /** The miner's judgement of an attempt at a job. */
  function MinerVerdict(job: Job, h: Header): Decision {
    EvaluateSubmit(HashInt(h), BigEndianInt(job.shareTargetBE), BigEndianInt(job.blockTargetBE))
  }

  /** The job a miner with extra nonce 1 `en1` holds for the pool's work `w`. */
  ghost predicate JobFor(job: Job, w: Work, en1: Word, shareTarget: nat, compact: Word -> int)
    requires shareTarget < TWO256 && -TWO256 < compact(WordAt(w.data, 116)) < TWO256
  {
    && Decodes(SendWork(w), Hex.Encode(StoreWord(en1)))
    && job.jobID == w.jobID
    && job.header == JobHeader(SendWork(w), Hex.Encode(StoreWord(en1)))
    && job.ntime == w.data[136..140]
    && job.shareTargetBE == ToTargetBytes(shareTarget)
    && job.blockTargetBE == ToTargetBytes(compact(WordAt(w.data, 116)))
  }

  /** A miner that is notified of work `w` builds that job. */
  method TakeNotify(w: Work, en1: Word, shareTarget: nat, compact: Word -> int) returns (job: Job)
    requires shareTarget < TWO256 && -TWO256 < compact(WordAt(w.data, 116)) < TWO256
    ensures JobFor(job, w, en1, shareTarget, compact)
  {
    hide ToTargetBytes, StoreWord, Hex.Encode, Hex.Decode, JobHeader, Decodes, WordAt, Field;
    NotifyDecodes(w, en1);
    SameWord(w.data, 116);
    var built := BuildJob(SendWork(w), Hex.Encode(StoreWord(en1)), shareTarget, compact);
    job := built.value;
  }

  lemma SameWord(data: Blob, at: nat)
    requires at + 4 <= 192
    ensures WordAt(data[at..at + 4], 0) == WordAt(data, at)
  {
    hide LoadWord;
  }

  /** End to end: at the same share target, miner and pool judge every attempt
      alike, the pool's header being rebuilt from the submitted fields; the one
      exception is a share at or below the size of a negative block target. */
  lemma MinerAndPoolAgree(job: Job, w: Work, en1: Word, en2: seq<Byte>, nonce: Word,
                          shareTarget: nat, compact: Word -> int)
    requires |en2| == 8 && shareTarget < TWO256
    requires -TWO256 < compact(WordAt(w.data, 116)) < TWO256
    requires JobFor(job, w, en1, shareTarget, compact)
    ensures var h := Attempt(job.header, en2, nonce);
      && h == Solved(w.data, StoreWord(en1), en2, job.ntime, StoreWord(nonce))
      && var block := compact(WordAt(w.data, 116));
         MinerVerdict(job, h) == Judge(h, shareTarget, compact)
         <==> block >= 0 || HashInt(h) > shareTarget || HashInt(h) > -block
    ensures var h := Attempt(job.header, en2, nonce);
      IsShare(job, h) <==> Judge(h, shareTarget, compact) != Rejected
  {
    hide Hash256, ToTargetBytes, WordBytes, StoreWord, Hex.Encode, JobHeader, Decodes;
    NotifyDecodes(w, en1);
    MinerAndPoolHashTheSameHeader(w, en1, en2, nonce);
    var h := Attempt(job.header, en2, nonce);
    assert WordAt(h, 116) == WordAt(w.data, 116) by {
      assert h[116] == w.data[116] && h[117] == w.data[117] && h[118] == w.data[118] && h[119] == w.data[119];
    }
    VerdictsAgree(Hash256(h), shareTarget, compact(WordAt(w.data, 116)));
    TargetBytesInt(shareTarget);
  }

  // ----- enumeration

  /** Extra nonce 2 of a thread's k-th attempt: the thread's residue class,
      advanced once per exhausted nonce space, in 64-bit arithmetic. */
  function ExtraNonce2(idx: nat, threads: nat, k: nat): Long {
    U64(idx + threads * (k / 0x1_0000_0000))
  }

  function AttemptHeader(h: Header, idx: nat, threads: nat, k: nat): Header {
    Attempt(h, StoreU64(ExtraNonce2(idx, threads, k)), k % 0x1_0000_0000)
  }

  datatype Share = Share(extraNonce2: seq<Byte>, nonce: Word)

  predicate IsShare(job: Job, h: Header) {
    MinerVerdict(job, h) != Rejected
  }

  /** What a thread submits for its k-th attempt. */
  function ShareAt(job: Job, idx: nat, threads: nat, k: nat): seq<Share> {
    hide MinerVerdict, ExtraNonce2, AttemptHeader;
    if IsShare(job, AttemptHeader(job.header, idx, threads, k))
    then [Share(StoreU64(ExtraNonce2(idx, threads, k)), k % 0x1_0000_0000)] else []
  }

  /** The shares among a thread's first n attempts. */
  function Shares(job: Job, idx: nat, threads: nat, n: nat): seq<Share> {
    if n == 0 then [] else Shares(job, idx, threads, n - 1) + ShareAt(job, idx, threads, n - 1)
  }

  /** What the miner controls in a header: extra nonce 2 in bytes 148 to 155 and
      the nonce in bytes 140 to 143, both little endian.  The rest is the job's. */
  predicate Carries(h: Header, bytes: Header, extraNonce2: nat, nonce: nat) {
    && BytesInt(bytes[148..156]) == extraNonce2 && BytesInt(bytes[140..144]) == nonce
    && bytes[..140] == h[..140] && bytes[144..148] == h[144..148] && bytes[156..] == h[156..]
  }

  lemma AttemptCarries(h: Header, x: Long, nonce: Word)
    ensures Carries(h, Attempt(h, StoreU64(x), nonce), x, nonce)
  {
    hide StoreU64, StoreWord, BytesInt;
    var a := Attempt(h, StoreU64(x), nonce);
    assert a[148..156] == StoreU64(x) && a[140..144] == StoreWord(nonce);
    assert a[..140] == h[..140] && a[144..148] == h[144..148] && a[156..] == h[156..];
    StoreU64Int(x);
    StoreWordInt(nonce);
  }

  /** Attempt k of thread idx: the nonce counts attempts, extra nonce 2 the
      nonce spaces used up, from idx in steps of the number of threads. */
  predicate CarriesAttempt(h: Header, bytes: Header, idx: nat, threads: nat, k: nat) {
    hide Carries;
    Carries(h, bytes, (idx + threads * (k / 0x1_0000_0000)) % 0x1_0000_0000_0000_0000, k % 0x1_0000_0000)
  }

  lemma AttemptHeaderCarries(h: Header, idx: nat, threads: nat, k: nat)
    ensures CarriesAttempt(h, AttemptHeader(h, idx, threads, k), idx, threads, k)
  {
    hide Attempt, Carries;
    AttemptCarries(h, ExtraNonce2(idx, threads, k), k % 0x1_0000_0000);
  }

  /** The k-th of these headers is attempt k. */
  ghost predicate AreAttempts(h: Header, idx: nat, threads: nat, tried: seq<Header>) {
    hide AttemptHeader, CarriesAttempt;
    forall k :: 0 <= k < |tried| ==>
      tried[k] == AttemptHeader(h, idx, threads, k) && CarriesAttempt(h, tried[k], idx, threads, k)
  }

  /** Submission s is that of attempt k: it names the attempt's extra nonce 2 and
      nonce, and the header they give meets the share target. */
  ghost predicate SubmittedAt(job: Job, idx: nat, threads: nat, k: nat, s: Share) {
    && |s.extraNonce2| == 8 && s.nonce == k % 0x1_0000_0000
    && BytesInt(s.extraNonce2) == (idx + threads * (k / 0x1_0000_0000)) % 0x1_0000_0000_0000_0000
    && HashInt(Attempt(job.header, s.extraNonce2, s.nonce)) <= BigEndianInt(job.shareTargetBE)
  }

  lemma ShareAtIff(job: Job, idx: nat, threads: nat, k: nat, s: Share)
    ensures s in ShareAt(job, idx, threads, k) <==> SubmittedAt(job, idx, threads, k, s)
  {
    hide HashInt, Attempt, BigEndianInt, BytesInt, StoreU64;
    StoreU64Int(ExtraNonce2(idx, threads, k));
    if |s.extraNonce2| == 8 && BytesInt(s.extraNonce2) == ExtraNonce2(idx, threads, k) {
      OnlyStoreU64(s.extraNonce2, ExtraNonce2(idx, threads, k));
    }
  }

  /** A thread submits exactly the shares among its first n attempts. */
  lemma {:induction false} SharesIff(job: Job, idx: nat, threads: nat, n: nat, s: Share)
    ensures s in Shares(job, idx, threads, n) <==> exists k: nat :: k < n && SubmittedAt(job, idx, threads, k, s)
    decreases n
  {
    hide SubmittedAt, ShareAt;
    if n > 0 {
      SharesIff(job, idx, threads, n - 1, s);
      ShareAtIff(job, idx, threads, n - 1, s);
    }
  }

  lemma NextExtraNonce2(idx: nat, threads: nat, k: nat)
    ensures ExtraNonce2(idx, threads, k + 1) ==
      if (k + 1) % 0x1_0000_0000 == 0 then U64(ExtraNonce2(idx, threads, k) as int + threads)
      else ExtraNonce2(idx, threads, k)
  {
    hide U64;
    NextQuotient(k);
    var q := k / 0x1_0000_0000;
    assert threads * (q + 1) == threads * q + threads;
    U64Sum(idx + threads * q, threads);
  }

  lemma NextQuotient(k: nat)
    ensures (k + 1) / 0x1_0000_0000 == k / 0x1_0000_0000 + (if (k + 1) % 0x1_0000_0000 == 0 then 1 else 0)
  {
  }

  lemma NextNonce(k: nat)
    ensures U32(k % 0x1_0000_0000 + 1) == (k + 1) % 0x1_0000_0000
  {
  }

  lemma AttemptBytes(h: Header, en2: seq<Byte>, nonce: Word, bytes: Header)
    requires |en2| == 8
    requires forall i :: 0 <= i < 180 && !(140 <= i < 144) && !(148 <= i < 156) ==> bytes[i] == h[i]
    requires bytes[140..144] == StoreWord(nonce) && bytes[148..156] == en2
    ensures bytes == Attempt(h, en2, nonce)
  {
    hide StoreWord;
    forall i | 0 <= i < 180 ensures bytes[i] == AttemptByte(h, en2, nonce, i) {
      if 140 <= i < 144 { assert bytes[i] == bytes[140..144][i - 140]; }
      if 148 <= i < 156 { assert bytes[i] == bytes[148..156][i - 148]; }
    }
  }

  class Miner {
    var hashes: Long
    var submitted: seq<Share>

    /** One attempt: the header buffer takes the nonce and extra nonce 2, is
        hashed, counted and classified. */
    method TryAttempt(job: Job, header: array<Byte>, extraNonce2: seq<Byte>, nonce: Word)
      returns (isShare: bool, isBlock: bool)
      requires header.Length == 180 && |extraNonce2| == 8
      requires forall i :: 0 <= i < 180 && !(140 <= i < 144) && !(148 <= i < 156) ==> header[i] == job.header[i]
      modifies `hashes, header
      ensures header[..] == Attempt(job.header, extraNonce2, nonce)
      ensures hashes == U64(old(hashes) as int + 1)
      ensures Verdict(isShare, isBlock) == MinerVerdict(job, header[..])
    {
      hide Hash256, StoreWord, WordBytes, BytesInt, BigEndianInt, Attempt;
      CopyBytes(header, 140, 144, StoreWord(nonce));
      CopyBytes(header, 148, 156, extraNonce2);
      AttemptBytes(job.header, extraNonce2, nonce, header[..]);
      var sum := WordBytes(Hash256(header[..]));
      hashes := U64(hashes as int + 1);
      isShare, isBlock := ClassifySolution(sum, job.shareTargetBE, job.blockTargetBE);
    }

    /** One thread's search of a job, until the job generation is seen to
        change before attempt number `attempts`.  A share that is a block is
        submitted like any other and does not end the search. */
    method MineJob(job: Job, idx: nat, threads: nat, attempts: nat) returns (ghost tried: seq<Header>)
      requires idx < threads < TWO64
      modifies this
      ensures hashes == U64(old(hashes) as int + attempts)
      ensures submitted == old(submitted) + Shares(job, idx, threads, attempts)
      ensures |tried| == attempts
      ensures AreAttempts(job.header, idx, threads, tried)
    {
      hide StoreU64, LoadU64, ExtraNonce2, Attempt, MinerVerdict, U64, U32, Shares, AttemptHeader, CarriesAttempt;
      var header := new Byte[180];
      CopyBytes(header, 0, 180, job.header);
      var extraNonce2 := StoreU64(idx);
      ghost var value := idx;
      ExtraNonce2Exact(idx, threads, 0);
      U64Small(hashes);
      var nonce: Word := 0;
      tried := [];
      NoShares(job, idx, threads);
      assert submitted == old(submitted) + [];
      for k := 0 to attempts
        invariant nonce == k % 0x1_0000_0000
        invariant value == ExtraNonce2(idx, threads, k) && extraNonce2 == StoreU64(value)
        invariant forall i :: 0 <= i < 180 && !(140 <= i < 144) && !(148 <= i < 156) ==> header[i] == job.header[i]
        invariant |tried| == k
        invariant forall j :: 0 <= j < k ==> tried[j] == AttemptHeader(job.header, idx, threads, j)
        invariant submitted == old(submitted) + Shares(job, idx, threads, k)
        invariant hashes == U64(old(hashes) as int + k)
      {
        var isShare, isBlock := TryAttempt(job, header, extraNonce2, nonce);
        AttemptFacts(job, idx, threads, k, extraNonce2, nonce);
        tried := tried + [header[..]];
        AttemptKeeps(job.header, extraNonce2, nonce, header[..]);
        if isShare {
          submitted := submitted + [Share(extraNonce2, nonce)];
        }
        nonce := U32(nonce as int + 1);
        NextNonce(k);
        U64Sum(old(hashes) as int + k, 1);
        NextExtraNonce2(idx, threads, k);
        if nonce == 0 {
          LoadStoreU64(value);
          value := U64(value as int + threads);
          extraNonce2 := AddU64(extraNonce2, threads);
        }
      }
      forall k | 0 <= k < attempts ensures CarriesAttempt(job.header, tried[k], idx, threads, k) {
        AttemptHeaderCarries(job.header, idx, threads, k);
      }
    }
  }

  /** Reading eight little-endian bytes. */
  function LoadU64(b: seq<Byte>): Long
    requires |b| == 8
  {
    WordAt(b, 0) + 0x1_0000_0000 * WordAt(b, 4)
  }

  lemma LoadStoreU64(x: Long)
    ensures LoadU64(StoreU64(x)) == x
  {
    hide LoadWord;
    var lo, hi := StoreWord(x % 0x1_0000_0000), StoreWord(x / 0x1_0000_0000);
    var b := StoreU64(x);
    assert b[0] == lo[0] && b[1] == lo[1] && b[2] == lo[2] && b[3] == lo[3];
    assert b[4] == hi[0] && b[5] == hi[1] && b[6] == hi[2] && b[7] == hi[3];
  }

  /** Reading the counter bytes, adding and writing them back. */
  method AddU64(b: seq<Byte>, n: nat) returns (c: seq<Byte>)
    requires |b| == 8
    ensures c == StoreU64(U64(LoadU64(b) as int + n))
  {
    c := StoreU64(U64(LoadU64(b) as int + n));
  }

  lemma AttemptKeeps(h: Header, en2: seq<Byte>, nonce: Word, bytes: Header)
    requires |en2| == 8 && bytes == Attempt(h, en2, nonce)
    ensures forall i :: 0 <= i < 180 && !(140 <= i < 144) && !(148 <= i < 156) ==> bytes[i] == h[i]
  {
  }

  lemma NoShares(job: Job, idx: nat, threads: nat)
    ensures Shares(job, idx, threads, 0) == []
  {
  }

  /** One attempt's part of the specification functions. */
  lemma AttemptFacts(job: Job, idx: nat, threads: nat, k: nat, en2: seq<Byte>, nonce: Word)
    requires nonce == k % 0x1_0000_0000 && en2 == StoreU64(ExtraNonce2(idx, threads, k))
    ensures AttemptHeader(job.header, idx, threads, k) == Attempt(job.header, en2, nonce)
    ensures Shares(job, idx, threads, k + 1) == Shares(job, idx, threads, k)
      + (if MinerVerdict(job, Attempt(job.header, en2, nonce)) == Rejected then [] else [Share(en2, nonce)])
  {
    hide MinerVerdict, StoreU64, ExtraNonce2, Attempt;
  }

  // ----- no duplicate work

  /** The header bytes determine the miner-controlled values. */
  lemma HeaderDetermines(h1: Header, h2: Header, x1: Long, x2: Long, n1: Word, n2: Word)
    requires Attempt(h1, StoreU64(x1), n1) == Attempt(h2, StoreU64(x2), n2)
    ensures x1 == x2 && n1 == n2 && h1[144..148] == h2[144..148]
  {
    hide StoreU64, StoreWord;
    var a, b := Attempt(h1, StoreU64(x1), n1), Attempt(h2, StoreU64(x2), n2);
    assert a[148..156] == StoreU64(x1) && b[148..156] == StoreU64(x2);
    assert a[140..144] == StoreWord(n1) && b[140..144] == StoreWord(n2);
    assert a[144..148] == h1[144..148] && b[144..148] == h2[144..148];
    StoreU64Injective(x1, x2);
    StoreWordInjective(n1, n2);
  }

  /** Two attempts of one connection repeat the same header. */
  ghost predicate Repeats(h: Header, threads: nat, i: nat, k: nat, j: nat, l: nat) {
    AttemptHeader(h, i, threads, k) == AttemptHeader(h, j, threads, l)
  }

  lemma ResidueUnique(i: nat, p: nat, j: nat, q: nat, threads: nat)
    requires i < threads && j < threads && i + threads * p == j + threads * q
    ensures i == j && p == q
  {
    DivUnique(i + threads * p, threads, p, i);
    DivUnique(i + threads * p, threads, q, j);
  }

  lemma ExtraNonce2Exact(idx: nat, threads: nat, k: nat)
    requires idx + threads * (k / TWO32) < TWO64
    ensures ExtraNonce2(idx, threads, k) == idx + threads * (k / TWO32)
  {
  }

  lemma RepeatsOnlyItself(h: Header, threads: nat, i: nat, k: nat, j: nat, l: nat)
    requires i < threads && j < threads && Repeats(h, threads, i, k, j, l)
    requires i + threads * (k / TWO32) < TWO64 && j + threads * (l / TWO32) < TWO64
    ensures i == j && k == l
  {
    hide Attempt, ExtraNonce2;
    HeaderDetermines(h, h, ExtraNonce2(i, threads, k), ExtraNonce2(j, threads, l), k % TWO32, l % TWO32);
    CounterUnique(i, k, j, l, threads);
  }

  /** Extra nonce 2 and nonce name the thread and the attempt. */
  lemma CounterUnique(i: nat, k: nat, j: nat, l: nat, threads: nat)
    requires i < threads && j < threads
    requires i + threads * (k / TWO32) < TWO64 && j + threads * (l / TWO32) < TWO64
    requires ExtraNonce2(i, threads, k) == ExtraNonce2(j, threads, l) && k % TWO32 == l % TWO32
    ensures i == j && k == l
  {
    hide ExtraNonce2;
    ExtraNonce2Exact(i, threads, k);
    ExtraNonce2Exact(j, threads, l);
    assert k == (k / TWO32) * TWO32 + k % TWO32 && l == (l / TWO32) * TWO32 + l % TWO32;
    ResidueUnique(i, k / TWO32, j, l / TWO32, threads);
  }

  /** The number of extra nonce 2 steps n attempts take. */
  function Steps(n: nat): nat {
    if n == 0 then 0 else (n - 1) / TWO32 + 1
  }

  lemma StepsFit(threads: nat, n: nat, i: nat, k: nat)
    requires i < threads && k < n && threads * Steps(n) <= TWO64
    ensures i + threads * (k / TWO32) < TWO64
  {
    var q := k / TWO32;
    assert q + 1 <= Steps(n);
    MulMono(q + 1, Steps(n), threads);
    assert (q + 1) * threads == threads * q + threads;
    assert Steps(n) * threads == threads * Steps(n);
  }

  /** Past 2^64 the residue classes wrap into each other: thread 0's very first
      attempt is repeated by another one in range. */
  lemma WrapRepeats(h: Header, threads: nat, n: nat)
    requires 0 < threads < TWO64 && threads * Steps(n) > TWO64
    ensures var j, l := TWO64 % threads, (TWO64 / threads) * TWO32;
      j < threads && 0 < l < n && Repeats(h, threads, 0, 0, j, l)
  {
    hide Attempt;
    var q := TWO64 / threads;
    assert TWO64 == q * threads + TWO64 % threads;
    assert q < Steps(n) by {
      assert Steps(n) * threads == threads * Steps(n);
      MulCancel(q, Steps(n), threads);
    }
    QuotientPositive(TWO64, threads);
    var l := q * TWO32;
    assert l / TWO32 == q && l % TWO32 == 0;
    assert threads * q == q * threads && threads * 0 == 0;
    assert ExtraNonce2(TWO64 % threads, threads, l) == 0;
    assert ExtraNonce2(0, threads, 0) == 0;
  }

  ghost predicate NeverRepeats(h: Header, threads: nat, n: nat) {
    forall i, k, j, l | 0 <= i < threads && 0 <= k < n && 0 <= j < threads && 0 <= l < n
      && Repeats(h, threads, i, k, j, l) :: i == j && k == l
  }

  /** Exactly when the threads of one connection never hash the same header
      twice in n attempts each: while threads * ceil(n / 2^32) is at most 2^64. */
  lemma NoRepeatsIff(h: Header, threads: nat, n: nat)
    requires 0 < threads < TWO64
    ensures NeverRepeats(h, threads, n) <==> threads * Steps(n) <= TWO64
  {
    hide Repeats, AttemptHeader, Steps;
    if threads * Steps(n) <= TWO64 {
      forall i, k, j, l | 0 <= i < threads && 0 <= k < n && 0 <= j < threads && 0 <= l < n
        && Repeats(h, threads, i, k, j, l)
        ensures i == j && k == l
      {
        StepsFit(threads, n, i, k);
        StepsFit(threads, n, j, l);
        RepeatsOnlyItself(h, threads, i, k, j, l);
      }
    } else {
      WrapRepeats(h, threads, n);
    }
  }

  /** The extra nonce 1 given to the n-th connection, counting from 1. */
  function AssignedNonce1(n: nat): Word {
    U32(n)
  }

  /** The header a miner with extra nonce 1 `en1` hashes for work `w`. */
  function MinedHeader(w: Work, en1: Word, x: Long, nonce: Word): Header {
    hide JobHeader, SendWork, StoreWord, StoreU64, Hex.Encode;
    NotifyDecodes(w, en1);
    Attempt(JobHeader(SendWork(w), Hex.Encode(StoreWord(en1))), StoreU64(x), nonce)
  }

  lemma MinedHeaderDetermines(w: Work, a: Word, b: Word, x: Long, y: Long, m: Word, n: Word)
    ensures MinedHeader(w, a, x, m) == MinedHeader(w, b, y, n) <==> a == b && x == y && m == n
  {
    hide Attempt, StoreWord, StoreU64, Hex.Encode, JobHeader, SendWork, Decodes;
    NotifyDecodes(w, a);
    NotifyDecodes(w, b);
    var h := JobHeader(SendWork(w), Hex.Encode(StoreWord(a)));
    var g := JobHeader(SendWork(w), Hex.Encode(StoreWord(b)));
    JobHeaderNonce1(w, a);
    JobHeaderNonce1(w, b);
    if MinedHeader(w, a, x, m) == MinedHeader(w, b, y, n) {
      HeaderDetermines(h, g, x, y, m, n);
      StoreWordInjective(a, b);
    }
  }

  /** No duplicate work over connections: the c-th and the d-th connection hash
      a common header only if their numbers agree modulo 2^32, and then only
      for the same extra nonce 2 and nonce. */
  lemma ConnectionsAreDisjoint(w: Work, c: nat, d: nat, x: Long, y: Long, m: Word, n: Word)
    ensures MinedHeader(w, AssignedNonce1(c), x, m) == MinedHeader(w, AssignedNonce1(d), y, n)
      <==> c % TWO32 == d % TWO32 && x == y && m == n
  {
    hide MinedHeader;
    MinedHeaderDetermines(w, AssignedNonce1(c), AssignedNonce1(d), x, y, m, n);
  }

  /** Attempt k of thread i of the c-th connection. */
  function MinerAttempt(w: Work, c: nat, threads: nat, i: nat, k: nat): Header {
    hide MinedHeader;
    MinedHeader(w, AssignedNonce1(c), ExtraNonce2(i, threads, k), k % 0x1_0000_0000)
  }

  /** It is what MineJob tries for the job built from the notification. */
  lemma TriedIsMinerAttempt(job: Job, w: Work, c: nat, shareTarget: nat, compact: Word -> int, threads: nat, i: nat, k: nat)
    requires shareTarget < TWO256 && -TWO256 < compact(WordAt(w.data, 116)) < TWO256
    requires JobFor(job, w, AssignedNonce1(c), shareTarget, compact)
    ensures AttemptHeader(job.header, i, threads, k) == MinerAttempt(w, c, threads, i, k)
  {
    hide Attempt, ExtraNonce2, StoreWord, StoreU64, Hex.Encode, JobHeader, SendWork, Decodes, ToTargetBytes;
  }

  /** No duplicate work, whole: over all connections, each with its own number of
      threads, and over all attempts, two equal headers are the same attempt of
      the same thread, unless the connections were given the same extra nonce 1
      or a thread's extra nonce 2 wraps. */
  lemma NoDuplicateWork(w: Work, threads: nat -> nat, c: nat, i: nat, k: nat, d: nat, j: nat, l: nat)
    requires (c % TWO32 == d % TWO32 ==> c == d) && i < threads(c) && j < threads(d)
    requires i + threads(c) * (k / TWO32) < TWO64 && j + threads(d) * (l / TWO32) < TWO64
    requires MinerAttempt(w, c, threads(c), i, k) == MinerAttempt(w, d, threads(d), j, l)
    ensures c == d && i == j && k == l
  {
    hide MinedHeader, ExtraNonce2;
    ConnectionsAreDisjoint(w, c, d, ExtraNonce2(i, threads(c), k), ExtraNonce2(j, threads(d), l), k % TWO32, l % TWO32);
    CounterUnique(i, k, j, l, threads(c));
  }

  /** Attempt k of thread i of connection c is made: connections 1 to m, with
      threads(c) threads and n(c) attempts a thread. */
  predicate Made(m: nat, threads: nat -> nat, n: nat -> nat, c: nat, i: nat, k: nat) {
    1 <= c <= m && i < threads(c) && k < n(c)
  }

  ghost predicate DuplicateFree(w: Work, m: nat, threads: nat -> nat, n: nat -> nat) {
    forall c: nat, i: nat, k: nat, d: nat, j: nat, l: nat | Made(m, threads, n, c, i, k) && Made(m, threads, n, d, j, l)
      && MinerAttempt(w, c, threads(c), i, k) == MinerAttempt(w, d, threads(d), j, l) :: c == d && i == j && k == l
  }

  /** No thread's extra nonce 2 wraps. */
  predicate NoneWraps(m: nat, threads: nat -> nat, n: nat -> nat) {
    forall c :: 1 <= c <= m ==> threads(c) * Steps(n(c)) <= TWO64
  }

  /** Connections c and d hash something and were given the same extra nonce 1. */
  predicate Clash(m: nat, threads: nat -> nat, n: nat -> nat, c: nat, d: nat) {
    Made(m, threads, n, c, 0, 0) && Made(m, threads, n, d, 0, 0) && c % TWO32 == d % TWO32
  }

  /** No two do; so it is, for instance, while at most 2^32 connections are made. */
  ghost predicate NoneShared(m: nat, threads: nat -> nat, n: nat -> nat) {
    forall c, d :: Clash(m, threads, n, c, d) ==> c == d
  }

  /** Exactly when no header is hashed twice anywhere. */
  lemma DuplicateFreeIff(w: Work, m: nat, threads: nat -> nat, n: nat -> nat)
    requires forall c :: threads(c) < TWO64
    ensures DuplicateFree(w, m, threads, n) <==> NoneWraps(m, threads, n) && NoneShared(m, threads, n)
  {
    hide MinerAttempt, Steps;
    if NoneWraps(m, threads, n) && NoneShared(m, threads, n) {
      forall c: nat, i: nat, k: nat, d: nat, j: nat, l: nat | Made(m, threads, n, c, i, k) && Made(m, threads, n, d, j, l)
        && MinerAttempt(w, c, threads(c), i, k) == MinerAttempt(w, d, threads(d), j, l)
        ensures c == d && i == j && k == l
      {
        StepsFit(threads(c), n(c), i, k);
        StepsFit(threads(d), n(d), j, l);
        assert c % TWO32 == d % TWO32 ==> Clash(m, threads, n, c, d);
        NoDuplicateWork(w, threads, c, i, k, d, j, l);
      }
    }
    if c :| 1 <= c <= m && threads(c) * Steps(n(c)) > TWO64 {
      WrapIsDuplicate(w, m, threads, n, c);
    }
    if c: nat, d: nat :| Clash(m, threads, n, c, d) && c != d {
      SameNonce1(w, threads(c), threads(d), c, d);
    }
  }

  /** Connections with the same extra nonce 1 start with the same header. */
  lemma SameNonce1(w: Work, s: nat, t: nat, c: nat, d: nat)
    requires c % TWO32 == d % TWO32
    ensures MinerAttempt(w, c, s, 0, 0) == MinerAttempt(w, d, t, 0, 0)
  {
    hide MinedHeader, ExtraNonce2;
    ExtraNonce2Exact(0, s, 0);
    ExtraNonce2Exact(0, t, 0);
    ConnectionsAreDisjoint(w, c, d, ExtraNonce2(0, s, 0), ExtraNonce2(0, t, 0), 0, 0);
  }

  lemma WrapIsDuplicate(w: Work, m: nat, threads: nat -> nat, n: nat -> nat, c: nat)
    requires 1 <= c <= m && threads(c) < TWO64 && threads(c) * Steps(n(c)) > TWO64
    ensures !DuplicateFree(w, m, threads, n)
  {
    hide MinerAttempt, Steps;
    PositiveFactor(threads(c), Steps(n(c)));
    PositiveFactor(Steps(n(c)), threads(c));
    WrapDuplicates(w, c, threads(c), n(c));
    var j, l := TWO64 % threads(c), (TWO64 / threads(c)) * TWO32;
    assert Made(m, threads, n, c, 0, 0) && Made(m, threads, n, c, j, l);
  }

  lemma WrapDuplicates(w: Work, c: nat, threads: nat, n: nat)
    requires 0 < threads < TWO64 && threads * Steps(n) > TWO64
    ensures var j, l := TWO64 % threads, (TWO64 / threads) * TWO32;
      j < threads && 0 < l < n && MinerAttempt(w, c, threads, 0, 0) == MinerAttempt(w, c, threads, j, l)
  {
    hide Attempt, ExtraNonce2, StoreWord, StoreU64, Hex.Encode, JobHeader, SendWork, Decodes;
    NotifyDecodes(w, AssignedNonce1(c));
    WrapRepeats(JobHeader(SendWork(w), Hex.Encode(StoreWord(AssignedNonce1(c)))), threads, n);
  }

  lemma JobHeaderNonce1(w: Work, en1: Word)
    requires Decodes(SendWork(w), Hex.Encode(StoreWord(en1)))
    ensures JobHeader(SendWork(w), Hex.Encode(StoreWord(en1)))[144..148] == StoreWord(en1)
  {
    hide Hex.Encode, Hex.Decode, StoreWord, SendWork, Field;
    NotifyDecodes(w, en1);
  }
}
