/** The GPU miner's loop over one job: it sends work, consumes whatever messages
    arrive, counts hashes and submits the solutions that hold up. */
module GpuMiner {
  import opened Words
  import opened Blake3
  import opened Compression
  import opened Targets
  import opened Headers
  import opened CpuMiner
  import HostSweep
  import WorkMessage

  /** A message taken from the host's channels. */
  datatype Event =
    | Progress(checked: Long)
    | Searched(checked: Long)
    | Solution(nonce: Word, checked: Long)

  function SolvedHeader(job: Job, sweep: nat, nonce: Word): Header {
    Attempt(job.header, StoreU64(U64(sweep)), nonce)
  }

  // ----- what a run adds up to

  function Max(a: nat, b: nat): nat {
    if a < b then b else a
  }

  function MaxChecked(es: seq<Event>): nat {
    if es == [] then 0 else Max(es[0].checked, MaxChecked(es[1..]))
  }

  /** The end of the first sweep: just past its searched or solution message. */
  function SweepEnd(es: seq<Event>): (n: nat)
    ensures n <= |es| && (es != [] ==> n > 0)
  {
    if es == [] then 0
    else if !es[0].Progress? then 1
    else 1 + SweepEnd(es[1..])
  }

  /** Sweep by sweep, the highest count reported. */
  function SumOfMaxima(es: seq<Event>): nat
    decreases |es|
  {
    if es == [] then 0
    else MaxChecked(es[..SweepEnd(es)]) + SumOfMaxima(es[SweepEnd(es)..])
  }

  /** Sweeps completed by these messages. */
  function Sweeps(es: seq<Event>): nat {
    if es == [] then 0 else Sweeps(es[..|es| - 1]) + (if es[|es| - 1].Progress? then 0 else 1)
  }

  /** The submissions, in order, when the first message belongs to `sweep`. */
  function SharesFrom(job: Job, es: seq<Event>, sweep: nat): seq<Share> {
    hide MinerVerdict, SolvedHeader;
    if es == [] then []
    else match es[0]
      case Progress(_) => SharesFrom(job, es[1..], sweep)
      case Searched(_) => SharesFrom(job, es[1..], sweep + 1)
      case Solution(nonce, _) =>
        (if IsShare(job, SolvedHeader(job, sweep, nonce)) then [Share(StoreU64(U64(sweep)), nonce)] else [])
        + SharesFrom(job, es[1..], sweep + 1)
  }

  /** The running count: each message adds what it exceeds the last by. */
  function Credit(es: seq<Event>, last: nat): nat {
    if es == [] then 0
    else
      var gain := if es[0].checked > last then es[0].checked - last else 0;
      if es[0].Progress? then gain + Credit(es[1..], last + gain) else gain + Credit(es[1..], 0)
  }

  lemma {:induction false} CreditOfSweep(es: seq<Event>, last: nat)
    requires es != []
    ensures var n := SweepEnd(es);
      Credit(es, last) == Max(last, MaxChecked(es[..n])) - last + Credit(es[n..], 0)
    decreases |es|
  {
    var n := SweepEnd(es);
    assert es[..n][1..] == es[1..][..n - 1] && es[n..] == es[1..][n - 1..];
    if es[0].Progress? && |es| > 1 {
      var next := Max(last, es[0].checked);
      CreditOfSweep(es[1..], next);
    }
  }

  /** Counting increments credits each sweep with exactly the highest count
      among its messages, whichever arrive and in whatever order. */
  lemma {:induction false} CreditIsSumOfMaxima(es: seq<Event>)
    ensures Credit(es, 0) == SumOfMaxima(es)
    decreases |es|
  {
    if es != [] {
      CreditOfSweep(es, 0);
      CreditIsSumOfMaxima(es[SweepEnd(es)..]);
    }
  }

  /** A finished sweep counts 2^32 hashes even if progress lines are dropped. */
  lemma {:induction false} FinishedSweep(es: seq<Event>, total: Long)
    requires es != [] && SweepEnd(es) == |es| && es[|es| - 1] == Searched(total)
    requires forall i :: 0 <= i < |es| ==> es[i].checked <= total
    ensures SumOfMaxima(es) == total
    decreases |es|
  {
    MaxIsLast(es, total);
    assert es[..|es|] == es && es[|es|..] == [];
  }

  lemma {:induction false} MaxIsLast(es: seq<Event>, total: Long)
    requires es != [] && es[|es| - 1].checked == total
    requires forall i :: 0 <= i < |es| ==> es[i].checked <= total
    ensures MaxChecked(es) == total
    decreases |es|
  {
    if |es| > 1 {
      assert forall i :: 0 <= i < |es| - 1 ==> es[1..][i] == es[i + 1];
      MaxIsLast(es[1..], total);
    }
  }

  /** Message i is a solution that holds up and this is its submission: its
      extra nonce 2 is the number of sweeps completed before, read little endian,
      and the header it gives meets the job's share target. */
  ghost predicate SubmittedBy(job: Job, es: seq<Event>, sweep: nat, i: nat, s: Share) {
    && i < |es| && es[i].Solution? && s.nonce == es[i].nonce && |s.extraNonce2| == 8
    && BytesInt(s.extraNonce2) == (sweep + Sweeps(es[..i])) % 0x1_0000_0000_0000_0000
    && HashInt(Attempt(job.header, s.extraNonce2, s.nonce)) <= BigEndianInt(job.shareTargetBE)
  }

  lemma {:induction false} SweepsShift(es: seq<Event>, i: nat)
    requires 0 < i <= |es|
    ensures Sweeps(es[..i]) == (if es[0].Progress? then 0 else 1) + Sweeps(es[1..][..i - 1])
    decreases i
  {
    if i > 1 {
      SweepsShift(es, i - 1);
      assert es[..i][..i - 1] == es[..i - 1];
      assert es[1..][..i - 1][..i - 2] == es[1..][..i - 2];
    } else {
      assert es[..1][..0] == [] && es[1..][..0] == [];
    }
  }

  lemma SubmittedShift(job: Job, es: seq<Event>, sweep: nat, i: nat, s: Share)
    requires 0 < i <= |es|
    ensures SubmittedBy(job, es, sweep, i, s)
      <==> SubmittedBy(job, es[1..], sweep + (if es[0].Progress? then 0 else 1), i - 1, s)
  {
    hide HashInt, Attempt, BigEndianInt, BytesInt, Sweeps;
    SweepsShift(es, i);
  }

  /** A share is submitted exactly when some solution message names it. */
  lemma {:induction false} SubmittedIff(job: Job, es: seq<Event>, sweep: nat, s: Share)
    ensures s in SharesFrom(job, es, sweep) <==> exists i :: SubmittedBy(job, es, sweep, i, s)
    decreases |es|
  {
    hide IsShare, SolvedHeader, StoreU64, U64, SubmittedBy;
    if es == [] {
      forall i: nat ensures !SubmittedBy(job, es, sweep, i, s) { NoneSubmitted(job, es, sweep, i, s); }
    } else {
      var next := sweep + (if es[0].Progress? then 0 else 1);
      SubmittedIff(job, es[1..], next, s);
      FirstMessage(job, es, sweep, s);
      if j: nat :| SubmittedBy(job, es[1..], next, j, s) {
        SubmittedRange(job, es[1..], next, j, s);
        SubmittedShift(job, es, sweep, j + 1, s);
      }
      if i: nat :| SubmittedBy(job, es, sweep, i, s) && i > 0 {
        SubmittedRange(job, es, sweep, i, s);
        SubmittedShift(job, es, sweep, i, s);
        assert SubmittedBy(job, es[1..], next, i - 1, s);
      }
    }
  }

  lemma NoneSubmitted(job: Job, es: seq<Event>, sweep: nat, i: nat, s: Share)
    requires es == []
    ensures !SubmittedBy(job, es, sweep, i, s)
  {
  }

  lemma SubmittedRange(job: Job, es: seq<Event>, sweep: nat, i: nat, s: Share)
    requires SubmittedBy(job, es, sweep, i, s)
    ensures i < |es|
  {
  }

  lemma FirstMessage(job: Job, es: seq<Event>, sweep: nat, s: Share)
    requires es != []
    ensures s in SharesFrom(job, es, sweep) <==>
      || SubmittedBy(job, es, sweep, 0, s)
      || s in SharesFrom(job, es[1..], sweep + (if es[0].Progress? then 0 else 1))
  {
    hide HashInt, Attempt, BigEndianInt, BytesInt, StoreU64;
    assert es[..0] == [];
    StoreU64Int(U64(sweep));
    if |s.extraNonce2| == 8 && BytesInt(s.extraNonce2) == U64(sweep) {
      OnlyStoreU64(s.extraNonce2, U64(sweep));
    }
  }

  /** What the host accepts, the miner submits: a nonce meets the target the
      host was sent, in the header it was sent, exactly when the header the
      miner rebuilds is a share of the job. */
  lemma HostAndMinerAgree(job: Job, sweep: nat, nonce: Word)
    ensures var sent := WithExtraNonce2(job.header, U64(sweep));
      && Compression.WithNonce(sent, nonce) == SolvedHeader(job, sweep, nonce)
      && (HostSweep.Meets(sent, Reverse(job.shareTargetBE), nonce) <==> IsShare(job, SolvedHeader(job, sweep, nonce)))
  {
    hide Hash256, StoreU64, StoreWord, WordBytes, WordsInt;
    var x := StoreU64(U64(sweep));
    var sent := WithExtraNonce2(job.header, U64(sweep));
    var a, b := Compression.WithNonce(sent, nonce), SolvedHeader(job, sweep, nonce);
    forall i | 0 <= i < 180 ensures a[i] == b[i] {
      assert b[i] == AttemptByte(job.header, x, nonce, i);
    }
    assert a == b;
    DigestInt(Hash256(a));
  }

  class GpuMiner {
    var hashes: Long
    var submitted: seq<Share>

    /** Rebuilds the solved header and submits it if it is a share. */
    method OnSolution(job: Job, extraNonce2: seq<Byte>, nonce: Word)
      requires |extraNonce2| == 8
      modifies `submitted
      ensures submitted == old(submitted)
        + (if IsShare(job, Attempt(job.header, extraNonce2, nonce)) then [Share(extraNonce2, nonce)] else [])
    {
      hide Hash256, StoreWord, WordBytes, BytesInt, BigEndianInt, Attempt;
      var header := new Byte[180];
      CopyBytes(header, 0, 180, job.header);
      CopyBytes(header, 148, 156, extraNonce2);
      CopyBytes(header, 140, 144, StoreWord(nonce));
      AttemptBytes(job.header, extraNonce2, nonce, header[..]);
      var sum := WordBytes(Hash256(header[..]));
      var isShare, isBlock := ClassifySolution(sum, job.shareTargetBE, job.blockTargetBE);
      if isShare {
        submitted := submitted + [Share(extraNonce2, nonce)];
      }
    }

    /** One message of the inner loop; `ended` when the sweep is over. */
    method Consume(job: Job, m: Event, extraNonce2: Long, lastNonces: Long) returns (ended: bool, last: Long)
      modifies this
      ensures hashes == U64(old(hashes) as int + Gain(m, lastNonces))
      ensures submitted == old(submitted) + ShareOf(job, m, extraNonce2)
      ensures ended <==> !m.Progress?
      ensures last == if ended then 0 else lastNonces + Gain(m, lastNonces)
    {
      hide Attempt, IsShare, StoreU64, U64;
      last := lastNonces;
      U64Small(hashes);
      if m.checked > last {
        hashes := U64(hashes as int + (m.checked - last));
        last := m.checked;
      }
      if m.Solution? {
        OnSolution(job, StoreU64(extraNonce2), m.nonce);
      }
      ended := !m.Progress?;
      if ended { last := 0; }
    }

    /** One run over a job.  `tops` is how often the loop gets past its top, the
        check for new work and the send, before it returns there; `events` are
        the messages that arrive before it is cancelled while waiting.  `sent`
        are the work lines written to the host. */
    method MineJob(job: Job, events: seq<Event>, tops: nat) returns (sent: seq<string>)
      modifies this
      ensures var es := events[..Served(events, tops)];
        && hashes == U64(old(hashes) as int + SumOfMaxima(es))
        && submitted == old(submitted) + SharesFrom(job, es, 0)
        && |sent| == (if Sweeps(es) < tops then Sweeps(es) + 1 else tops)
        && forall k :: 0 <= k < |sent| ==> sent[k] == WorkLineFor(job, k) && IsWorkFor(job, k, sent[k])
    {
      hide IsWorkFor, U64, WorkLineFor, SharesFrom, ShareOf, Credit, Gain, SumOfMaxima, Sweeps, Served;
      ghost var es := events[..Served(events, tops)];
      CreditIsSumOfMaxima(es);
      ghost var sweep, credited := 0, 0;
      var extraNonce2, lastNonces: Long := 0, 0;
      U64Small(0); U64Small(hashes);
      sent := [];
      var running := tops > 0;
      if running { sent := [WorkLineFor(job, extraNonce2)]; }
      assert es[..0] == [] && es[0..] == es && events[0..] == events;
      NoMessages(job, es[..0], 0);
      var e := 0;
      while running && e < |events|
        invariant e <= |es| <= |events| && sweep <= tops && |es| == e + Served(events[e..], tops - sweep)
        invariant running == (sweep < tops) && |sent| == (if running then sweep + 1 else tops)
        invariant sweep == Sweeps(es[..e]) && extraNonce2 == U64(sweep)
        invariant forall k :: 0 <= k < |sent| ==> sent[k] == WorkLineFor(job, k)
        invariant submitted + SharesFrom(job, es[e..], sweep) == old(submitted) + SharesFrom(job, es, 0)
        invariant hashes == U64(old(hashes) as int + credited)
        invariant credited + Credit(es[e..], lastNonces) == Credit(es, 0)
      {
        var m := events[e];
        ServedStep(events, e, tops - sweep);
        MessageFacts(job, es, e, sweep, extraNonce2, lastNonces);
        U64Sum(old(hashes) as int + credited, Gain(m, lastNonces));
        credited := credited + Gain(m, lastNonces);
        var ended;
        ended, lastNonces := Consume(job, m, extraNonce2, lastNonces);
        if ended {
          U64Sum(sweep, 1);
          extraNonce2 := U64(extraNonce2 as int + 1);
          sweep := sweep + 1;
          running := |sent| < tops;
          if running {
            SameLine(job, sweep, extraNonce2);
            sent := sent + [WorkLineFor(job, extraNonce2)];
          }
        }
        e := e + 1;
      }
      NothingServed(events, e, tops - sweep);
      assert es[e..] == [] && es[..e] == es;
      NoMessages(job, es[e..], sweep);
      forall k | 0 <= k < |sent| ensures IsWorkFor(job, k, sent[k]) { LineForSweep(job, k); }
    }
  }

  /** The host reads sweep k's work from this line: the job's header with k as
      extra nonce 2. */
  predicate IsWorkFor(job: Job, k: nat, line: string) {
    hide WorkMessage.Parse;
    WorkMessage.Means(job, k % 0x1_0000_0000_0000_0000, WorkMessage.Parse(line))
  }

  lemma LineForSweep(job: Job, k: nat)
    ensures IsWorkFor(job, k, WorkLineFor(job, k))
  {
    hide WorkMessage.Parse, WorkMessage.Means, WorkMessage.WorkLine, WorkMessage.HeaderHex, WorkMessage.ShareTargetHex;
    WorkMessage.WorkRoundTrip(job, U64(k));
  }

  /** How many of the messages are consumed before the loop returns at its top. */
  function Served(es: seq<Event>, tops: nat): (n: nat)
    ensures n <= |es|
  {
    if tops == 0 || es == [] then 0
    else 1 + Served(es[1..], if es[0].Progress? then tops else tops - 1)
  }

  /** The messages served are the shortest run of them with `tops` sweeps'
      ends, or all of them. */
  lemma {:induction false} ServedIs(es: seq<Event>, tops: nat)
    ensures var n := Served(es, tops);
      && Sweeps(es[..n]) <= tops && (n == |es| || Sweeps(es[..n]) == tops)
      && (n > 0 ==> Sweeps(es[..n - 1]) < tops)
    decreases |es|
  {
    assert es[..0] == [];
    if tops > 0 && es != [] {
      var rest := if es[0].Progress? then tops else tops - 1;
      var n := Served(es, tops);
      ServedIs(es[1..], rest);
      SweepsShift(es, n);
      if n > 1 { SweepsShift(es, n - 1); }
    }
  }

  lemma ServedStep(es: seq<Event>, e: nat, tops: nat)
    requires e < |es| && tops > 0
    ensures Served(es[e..], tops) == 1 + Served(es[e + 1..], if es[e].Progress? then tops else tops - 1)
  {
    assert es[e..][1..] == es[e + 1..];
  }

  lemma NothingServed(es: seq<Event>, e: nat, tops: nat)
    requires e <= |es| && (tops == 0 || e == |es|)
    ensures Served(es[e..], tops) == 0
  {
  }

  function Gain(m: Event, last: Long): nat {
    if m.checked > last then m.checked - last else 0
  }

  /** What one message makes the miner submit. */
  function ShareOf(job: Job, m: Event, extraNonce2: Long): seq<Share> {
    hide IsShare, Attempt;
    if m.Solution? && IsShare(job, Attempt(job.header, StoreU64(extraNonce2), m.nonce))
    then [Share(StoreU64(extraNonce2), m.nonce)] else []
  }

  /** The work line for sweep k of a job. */
  function WorkLineFor(job: Job, k: nat): string {
    WorkMessage.WorkLine(WorkMessage.HeaderHex(job, U64(k)), WorkMessage.ShareTargetHex(job))
  }

  lemma SameLine(job: Job, k: nat, x: Long)
    requires x == U64(k)
    ensures WorkLineFor(job, x) == WorkLineFor(job, k)
  {
    U64Small(x);
  }

  lemma NoMessages(job: Job, es: seq<Event>, sweep: nat)
    requires es == []
    ensures Sweeps(es) == 0 && SharesFrom(job, es, sweep) == [] && forall last :: Credit(es, last) == 0
  {
  }

  /** How one message divides the specification functions. */
  lemma MessageFacts(job: Job, es: seq<Event>, e: nat, sweep: nat, extraNonce2: Long, last: Long)
    requires e < |es| && extraNonce2 == U64(sweep)
    ensures var m := es[e];
      && Credit(es[e..], last) == Gain(m, last) + Credit(es[e + 1..], if m.Progress? then last + Gain(m, last) else 0)
      && SharesFrom(job, es[e..], sweep)
         == ShareOf(job, m, extraNonce2) + SharesFrom(job, es[e + 1..], sweep + (if m.Progress? then 0 else 1))
      && Sweeps(es[..e + 1]) == Sweeps(es[..e]) + (if m.Progress? then 0 else 1)
  {
    hide IsShare, Attempt, StoreU64, U64;
    assert es[e..][1..] == es[e + 1..] && es[..e + 1][..e] == es[..e];
  }
}
