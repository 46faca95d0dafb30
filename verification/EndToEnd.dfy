/** The chain from the GPU to the pool: what the host is sent, what it may
    report, and what the pool makes of it. */
module EndToEnd {
  import opened Words
  import opened Targets
  import opened Wrappers
  import opened Headers
  import opened CpuMiner
  import opened GpuMiner
  import opened Registry
  import opened Pool
  import Hex
  import HostSweep
  import WorkMessage

  /** The header of the k-th work line of a job, nonce still to be swept. */
  function SweptHeader(job: Job, k: nat): Header {
    WithExtraNonce2(job.header, U64(k))
  }

  /** The pool's outcome for a nonce that the host reports for that line. */
  function OutcomeOf(cfg: Config, p: Pool, i: nat, job: Job, k: nat, nonce: Word): Outcome
    requires i < |p.clients|
  {
    hide StoreU64;
    var params := SubmitParams(p.clients[i].worker, job.jobID, StoreU64(U64(k)), job.ntime, nonce);
    Assess(cfg, p.shared.registry, p.clients[i], Some(params))
  }

  /** In every reachable pool state that still has the job: the host reads from
      the miner's k-th work line a header and a target, and a nonce meets that
      target in that header exactly when the pool, sent that nonce with extra
      nonce 2 equal to k, does not reject it as a low-difficulty share.  The
      target's bytes, the two hash forms, the three comparisons, the hex fields
      and both header reconstructions all lie between the two sides. */
  lemma HostFindsWhatPoolAccepts(cfg: Config, run: seq<Action>, i: nat, job: Job, w: Work, k: nat, nonce: Word)
    requires |run| < TWO64 && i < |Exec(cfg, run).clients|
    requires Lookup(Exec(cfg, run).shared.registry, w.jobID) == Some(w)
    requires 0 <= cfg.shareTarget < TWO256 && -TWO256 < cfg.compact(WordAt(w.data, 116)) < TWO256
    requires JobFor(job, w, AssignedNonce1(i + 1), cfg.shareTarget, cfg.compact)
    ensures var target, o := Reverse(job.shareTargetBE), OutcomeOf(cfg, Exec(cfg, run), i, job, k, nonce);
      && WorkMessage.Parse(WorkLineFor(job, k)) == WorkMessage.Parsed.Work(SweptHeader(job, k), target)
      && o.Judged?
      && (HostSweep.Meets(SweptHeader(job, k), target, nonce) <==> o.decision != Rejected)
  {
    hide Exec, Assess, SubmitParams, Lookup, WorkMessage.Parse, WorkMessage.WorkLine, WorkMessage.HeaderHex,
         WorkMessage.ShareTargetHex, HostSweep.Meets, MinerVerdict, Attempt, StoreU64, StoreWord, AssignedNonce1,
         JobFor, WithExtraNonce2;
    WorkMessage.WorkRoundTrip(job, U64(k));
    HostAndMinerAgree(job, k, nonce);
    MinerSubmissionIsJudgedAlike(cfg, run, i, job, w, StoreU64(U64(k)), nonce);
  }

  /** What the host's reply to that line means at the pool: the nonce of a
      reported solution is not rejected, and after "searched" every non-zero
      nonce of that line would be. */
  lemma ReplyMeansVerdict(cfg: Config, run: seq<Action>, i: nat, job: Job, w: Work, k: nat,
                          reply: Option<HostSweep.Message>, batches: nat)
    requires |run| < TWO64 && i < |Exec(cfg, run).clients|
    requires Lookup(Exec(cfg, run).shared.registry, w.jobID) == Some(w)
    requires 0 <= cfg.shareTarget < TWO256 && -TWO256 < cfg.compact(WordAt(w.data, 116)) < TWO256
    requires JobFor(job, w, AssignedNonce1(i + 1), cfg.shareTarget, cfg.compact)
    requires HostSweep.Sound(SweptHeader(job, k), Reverse(job.shareTargetBE), reply, batches)
    ensures reply.Some? && reply.value.Solution? ==> Accepts(cfg, Exec(cfg, run), i, job, k, reply.value.nonce)
    ensures reply.Some? && reply.value.Searched? ==>
      forall n: Word :: n != 0 ==> Rejects(cfg, Exec(cfg, run), i, job, k, n)
  {
    hide Exec, OutcomeOf, Lookup, WorkMessage.Parse, WorkLineFor, HostSweep.Meets, HostSweep.NoneIn, HostSweep.BatchOf,
         Hex.Encode, AssignedNonce1, JobFor, SweptHeader;
    if reply.Some? && reply.value.Solution? {
      HostFindsWhatPoolAccepts(cfg, run, i, job, w, k, reply.value.nonce);
    } else if reply.Some? && reply.value.Searched? {
      forall n: Word | n != 0 ensures Rejects(cfg, Exec(cfg, run), i, job, k, n) {
        HostFindsWhatPoolAccepts(cfg, run, i, job, w, k, n);
      }
    }
  }

  predicate Accepts(cfg: Config, p: Pool, i: nat, job: Job, k: nat, nonce: Word)
    requires i < |p.clients|
  {
    var o := OutcomeOf(cfg, p, i, job, k, nonce);
    o.Judged? && o.decision != Rejected
  }

  predicate Rejects(cfg: Config, p: Pool, i: nat, job: Job, k: nat, nonce: Word)
    requires i < |p.clients|
  {
    var o := OutcomeOf(cfg, p, i, job, k, nonce);
    o.Judged? && o.decision == Rejected
  }
}
