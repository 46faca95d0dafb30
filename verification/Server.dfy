/** The server and its connections as objects, and the submit path as the code
    has it: one connection handling one request without interruption. */
module Server {
  import opened Words
  import opened Blake3
  import opened Targets
  import opened Wrappers
  import opened Headers
  import opened CpuMiner
  import opened Registry
  import opened Pool
  import T = Throttle
  import Hex

  // ----- a request handled without interruption

  lemma ProceedKeeps(s: Shared, c: Client, now: Word, answer: Answer)
    requires CanProceed(s, c) && !c.pc.Idle?
    ensures var n := Proceed(s, c, now, answer); CanProceed(n.0, n.1) && Rank(n.1.pc) < Rank(c.pc)
  {
    hide T.Allows, U64, Extend, SubmissionText, RefreshData, NextWork, NewJobs, NewOrder, Installs;
  }

  /** The connection's turns until it is idle again. */
  function Complete(s: Shared, c: Client, now: Word, answer: Answer): (Shared, Client)
    requires CanProceed(s, c)
    decreases Rank(c.pc)
  {
    if c.pc.Idle? then (s, c)
    else
      ProceedKeeps(s, c, now, answer);
      var n := Proceed(s, c, now, answer);
      Complete(n.0, n.1, now, answer)
  }

  lemma Unfold(s: Shared, c: Client, now: Word, answer: Answer)
    requires CanProceed(s, c) && !c.pc.Idle?
    ensures var n := Proceed(s, c, now, answer);
      CanProceed(n.0, n.1) && Complete(s, c, now, answer) == Complete(n.0, n.1, now, answer)
  {
    hide Proceed, CanProceed;
    ProceedKeeps(s, c, now, answer);
  }

  /** It is a run of the pool in which only this connection acts. */
  lemma {:induction false} CompleteIsRun(cfg: Config, p: Pool, i: nat, now: Word, answer: Answer) returns (run: seq<Action>)
    requires i < |p.clients| && CanProceed(p.shared, p.clients[i])
    ensures forall k :: 0 <= k < |run| ==> run[k] == Advance(i, now, answer)
    ensures |run| <= Rank(p.clients[i].pc)
    ensures From(cfg, p, run) == Put(p, i, Complete(p.shared, p.clients[i], now, answer))
    decreases Rank(p.clients[i].pc)
  {
    hide Proceed, CanProceed;
    var c := p.clients[i];
    if c.pc.Idle? {
      run := [];
      assert p.clients[i := c] == p.clients;
    } else {
      ProceedKeeps(p.shared, c, now, answer);
      Unfold(p.shared, c, now, answer);
      var q := Step(cfg, p, Advance(i, now, answer));
      var rest := CompleteIsRun(cfg, q, i, now, answer);
      run := [Advance(i, now, answer)] + rest;
      assert run[1..] == rest;
    }
  }

  // ----- the three ways a judged submission ends

  function Refreshing(s: Shared, now: Word): Shared
    requires s.registry.maxJobs > 0
  {
    if s.registry.current.None? then s else Installed(s, RefreshData(s.registry.current.value, now))
  }

  /** The copy's timestamp is the clock's time if that is past the old one and one
      more than the old one otherwise; the other bytes are the same. */
  predicate RolledTo(was: Blob, copy: Blob, now: Word) {
    var t := WordAt(was, 136);
    && WordAt(copy, 136) == (if now > t then now else (t + 1) % 0x1_0000_0000)
    && copy[..136] == was[..136] && copy[140..] == was[140..]
  }

  lemma RefreshingRolls(s: Shared, now: Word)
    requires s.registry.maxJobs > 0 && s.registry.current.Some?
    ensures var next := Refreshing(s, now).registry.current;
      next.Some? && RolledTo(s.registry.current.value.data, next.value.data, now)
  {
    hide WordAt, Set, Extend, RefreshData;
    RefreshDataIs(s.registry.current.value, now);
    SetInstalls(s.registry, RefreshData(s.registry.current.value, now));
  }

  /** The current work's own data installs nothing; other data of 192 bytes does. */
  lemma InstalledCases(s: Shared, data: seq<Byte>)
    requires s.registry.maxJobs > 0
    ensures var same, t := s.registry.current.Some? && s.registry.current.value.data == data, Installed(s, data);
      && (same ==> t == s)
      && (!same && |data| == 192 ==> t.registry.current.Some? && t.registry.current.value.data == data)
  {
    hide Set, NextWork;
    SetCases(s.registry, data);
  }

  lemma CompleteIdle(s: Shared, d: Client, now: Word, answer: Answer)
    requires CanProceed(s, d) && d.pc.Idle?
    ensures Complete(s, d, now, answer) == (s, d)
  {
  }

  lemma CompleteShare(s: Shared, d: Client, now: Word, answer: Answer)
    requires CanProceed(s, d) && d.pc == RecordShare
    ensures Complete(s, d, now, answer)
      == (s.(shareCount := U64(s.shareCount as int + 1)), Answered(d, Ok(d.asked[|d.asked| - 1])))
  {
    hide U64;
    Unfold(s, d, now, answer);
    var n := Proceed(s, d, now, answer);
    Unfold(n.0, n.1, now, answer);
  }

  lemma CompleteThrottled(s: Shared, d: Client, h: Header, now: Word, answer: Answer)
    requires CanProceed(s, d) && d.pc == CountBlock(h) && !T.Allows(s.throttle)
    ensures Complete(s, d, now, answer)
      == (Refreshing(s.(throttle := T.After(s.throttle), shareCount := U64(s.shareCount as int + 1)), now),
          Answered(d, Ok(d.asked[|d.asked| - 1])).(submissions := U64(d.submissions as int + 1)))
  {
    hide U64, T.After, T.Allows, Complete, Installed, RefreshData, CanProceed;
    Unfold(s, d, now, answer);
    var a := Proceed(s, d, now, answer);
    Unfold(a.0, a.1, now, answer);
    var b := Proceed(a.0, a.1, now, answer);
    CompleteRecorded(b.0, b.1, now, answer);
  }

  lemma CompleteRecorded(s: Shared, d: Client, now: Word, answer: Answer)
    requires CanProceed(s, d) && d.pc == RecordThrottled
    ensures Complete(s, d, now, answer)
      == (Refreshing(s.(shareCount := U64(s.shareCount as int + 1)), now), Answered(d, Ok(d.asked[|d.asked| - 1])))
  {
    hide U64, Installed, RefreshData;
    Unfold(s, d, now, answer);
    var a := Proceed(s, d, now, answer);
    Unfold(a.0, a.1, now, answer);
    var b := Proceed(a.0, a.1, now, answer);
    Unfold(b.0, b.1, now, answer);
    var e := Proceed(b.0, b.1, now, answer);
    if !e.1.pc.Idle? { Unfold(e.0, e.1, now, answer); }
  }

  lemma CompleteSubmitted(s: Shared, d: Client, h: Header, now: Word, answer: Answer)
    requires CanProceed(s, d) && d.pc == CountBlock(h) && T.Allows(s.throttle)
    ensures var id := d.asked[|d.asked| - 1];
      Complete(s, d, now, answer)
      == (s.(throttle := T.After(s.throttle), calls := s.calls + [SubmissionText(h)]),
          Answered(d, if answer.Accepted? then Ok(id) else Err(id, 21)).(submissions := U64(d.submissions as int + 1)))
  {
    hide U64, T.After, T.Allows, Complete, SubmissionText, CanProceed;
    Unfold(s, d, now, answer);
    var a := Proceed(s, d, now, answer);
    Unfold(a.0, a.1, now, answer);
    var b := Proceed(a.0, a.1, now, answer);
    CompleteCalled(b.0, b.1, h, now, answer);
  }

  lemma CompleteCalled(s: Shared, d: Client, h: Header, now: Word, answer: Answer)
    requires CanProceed(s, d) && d.pc == CallNode(h)
    ensures var id := d.asked[|d.asked| - 1];
      Complete(s, d, now, answer)
      == (s.(calls := s.calls + [SubmissionText(h)]), Answered(d, if answer.Accepted? then Ok(id) else Err(id, UNKNOWN)))
  {
    hide SubmissionText;
    Unfold(s, d, now, answer);
    var a := Proceed(s, d, now, answer);
    Unfold(a.0, a.1, now, answer);
  }

  /** The request is answered, once, as its assessment deserves. */
  lemma {:induction false} CompleteAnswers(cfg: Config, before: Client, id: Long, o: Outcome, s: Shared, c: Client,
                                           now: Word, answer: Answer)
    requires CanProceed(s, c) && Underway(cfg, before, id, o, c)
    ensures var d := Complete(s, c, now, answer).1;
      && d.pc.Idle? && Answers(cfg, before, id, o, d)
      && |d.replies| == |c.replies| + (if Waiting(c.pc) then 1 else 0)
    decreases Rank(c.pc)
  {
    hide Underway, Answers, Pending, Proceed, CanProceed;
    if c.pc.Idle? {
      IdleAnswered(cfg, before, id, o, c);
    } else {
      ProceedKeeps(s, c, now, answer);
      ProceedUnderway(cfg, before, id, o, s, c, now, answer);
      OneReply(s, c, now, answer);
      var n := Proceed(s, c, now, answer);
      CompleteAnswers(cfg, before, id, o, n.0, n.1, now, answer);
    }
  }

  lemma IdleAnswered(cfg: Config, before: Client, id: Long, o: Outcome, c: Client)
    requires Underway(cfg, before, id, o, c) && c.pc.Idle?
    ensures Answers(cfg, before, id, o, c)
  {
    hide Answers;
  }

  lemma OneReply(s: Shared, c: Client, now: Word, answer: Answer)
    requires CanProceed(s, c) && !c.pc.Idle?
    ensures var d := Proceed(s, c, now, answer).1;
      |d.replies| + (if Waiting(d.pc) then 1 else 0) == |c.replies| + (if Waiting(c.pc) then 1 else 0)
  {
    hide T.After, T.Allows, U64, Installed, RefreshData, SubmissionText;
  }

  predicate Sends(cfg: Config, r: Registry, c: Client, q: Request, sends: seq<Reply>) {
    hide Deserves, Assess;
    |sends| == |c.replies| + 1 && c.replies <= sends && RightReply(cfg, r, c, q, sends[|c.replies|])
  }

  lemma ReceiveProceeds(cfg: Config, s: Shared, c: Client, q: Request)
    requires s.throttle.divisor > 0 && s.registry.maxJobs > 0
    ensures var r := Receive(cfg, s, c, q); CanProceed(r.0, r.1)
  {
    hide Assess;
  }

  lemma SubmitWaits(cfg: Config, s: Shared, c: Client, q: Request)
    requires q.Request? && q.kind.Submit?
    ensures var d := Receive(cfg, s, c, q).1;
      |d.replies| + (if Waiting(d.pc) then 1 else 0) == |c.replies| + 1
  {
    hide Assess;
  }

  lemma AnswersSend(cfg: Config, r: Registry, c: Client, q: Request, d: Client)
    requires q.Request? && q.kind.Submit? && |d.replies| == |c.replies| + 1
    requires Answers(cfg, c, q.id, Assess(cfg, r, c, q.params), d)
    ensures Sends(cfg, r, c, q, d.replies)
  {
    hide Deserves, Assess;
  }

  /** What handling a line from start to end sends: one more reply, the right one. */
  lemma HandledReply(cfg: Config, s: Shared, c: Client, q: Request, now: Word, answer: Answer)
    requires s.throttle.divisor > 0 && s.registry.maxJobs > 0
    ensures var r := Receive(cfg, s, c, q);
      CanProceed(r.0, r.1) && Sends(cfg, s.registry, c, q, Complete(r.0, r.1, now, answer).1.replies)
  {
    ReceiveProceeds(cfg, s, c, q);
    hide Deserves, Assess, CanProceed, Receive, Complete, Sends, Answers, Underway;
    var r := Receive(cfg, s, c, q);
    if q.Request? && q.kind.Submit? {
      SubmitUnderway(cfg, s, c, q.id, q.params);
      SubmitWaits(cfg, s, c, q);
      CompleteAnswers(cfg, c, q.id, Assess(cfg, s.registry, c, q.params), r.0, r.1, now, answer);
      AnswersSend(cfg, s.registry, c, q, Complete(r.0, r.1, now, answer).1);
    } else {
      OtherSends(cfg, s, c, q);
      CompleteIdle(r.0, r.1, now, answer);
    }
  }

  lemma OtherSends(cfg: Config, s: Shared, c: Client, q: Request)
    requires !(q.Request? && q.kind.Submit?)
    ensures var d := Receive(cfg, s, c, q).1; d.pc.Idle? && Sends(cfg, s.registry, c, q, d.replies)
  {
    hide Receive, RightReply;
    OtherReplies(cfg, s, c, q);
  }

  /** The same from a connection that has already noted the request. */
  lemma SubmittedReply(cfg: Config, s: Shared, c: Client, id: Long, params: Option<seq<string>>, now: Word, answer: Answer)
    requires c.asked != [] && c.asked[|c.asked| - 1] == id && s.throttle.divisor > 0 && s.registry.maxJobs > 0
    ensures var r := Submitted(cfg, s, c, id, params);
      CanProceed(r.0, r.1) && Sends(cfg, s.registry, c, Request(id, Submit, params), Complete(r.0, r.1, now, answer).1.replies)
  {
    hide Deserves, Assess, CanProceed, Submitted, Complete, Sends;
    var before := c.(asked := c.asked[..|c.asked| - 1]);
    var q := Request(id, Submit, params);
    assert Asked(before, id) == c;
    AssessAsked(cfg, s.registry, before, id, params);
    assert Receive(cfg, s, before, q) == Submitted(cfg, s, c, id, params);
    HandledReply(cfg, s, before, q, now, answer);
    SendsAsked(cfg, s.registry, before, id, params, Complete(Receive(cfg, s, before, q).0, Receive(cfg, s, before, q).1, now, answer).1.replies);
  }

  lemma SendsAsked(cfg: Config, r: Registry, c: Client, id: Long, params: Option<seq<string>>, sends: seq<Reply>)
    requires Sends(cfg, r, c, Request(id, Submit, params), sends)
    ensures Sends(cfg, r, Asked(c, id), Request(id, Submit, params), sends)
  {
    AssessAsked(cfg, r, c, id, params);
    hide Assess, Deserves;
  }

  /** The counter's n-th value is the n-th connection's extra nonce 1. */
  lemma NonceCounter(n: nat)
    ensures AssignedNonce1(0) == 0 && U32(AssignedNonce1(n) as int + 1) == AssignedNonce1(n + 1)
  {
  }

  /** A submission's decoded fields and the job they are for. */
  datatype Fields = Fields(job: Work, en1: seq<Byte>, en2: seq<Byte>, ts: seq<Byte>, nonce: seq<Byte>)

  predicate Rebuilds(f: Fields, h: Header) {
    WellSized(f.en1, f.en2, f.ts, f.nonce) && h == Solved(f.job.data, f.en1, f.en2, f.ts, f.nonce)
  }

  // ----- the objects

  class Connection {
    const extraNonce1: string
    var worker: string
    var submissions: Long
    var sends: seq<Reply>
    ghost var asked: seq<Long>

    constructor (extraNonce1: string)
      ensures View() == Client("", extraNonce1, 0, [], [], Idle)
    {
      this.extraNonce1, worker := extraNonce1, "";
      submissions, sends, asked := 0, [], [];
    }

    /** The connection between two requests. */
    ghost function View(): Client
      reads this
    {
      Client(worker, extraNonce1, submissions, asked, sends, Idle)
    }

    method Enqueue(r: Reply)
      modifies `sends
      ensures sends == old(sends) + [r]
    {
      sends := sends + [r];
    }
  }

  class PoolServer {
    const cfg: Config
    const workMgr: WorkManager
    const throttle: T.BlockThrottle
    var shareCount: Long
    var nonce1: Word
    var submitted: seq<string>
    ghost var shares: nat
    ghost var blocks: nat
    ghost var history: History

    constructor (cfg: Config)
      ensures fresh(workMgr) && fresh(throttle) && this.cfg == cfg
      ensures Valid() && View() == Start(cfg).shared && nonce1 == 0
    {
      this.cfg := cfg;
      workMgr := new WorkManager(MAX_JOBS);
      throttle := new T.BlockThrottle(cfg.divisor);
      shareCount, nonce1, submitted := 0, 0, [];
      shares, blocks, history := 0, 0, [];
    }

    ghost function View(): Shared
      reads this, workMgr, throttle
    {
      Shared(workMgr.View(), throttle.View(), shareCount, shares, blocks, submitted, history)
    }

    /** The server's own objects cannot be missing a divisor or a bound. */
    ghost predicate Valid()
      reads this, workMgr, throttle
    {
      throttle.divisor > 0 && workMgr.maxJobs > 0
    }

    /** A connection with the next extra nonce 1. */
    method NewClient() returns (c: Connection)
      modifies `nonce1
      ensures fresh(c) && nonce1 == U32(old(nonce1) as int + 1)
      ensures c.View() == Client("", Hex.Encode(StoreWord(nonce1)), 0, [], [], Idle)
    {
      hide Hex.Encode, StoreWord, U32;
      nonce1 := U32(nonce1 as int + 1);
      c := new Connection(Hex.Encode(StoreWord(nonce1)));
    }

    method RecordShare()
      modifies `shareCount
      ensures shareCount == U64(old(shareCount) as int + 1)
    {
      shareCount := U64(shareCount as int + 1);
    }

    /** New work from the node. */
    method ProcessWork(data: seq<Byte>, newParent: bool) returns (work: Option<Work>, clean: bool)
      requires Valid()
      modifies `history, workMgr
      ensures Valid() && View() == Installed(old(View()), data) && work == workMgr.current
      ensures var same := old(workMgr.current).Some? && old(workMgr.current).value.data == data;
        && (same ==> View() == old(View()))
        && (!same && |data| == 192 ==> work.Some? && work.value.data == data)
        && (clean <==> newParent && |data| == 192 && !same)
    {
      hide Set, Extend;
      InstalledCases(View(), data);
      history := Extend(workMgr.View(), history, data);
      work, clean := workMgr.SetCurrent(data, newParent);
    }

    method RefreshWork(now: Word)
      requires Valid()
      modifies `history, workMgr
      ensures Valid() && View() == Refreshing(old(View()), now)
      ensures old(workMgr.current).None? ==> View() == old(View())
      ensures old(workMgr.current).Some? ==>
        workMgr.current.Some? && RolledTo(old(workMgr.current).value.data, workMgr.current.value.data, now)
    {
      hide Set, Extend, Refreshed, WordAt, RolledTo;
      var work := workMgr.Current();
      if work.None? {
        return;
      }
      RefreshingRolls(View(), now);
      var ts := now;
      var previous := WordAt(work.value.data, 136);
      if ts <= previous {
        ts := U32(previous as int + 1);
      }
      var data := RefreshTimestamp(work.value, ts);
      history := Extend(workMgr.View(), history, data);
      var _, _ := workMgr.SetCurrent(data, false);
    }

    /** The submission's fields, decoded; the first failure gives its code. */
    method Decode(c: Connection, params: Option<seq<string>>) returns (o: Outcome, fields: Option<Fields>)
      ensures o == Assess(cfg, workMgr.View(), c.View(), params)
      ensures o.Judged? ==> fields.Some? && Rebuilds(fields.value, o.header)
    {
      hide Hex.Decode, Judge, Solved, Lookup, WellSized;
      if params.None? || |params.value| < 5 {
        return Refuse(UNKNOWN), None;
      }
      var jobID, extraNonce2E, nTimeE, nonceE := params.value[1], params.value[2], params.value[3], params.value[4];
      if params.value[0] != c.worker {
        return Refuse(UNAUTHORIZED), None;
      }
      var job := workMgr.Job(jobID);
      if job.None? {
        return Refuse(STALE_SHARE), None;
      }
      var extraNonce2 := Hex.Decode(extraNonce2E);
      if extraNonce2.None? {
        return Refuse(UNKNOWN), None;
      }
      var nTime := Hex.Decode(nTimeE);
      if nTime.None? {
        return Refuse(UNKNOWN), None;
      }
      var nonce := Hex.Decode(nonceE);
      if nonce.None? {
        return Refuse(UNKNOWN), None;
      }
      var extraNonce1 := Hex.Decode(c.extraNonce1);
      if extraNonce1.None? {
        return Refuse(UNKNOWN), None;
      }
      var f := Fields(job.value, extraNonce1.value, extraNonce2.value, nTime.value, nonce.value);
      var header := BuildSolvedHeader(f.job, f.en1, f.en2, f.ts, f.nonce);
      if header.None? {
        return Refuse(UNKNOWN), None;
      }
      return Judged(header.value, Judge(header.value, cfg.shareTarget, cfg.compact)), Some(f);
    }

    /** A solved block: counted, put to the throttle, and sent or discarded. */
    method SubmitSolved(c: Connection, id: Long, f: Fields, ghost header: Header, now: Word, answer: Answer)
      requires Valid() && Rebuilds(f, header) && c.asked != [] && c.asked[|c.asked| - 1] == id
      modifies this, workMgr, throttle, c
      ensures Valid() && nonce1 == old(nonce1)
      ensures var d := old(c.View()).(pc := CountBlock(header));
        CanProceed(old(View()), d) && (View(), c.View()) == Complete(old(View()), d, now, answer)
    {
      hide Complete, Refreshing, Solved, WellSized, T.After, T.Allows, U64, Hex.Encode, Hex.Decode;
      ghost var s, d := View(), c.View().(pc := CountBlock(header));
      c.submissions := U64(c.submissions as int + 1);
      var allow := throttle.Allow();
      if !allow {
        CompleteThrottled(s, d, header, now, answer);
        RecordShare();
        c.Enqueue(Ok(id));
        RefreshWork(now);
        return;
      }
      CompleteSubmitted(s, d, header, now, answer);
      var text := SolvedHeaderData(f.job, f.en1, f.en2, f.ts, f.nonce);
      submitted := submitted + [text.value];
      c.Enqueue(if answer.Accepted? then Ok(id) else Err(id, UNKNOWN));
    }

    method HandleAuthorize(c: Connection, id: Long, params: Option<seq<string>>)
      modifies c
      ensures c.asked == old(c.asked)
      ensures c.View() == Authorized(cfg, old(c.View()), id, params)
    {
      if params.None? || |params.value| < 2 {
        c.Enqueue(Err(id, UNAUTHORIZED));
        return;
      }
      var user, pass := params.value[0], params.value[1];
      if user == "" || !(cfg.password == "" || pass == cfg.password) {
        c.Enqueue(Err(id, UNAUTHORIZED));
        return;
      }
      c.worker := user;
      c.Enqueue(Ok(id));
    }

    /** One mining.submit request, start to end.  `answer` is what the node says
        if it is called, `now` the clock if the work is refreshed. */
    method HandleSubmit(c: Connection, id: Long, params: Option<seq<string>>, now: Word, answer: Answer)
      requires Valid() && c.asked != [] && c.asked[|c.asked| - 1] == id
      modifies this, workMgr, throttle, c
      ensures Valid() && nonce1 == old(nonce1)
      ensures var r := Submitted(cfg, old(View()), old(c.View()), id, params);
        CanProceed(r.0, r.1) && (View(), c.View()) == Complete(r.0, r.1, now, answer)
      ensures Sends(cfg, old(workMgr.View()), old(c.View()), Request(id, Submit, params), c.sends)
    {
      hide Complete, Assess, Rebuilds, U64, Sends;
      SubmittedReply(cfg, View(), c.View(), id, params, now, answer);
      ghost var r := Submitted(cfg, View(), c.View(), id, params);
      var o, fields := Decode(c, params);
      match o
      case Refuse(code) =>
        c.Enqueue(Err(id, code));
        CompleteIdle(r.0, r.1, now, answer);
      case Judged(header, decision) =>
        if decision.Rejected? {
          c.Enqueue(Err(id, LOW_DIFFICULTY));
          CompleteIdle(r.0, r.1, now, answer);
          return;
        }
        if decision.AcceptedShare? {
          CompleteShare(r.0, r.1, now, answer);
          shares := shares + 1;
          RecordShare();
          c.Enqueue(Ok(id));
          return;
        }
        blocks := blocks + 1;
        SubmitSolved(c, id, fields.value, header, now, answer);
    }

    /** Any line from a miner, start to end. */
    method HandleMessage(c: Connection, q: Request, now: Word, answer: Answer)
      requires Valid()
      modifies this, workMgr, throttle, c
      ensures Valid() && nonce1 == old(nonce1)
      ensures var r := Receive(cfg, old(View()), old(c.View()), q);
        CanProceed(r.0, r.1) && (View(), c.View()) == Complete(r.0, r.1, now, answer)
      ensures Sends(cfg, old(workMgr.View()), old(c.View()), q, c.sends)
    {
      hide Complete, Submitted, Sends;
      HandledReply(cfg, View(), c.View(), q, now, answer);
      ghost var r := Receive(cfg, View(), c.View(), q);
      c.asked := c.asked + [if q.Malformed? then 0 else q.id];
      match q
      case Malformed =>
        c.Enqueue(Err(0, UNKNOWN));
        CompleteIdle(r.0, r.1, now, answer);
      case Request(id, kind, params) =>
        match kind {
          case Subscribe =>
            c.Enqueue(Ok(id));
            CompleteIdle(r.0, r.1, now, answer);
          case Authorize =>
            HandleAuthorize(c, id, params);
            CompleteIdle(r.0, r.1, now, answer);
          case Submit =>
            HandleSubmit(c, id, params, now, answer);
          case SuggestDifficulty =>
            c.Enqueue(Ok(id));
            CompleteIdle(r.0, r.1, now, answer);
          case Other =>
            c.Enqueue(Err(id, UNKNOWN));
            CompleteIdle(r.0, r.1, now, answer);
        }
    }
  }
}
