/** The pool's submit path as a transition system: any number of connections,
    each handling one request at a time, interleaved at every access to state
    they share. */
module Pool {
  import opened Words
  import opened Blake3
  import opened Targets
  import opened Wrappers
  import opened Headers
  import opened CpuMiner
  import opened Registry
  import T = Throttle
  import Hex

  const MAX_JOBS: nat := 1000

  const LOW_DIFFICULTY := 20
  const UNKNOWN := 21
  const STALE_SHARE := 22
  const UNAUTHORIZED := 24

  /** `compact` is the expansion of the compact difficulty bits; an empty
      password asks for none. */
  datatype Config = Config(shareTarget: int, compact: Word -> int, divisor: Word, password: string)

  datatype Kind = Subscribe | Authorize | Submit | SuggestDifficulty | Other

  /** A line from a miner.  `params` is None when a parameter is not a string. */
  datatype Request = Malformed | Request(id: Long, kind: Kind, params: Option<seq<string>>)

  datatype Reply = Ok(id: Long) | Err(id: Long, code: int)

  /** The node's answer to a submitted block. */
  datatype Answer = Accepted | Refused | Failed

  /** What a connection does next. */
  datatype Pc =
    | Idle
    | RecordShare
    | CountBlock(header: Header)
    | AskThrottle(header: Header)
    | RecordThrottled
    | ReplyTrue(refresh: bool)
    | CallNode(header: Header)
    | AwaitNode
    | ReadCurrent
    | Install(data: Blob)

  /** `worker` is the authorized name, empty before authorization.  The signed
      64-bit `submissions` is kept as its bit pattern. */
  datatype Client = Client(worker: string, extraNonce1: string, submissions: Long,
                           asked: seq<Long>, replies: seq<Reply>, pc: Pc)

  /** What the connections share.  The last four fields only record the run: the
      decisions made, the texts sent to the node and the works installed. */
  datatype Shared = Shared(registry: Registry, throttle: T.State, shareCount: Long,
                           shares: nat, blocks: nat, calls: seq<string>, history: History)

  datatype Pool = Pool(shared: Shared, clients: seq<Client>)

  // ----- judging a submission

  datatype Outcome = Refuse(code: int) | Judged(header: Header, decision: Decision)

  function Assess(cfg: Config, r: Registry, c: Client, params: Option<seq<string>>): Outcome {
    if params.None? || |params.value| < 5 then Refuse(UNKNOWN)
    else if params.value[0] != c.worker then Refuse(UNAUTHORIZED)
    else
      var job := Lookup(r, params.value[1]);
      if job.None? then Refuse(STALE_SHARE)
      else
        var en2, ts, nonce := Hex.Decode(params.value[2]), Hex.Decode(params.value[3]), Hex.Decode(params.value[4]);
        var en1 := Hex.Decode(c.extraNonce1);
        if en2.None? || ts.None? || nonce.None? || en1.None? then Refuse(UNKNOWN)
        else if !WellSized(en1.value, en2.value, ts.value, nonce.value) then Refuse(UNKNOWN)
        else
          var h := Solved(job.value.data, en1.value, en2.value, ts.value, nonce.value);
          Judged(h, Judge(h, cfg.shareTarget, cfg.compact))
  }

  /** What the node is sent for a solved header. */
  function SubmissionText(h: Header): string {
    Hex.Encode(h + Zeros(12))
  }

  /** The header in a text sent to the node, if it has the form of one. */
  function SentHeader(text: string): Option<Header> {
    var d := Hex.Decode(text);
    if d.Some? && |d.value| == 192 && d.value[180..] == Zeros(12) then
      var h: Header := d.value[..180];
      Some(h)
    else None
  }

  // ----- one connection's steps

  function Answered(c: Client, r: Reply): Client {
    c.(replies := c.replies + [r], pc := Idle)
  }

  /** An accepted name replaces the worker's; a refusal changes nothing. */
  function Authorized(cfg: Config, c: Client, id: Long, params: Option<seq<string>>): Client {
    if params.Some? && |params.value| >= 2 && params.value[0] != ""
       && (cfg.password == "" || params.value[1] == cfg.password)
    then Answered(c.(worker := params.value[0]), Ok(id))
    else Answered(c, Err(id, UNAUTHORIZED))
  }

  function Submitted(cfg: Config, s: Shared, c: Client, id: Long, params: Option<seq<string>>): (Shared, Client) {
    match Assess(cfg, s.registry, c, params)
    case Refuse(code) => (s, Answered(c, Err(id, code)))
    case Judged(h, Rejected) => (s, Answered(c, Err(id, LOW_DIFFICULTY)))
    case Judged(h, AcceptedShare) => (s.(shares := s.shares + 1), c.(pc := RecordShare))
    case Judged(h, SubmitBlock) => (s.(blocks := s.blocks + 1), c.(pc := CountBlock(h)))
  }

  /** A request is taken up: all but a share or block are answered at once.  A
      line that does not parse is answered under id 0. */
  function Receive(cfg: Config, s: Shared, c: Client, q: Request): (Shared, Client) {
    match q
    case Malformed => (s, Answered(Asked(c, 0), Err(0, UNKNOWN)))
    case Request(id, Subscribe, _) => (s, Answered(Asked(c, id), Ok(id)))
    case Request(id, Authorize, params) => (s, Authorized(cfg, Asked(c, id), id, params))
    case Request(id, Submit, params) => Submitted(cfg, s, Asked(c, id), id, params)
    case Request(id, SuggestDifficulty, _) => (s, Answered(Asked(c, id), Ok(id)))
    case Request(id, Other, _) => (s, Answered(Asked(c, id), Err(id, UNKNOWN)))
  }

  function Asked(c: Client, id: Long): Client {
    c.(asked := c.asked + [id])
  }

  predicate CanProceed(s: Shared, c: Client) {
    s.throttle.divisor > 0 && s.registry.maxJobs > 0 && (!c.pc.Idle? ==> c.asked != [])
  }

  function Proceed(s: Shared, c: Client, now: Word, answer: Answer): (Shared, Client)
    requires CanProceed(s, c)
  {
    if c.pc.Idle? then (s, c)
    else
      var id := c.asked[|c.asked| - 1];
      match c.pc
      case RecordShare => (s.(shareCount := U64(s.shareCount as int + 1)), c.(pc := ReplyTrue(false)))
      case CountBlock(h) => (s, c.(submissions := U64(c.submissions as int + 1), pc := AskThrottle(h)))
      case AskThrottle(h) =>
        (s.(throttle := T.After(s.throttle)), c.(pc := if T.Allows(s.throttle) then CallNode(h) else RecordThrottled))
      case RecordThrottled => (s.(shareCount := U64(s.shareCount as int + 1)), c.(pc := ReplyTrue(true)))
      case ReplyTrue(refresh) => (s, Answered(c, Ok(id)).(pc := if refresh then ReadCurrent else Idle))
      case CallNode(h) => (s.(calls := s.calls + [SubmissionText(h)]), c.(pc := AwaitNode))
      case AwaitNode => (s, Answered(c, if answer.Accepted? then Ok(id) else Err(id, UNKNOWN)))
      case ReadCurrent =>
        (s, c.(pc := if s.registry.current.None? then Idle else Install(RefreshData(s.registry.current.value, now))))
      case Install(data) => (Installed(s, data), c.(pc := Idle))
  }

  function Installed(s: Shared, data: seq<Byte>): Shared
    requires s.registry.maxJobs > 0
  {
    s.(registry := Set(s.registry, data), history := Extend(s.registry, s.history, data))
  }

  // ----- the whole pool

  datatype Action =
    | Connect
    | NewTemplate(data: seq<Byte>)
    | Message(client: nat, request: Request)
    | Advance(client: nat, now: Word, answer: Answer)

  function Start(cfg: Config): Pool {
    Pool(Shared(New(MAX_JOBS), T.Fresh(cfg.divisor), 0, 0, 0, [], []), [])
  }

  /** The n-th connection, counting from 1. */
  function Connected(n: nat): Client {
    Client("", Hex.Encode(StoreWord(AssignedNonce1(n))), 0, [], [], Idle)
  }

  function Put(p: Pool, i: nat, sc: (Shared, Client)): Pool
    requires i < |p.clients|
  {
    Pool(sc.0, p.clients[i := sc.1])
  }

  /** An action that is not possible leaves the pool as it is. */
  function Step(cfg: Config, p: Pool, a: Action): Pool {
    match a
    case Connect => p.(clients := p.clients + [Connected(|p.clients| + 1)])
    case NewTemplate(data) => if p.shared.registry.maxJobs > 0 then p.(shared := Installed(p.shared, data)) else p
    case Message(i, q) =>
      if i < |p.clients| && p.clients[i].pc.Idle? then Put(p, i, Receive(cfg, p.shared, p.clients[i], q)) else p
    case Advance(i, now, answer) =>
      if i < |p.clients| && CanProceed(p.shared, p.clients[i])
      then Put(p, i, Proceed(p.shared, p.clients[i], now, answer)) else p
  }

  function Exec(cfg: Config, run: seq<Action>): Pool {
    if run == [] then Start(cfg) else Step(cfg, Exec(cfg, run[..|run| - 1]), run[|run| - 1])
  }

  // ----- counting over all connections

  datatype Totals = Totals(submissions: nat, counting: nat, asking: nat, calling: nat, recording: nat)

  function Weigh(c: Client): Totals {
    Totals(c.submissions,
           if c.pc.CountBlock? then 1 else 0,
           if c.pc.AskThrottle? then 1 else 0,
           if c.pc.CallNode? then 1 else 0,
           if c.pc.RecordShare? || c.pc.RecordThrottled? then 1 else 0)
  }

  function Plus(a: Totals, b: Totals): Totals {
    Totals(a.submissions + b.submissions, a.counting + b.counting, a.asking + b.asking,
           a.calling + b.calling, a.recording + b.recording)
  }

  function Sum(cs: seq<Client>): Totals {
    if cs == [] then Totals(0, 0, 0, 0, 0) else Plus(Weigh(cs[0]), Sum(cs[1..]))
  }

  lemma {:induction false} SumAround(cs: seq<Client>, i: nat, c: Client) returns (rest: Totals)
    requires i < |cs|
    ensures Sum(cs) == Plus(Weigh(cs[i]), rest) && Sum(cs[i := c]) == Plus(Weigh(c), rest)
    decreases i
  {
    hide Weigh;
    if i == 0 {
      rest := Sum(cs[1..]);
      assert cs[0 := c][1..] == cs[1..];
    } else {
      var sub := SumAround(cs[1..], i - 1, c);
      assert cs[i := c][1..] == cs[1..][i - 1 := c];
      rest := Plus(Weigh(cs[0]), sub);
    }
  }

  lemma {:induction false} SumAppend(cs: seq<Client>, c: Client)
    ensures Sum(cs + [c]) == Plus(Sum(cs), Weigh(c))
    decreases |cs|
  {
    hide Weigh;
    if cs == [] {
      assert (cs + [c])[1..] == [];
    } else {
      SumAppend(cs[1..], c);
      assert (cs + [c])[1..] == cs[1..] + [c];
    }
  }

  // ----- what every step keeps

  /** The books: every decision is counted where it has not yet moved on. */
  predicate Balanced(cfg: Config, s: Shared, t: Totals) {
    && s.blocks == t.submissions + t.counting
    && t.submissions == s.throttle.found + t.asking
    && s.throttle == T.Calls(T.Fresh(cfg.divisor), s.throttle.found)
    && s.throttle.submitted == |s.calls| + t.calling
    && s.shareCount + t.recording == s.shares + s.throttle.throttled
  }

  predicate IsBlock(cfg: Config, h: Header) {
    Judge(h, cfg.shareTarget, cfg.compact) == SubmitBlock
  }

  /** The header is the template's but for the timestamp, the nonce and the
      extra nonces. */
  predicate FillsIn(h: Header, data: Blob) {
    h[..136] == data[..136] && h[156..] == data[156..180]
  }

  /** The header fills in a template that was installed. */
  ghost predicate OnTemplate(h: Header, history: History) {
    exists i :: 0 <= i < |history| && FillsIn(h, history[i].1.data)
  }

  ghost predicate Solution(cfg: Config, h: Header, history: History) {
    IsBlock(cfg, h) && OnTemplate(h, history)
  }

  predicate Waiting(pc: Pc) {
    !pc.Idle? && !pc.ReadCurrent? && !pc.Install?
  }

  predicate Carries(pc: Pc) {
    pc.CountBlock? || pc.AskThrottle? || pc.CallNode?
  }

  /** Requests are answered one each, in order, the last one perhaps not yet. */
  predicate AnswersInOrder(c: Client) {
    && |c.replies| + (if Waiting(c.pc) then 1 else 0) == |c.asked|
    && forall k :: 0 <= k < |c.replies| ==> c.replies[k].id == c.asked[k]
  }

  ghost predicate ClientOk(cfg: Config, c: Client, history: History) {
    && AnswersInOrder(c) && (!c.pc.Idle? ==> c.asked != [])
    && (Carries(c.pc) ==> Solution(cfg, c.pc.header, history))
  }

  ghost predicate CallOk(cfg: Config, text: string, history: History) {
    var h := SentHeader(text);
    h.Some? && Solution(cfg, h.value, history)
  }

  ghost predicate CallsOk(cfg: Config, calls: seq<string>, history: History) {
    forall k :: 0 <= k < |calls| ==> CallOk(cfg, calls[k], history)
  }

  ghost predicate ClientsOk(cfg: Config, cs: seq<Client>, history: History) {
    forall i :: 0 <= i < |cs| ==> ClientOk(cfg, cs[i], history)
  }

  predicate NoncesAssigned(cs: seq<Client>) {
    forall i :: 0 <= i < |cs| ==> cs[i].extraNonce1 == Hex.Encode(StoreWord(AssignedNonce1(i + 1)))
  }

  /** `n` bounds the steps taken so far. */
  ghost predicate SharedOk(cfg: Config, s: Shared, n: nat) {
    && Represents(s.registry, s.history) && s.registry.maxJobs == MAX_JOBS
    && s.registry.counter <= n && s.blocks + s.shares <= n
    && CallsOk(cfg, s.calls, s.history)
  }

  ghost predicate Inv(cfg: Config, p: Pool, n: nat) {
    && SharedOk(cfg, p.shared, n) && ClientsOk(cfg, p.clients, p.shared.history)
    && Balanced(cfg, p.shared, Sum(p.clients)) && NoncesAssigned(p.clients)
  }

  // ----- the books stay balanced

  lemma ReceiveBalanced(cfg: Config, s: Shared, c: Client, q: Request, rest: Totals)
    requires Balanced(cfg, s, Plus(Weigh(c), rest)) && c.pc.Idle?
    ensures var sc := Receive(cfg, s, c, q); Balanced(cfg, sc.0, Plus(Weigh(sc.1), rest))
  {
    hide Assess, T.Calls, T.Fresh;
  }

  /** The throttle's own counters, while nothing has wrapped. */
  lemma ThrottleCounts(cfg: Config, t: T.State)
    requires t == T.Calls(T.Fresh(cfg.divisor), t.found)
    ensures t.divisor > 0 && t.submitted + t.throttled == t.found && t.submitted <= t.found
    ensures OneIn(cfg, t.found, t.submitted)
  {
    hide T.Calls;
    T.ClosedForm(cfg.divisor, t.found);
  }

  /** `some` is `all` divided by the throttle's N, rounded up. */
  predicate OneIn(cfg: Config, all: nat, some: nat) {
    var N: nat := if cfg.divisor == 0 then 1 else cfg.divisor;
    all <= N * some < all + N
  }

  lemma AskCounts(cfg: Config, t: T.State)
    requires t == T.Calls(T.Fresh(cfg.divisor), t.found) && t.found + 1 < TWO64
    ensures var u := T.After(t);
      && t.divisor > 0
      && u == T.Calls(T.Fresh(cfg.divisor), u.found) && u.found == t.found + 1
      && u.submitted == t.submitted + (if T.Allows(t) then 1 else 0)
      && u.throttled == t.throttled + (if T.Allows(t) then 0 else 1)
  {
    hide OneIn, T.Allows, T.Fresh, U64;
    ThrottleCounts(cfg, t);
    U64Small(t.found as int + 1);
    U64Small(t.submitted as int + 1);
    U64Small(t.throttled as int + 1);
  }

  lemma ProceedBalanced(cfg: Config, s: Shared, c: Client, now: Word, answer: Answer, rest: Totals)
    requires Balanced(cfg, s, Plus(Weigh(c), rest)) && s.blocks + s.shares + 1 < TWO64
    requires CanProceed(s, c)
    ensures var sc := Proceed(s, c, now, answer); Balanced(cfg, sc.0, Plus(Weigh(sc.1), rest))
  {
    hide T.Calls, T.Fresh, OneIn, T.After, T.Allows, U64, Set, Extend, SubmissionText, RefreshData;
    ThrottleCounts(cfg, s.throttle);
    if c.pc.AskThrottle? {
      AskCounts(cfg, s.throttle);
    } else if c.pc.CountBlock? {
      U64Small(c.submissions as int + 1);
    } else if c.pc.RecordShare? || c.pc.RecordThrottled? {
      U64Small(s.shareCount as int + 1);
    }
  }

  // ----- every client and every call stays in order

  /** Nothing already in the history is lost. */
  predicate Extends(g: History, h: History) {
    h <= g
  }

  lemma SolutionStays(cfg: Config, h: Header, history: History, later: History)
    requires Solution(cfg, h, history) && Extends(later, history)
    ensures Solution(cfg, h, later)
  {
    hide IsBlock, FillsIn;
    var i :| 0 <= i < |history| && FillsIn(h, history[i].1.data);
    assert later[i] == history[i];
  }

  lemma ClientStays(cfg: Config, c: Client, history: History, later: History)
    requires ClientOk(cfg, c, history) && Extends(later, history)
    ensures ClientOk(cfg, c, later)
  {
    hide Solution, AnswersInOrder, Extends;
    if Carries(c.pc) { SolutionStays(cfg, c.pc.header, history, later); }
  }

  lemma CallsStay(cfg: Config, calls: seq<string>, history: History, later: History)
    requires CallsOk(cfg, calls, history) && Extends(later, history)
    ensures CallsOk(cfg, calls, later)
  {
    hide Solution, SentHeader, Extends;
    forall k | 0 <= k < |calls| ensures CallOk(cfg, calls[k], later) {
      assert CallOk(cfg, calls[k], history);
      SolutionStays(cfg, SentHeader(calls[k]).value, history, later);
    }
  }

  /** The header holds the fields given as hex texts; a short extra nonce 1
      fills only as many bytes as it has. */
  predicate Carried(h: Header, extraNonce1: string, extraNonce2: string, ntime: string, nonce: string) {
    hide Hex.Decode;
    var en1 := Hex.Decode(extraNonce1);
    && Hex.Decode(ntime) == Some(h[136..140]) && Hex.Decode(nonce) == Some(h[140..144])
    && en1.Some? && |en1.value| <= 4 && h[144..144 + |en1.value|] == en1.value
    && Hex.Decode(extraNonce2) == Some(h[148..156])
  }

  /** A judged header is the template of the registered job that the submission
      names, with only the submitted fields and the connection's own extra nonce
      1 filled in. */
  lemma AssessedOnTemplate(cfg: Config, r: Registry, c: Client, params: Option<seq<string>>, history: History)
    requires Represents(r, history) && Assess(cfg, r, c, params).Judged?
    ensures params.Some? && |params.value| >= 5 && Lookup(r, params.value[1]).Some?
    ensures var o := Assess(cfg, r, c, params);
      && o.decision == Judge(o.header, cfg.shareTarget, cfg.compact)
      && FillsIn(o.header, Lookup(r, params.value[1]).value.data) && OnTemplate(o.header, history)
      && Carried(o.header, c.extraNonce1, params.value[2], params.value[3], params.value[4])
  {
    hide Represents, Judge, Hex.Decode, Lookup, Kept, Solved;
    var o := Assess(cfg, r, c, params);
    var job := Lookup(r, params.value[1]).value;
    LookupIsInHistory(r, history, params.value[1], job);
    var en1, en2 := Hex.Decode(c.extraNonce1).value, Hex.Decode(params.value[2]).value;
    var ts, nonce := Hex.Decode(params.value[3]).value, Hex.Decode(params.value[4]).value;
    SolvedFrame(job.data, en1, en2, ts, nonce);
    assert o.header[144..144 + |en1|] == o.header[144..148][..|en1|];
  }

  lemma LookupIsInHistory(r: Registry, history: History, id: string, w: Work)
    requires Represents(r, history) && Lookup(r, id) == Some(w)
    ensures exists i :: 0 <= i < |history| && history[i].1 == w
  {
    hide Represents, Lookup;
    LookupIff(r, history, id, w);
  }

  lemma ReceiveClient(cfg: Config, s: Shared, c: Client, q: Request)
    requires ClientOk(cfg, c, s.history) && c.pc.Idle? && Represents(s.registry, s.history)
    ensures var sc := Receive(cfg, s, c, q); ClientOk(cfg, sc.1, s.history) && sc.1.extraNonce1 == c.extraNonce1
  {
    hide Assess, OnTemplate, Represents, Judge, Hex.Decode;
    if q.Request? && q.kind.Submit? {
      var d := Asked(c, q.id);
      if Assess(cfg, s.registry, d, q.params).Judged? {
        AssessedOnTemplate(cfg, s.registry, d, q.params, s.history);
      }
    }
  }

  lemma ProceedClient(cfg: Config, s: Shared, c: Client, now: Word, answer: Answer)
    requires ClientOk(cfg, c, s.history) && CanProceed(s, c)
    ensures var sc := Proceed(s, c, now, answer); ClientOk(cfg, sc.1, s.history) && sc.1.extraNonce1 == c.extraNonce1
  {
    hide Solution, T.After, T.Allows, U64, Set, Extend, SubmissionText, RefreshData;
  }

  lemma CallExtends(cfg: Config, calls: seq<string>, h: Header, history: History)
    requires CallsOk(cfg, calls, history) && Solution(cfg, h, history)
    ensures CallsOk(cfg, calls + [SubmissionText(h)], history)
  {
    hide Solution, Hex.Encode, Hex.Decode;
    Hex.RoundTrip(h + Zeros(12));
    assert (h + Zeros(12))[..180] == h && (h + Zeros(12))[180..] == Zeros(12);
  }

  lemma InstalledOk(cfg: Config, s: Shared, n: nat, data: seq<Byte>)
    requires SharedOk(cfg, s, n) && n + 1 < TWO64
    ensures SharedOk(cfg, Installed(s, data), n + 1) && Extends(Installed(s, data).history, s.history)
  {
    hide Represents, CallsOk, Installs, NextWork, NewJobs, NewOrder, U64;
    SetRepresents(s.registry, s.history, data);
    U64Small(s.registry.counter as int + 1);
    CallsStay(cfg, s.calls, s.history, Installed(s, data).history);
  }

  lemma ReceiveShared(cfg: Config, s: Shared, c: Client, n: nat, q: Request)
    requires SharedOk(cfg, s, n)
    ensures var sc := Receive(cfg, s, c, q); SharedOk(cfg, sc.0, n + 1) && sc.0.history == s.history
  {
    hide Represents, CallsOk, Assess;
  }

  lemma ProceedShared(cfg: Config, s: Shared, c: Client, n: nat, now: Word, answer: Answer)
    requires SharedOk(cfg, s, n) && ClientOk(cfg, c, s.history) && CanProceed(s, c) && n + 1 < TWO64
    ensures var sc := Proceed(s, c, now, answer);
      SharedOk(cfg, sc.0, n + 1) && Extends(sc.0.history, s.history)
  {
    hide Represents, CallsOk, Solution, AnswersInOrder, T.After, T.Allows, U64, RefreshData, SubmissionText, Installed;
    if c.pc.Install? {
      InstalledOk(cfg, s, n, c.pc.data);
    } else if c.pc.CallNode? {
      CallExtends(cfg, s.calls, c.pc.header, s.history);
    }
  }

  // ----- the invariant over whole runs

  lemma PutInv(cfg: Config, p: Pool, n: nat, i: nat, sc: (Shared, Client), rest: Totals)
    requires Inv(cfg, p, n) && i < |p.clients|
    requires SharedOk(cfg, sc.0, n + 1) && Extends(sc.0.history, p.shared.history)
    requires ClientOk(cfg, sc.1, sc.0.history) && sc.1.extraNonce1 == p.clients[i].extraNonce1
    requires Balanced(cfg, sc.0, Sum(p.clients[i := sc.1]))
    ensures Inv(cfg, Put(p, i, sc), n + 1)
  {
    hide SharedOk, ClientOk, Balanced, Extends, Sum, Hex.Encode, StoreWord, AssignedNonce1;
    var q := Put(p, i, sc);
    forall j | 0 <= j < |q.clients| ensures ClientOk(cfg, q.clients[j], q.shared.history) {
      if j != i {
        ClientStays(cfg, p.clients[j], p.shared.history, q.shared.history);
      }
    }
  }

  lemma MessageInv(cfg: Config, p: Pool, n: nat, i: nat, q: Request)
    requires Inv(cfg, p, n) && i < |p.clients| && p.clients[i].pc.Idle?
    ensures Inv(cfg, Step(cfg, p, Message(i, q)), n + 1)
  {
    hide SharedOk, ClientOk, Balanced, Sum, Receive, Put, NoncesAssigned;
    var c := p.clients[i];
    var sc := Receive(cfg, p.shared, c, q);
    var rest := SumAround(p.clients, i, sc.1);
    SharedRepresents(cfg, p.shared, n);
    ReceiveBalanced(cfg, p.shared, c, q, rest);
    ReceiveClient(cfg, p.shared, c, q);
    ReceiveShared(cfg, p.shared, c, n, q);
    PutInv(cfg, p, n, i, sc, rest);
  }

  lemma AdvanceInv(cfg: Config, p: Pool, n: nat, i: nat, now: Word, answer: Answer)
    requires Inv(cfg, p, n) && n + 1 < TWO64 && i < |p.clients| && CanProceed(p.shared, p.clients[i])
    ensures Inv(cfg, Step(cfg, p, Advance(i, now, answer)), n + 1)
  {
    hide SharedOk, ClientOk, Balanced, Sum, Proceed, Put, NoncesAssigned, CanProceed, Extends;
    var c := p.clients[i];
    var sc := Proceed(p.shared, c, now, answer);
    var rest := SumAround(p.clients, i, sc.1);
    SharedRepresents(cfg, p.shared, n);
    ProceedBalanced(cfg, p.shared, c, now, answer, rest);
    ProceedClient(cfg, p.shared, c, now, answer);
    ProceedShared(cfg, p.shared, c, n, now, answer);
    ClientStays(cfg, sc.1, p.shared.history, sc.0.history);
    PutInv(cfg, p, n, i, sc, rest);
  }

  lemma SharedRepresents(cfg: Config, s: Shared, n: nat)
    requires SharedOk(cfg, s, n)
    ensures Represents(s.registry, s.history) && s.registry.maxJobs == MAX_JOBS
    ensures s.blocks + s.shares <= n && s.registry.counter <= n
    ensures CallsOk(cfg, s.calls, s.history)
    ensures SharedOk(cfg, s, n + 1)
  {
    hide Represents, CallsOk;
  }

  lemma TemplateInv(cfg: Config, p: Pool, n: nat, data: seq<Byte>)
    requires Inv(cfg, p, n) && n + 1 < TWO64
    ensures Inv(cfg, Step(cfg, p, NewTemplate(data)), n + 1)
  {
    hide SharedOk, ClientOk, Sum, NoncesAssigned, Extends, Set, Extend, T.Calls, T.Fresh;
    SharedRepresents(cfg, p.shared, n);
    InstalledOk(cfg, p.shared, n, data);
    var later := Installed(p.shared, data).history;
    forall j | 0 <= j < |p.clients| ensures ClientOk(cfg, p.clients[j], later) {
      ClientStays(cfg, p.clients[j], p.shared.history, later);
    }
  }

  lemma ConnectInv(cfg: Config, p: Pool, n: nat)
    requires Inv(cfg, p, n)
    ensures Inv(cfg, Step(cfg, p, Connect), n + 1)
  {
    hide SharedOk, Sum, Balanced, ClientOk, ClientsOk, NoncesAssigned, Connected;
    var k := |p.clients| + 1;
    SumAppend(p.clients, Connected(k));
    FreshClient(cfg, k, p.shared.history);
    ClientAppends(cfg, p.clients, Connected(k), p.shared.history);
    NonceAppends(p.clients);
    SharedRepresents(cfg, p.shared, n);
    assert Plus(Sum(p.clients), Weigh(Connected(k))) == Sum(p.clients);
  }

  lemma ClientAppends(cfg: Config, cs: seq<Client>, c: Client, history: History)
    requires ClientsOk(cfg, cs, history) && ClientOk(cfg, c, history)
    ensures ClientsOk(cfg, cs + [c], history)
  {
    hide ClientOk;
  }

  lemma FreshClient(cfg: Config, n: nat, history: History)
    ensures ClientOk(cfg, Connected(n), history)
    ensures Weigh(Connected(n)) == Totals(0, 0, 0, 0, 0)
  {
    hide Solution, Hex.Encode;
  }

  lemma ConnectedNonce(n: nat)
    ensures Connected(n).extraNonce1 == Hex.Encode(StoreWord(AssignedNonce1(n)))
    ensures Connected(n).pc.Idle? && Connected(n).worker == ""
  {
    hide Hex.Encode, StoreWord, AssignedNonce1;
  }

  lemma NonceAppends(cs: seq<Client>)
    requires NoncesAssigned(cs)
    ensures NoncesAssigned(cs + [Connected(|cs| + 1)])
  {
    hide Hex.Encode, StoreWord, AssignedNonce1, Connected;
    ConnectedNonce(|cs| + 1);
  }

  lemma InvLater(cfg: Config, p: Pool, n: nat)
    requires Inv(cfg, p, n)
    ensures Inv(cfg, p, n + 1)
  {
    hide SharedOk, ClientsOk, Balanced, Sum, NoncesAssigned;
    SharedRepresents(cfg, p.shared, n);
  }

  lemma StepInv(cfg: Config, p: Pool, n: nat, a: Action)
    requires Inv(cfg, p, n) && n + 1 < TWO64
    ensures Inv(cfg, Step(cfg, p, a), n + 1)
  {
    hide Inv, CanProceed;
    InvLater(cfg, p, n);
    match a
    case Connect => ConnectInv(cfg, p, n);
    case NewTemplate(data) => TemplateInv(cfg, p, n, data);
    case Message(i, q) => if i < |p.clients| && p.clients[i].pc.Idle? { MessageInv(cfg, p, n, i, q); }
    case Advance(i, now, answer) =>
      if i < |p.clients| && CanProceed(p.shared, p.clients[i]) { AdvanceInv(cfg, p, n, i, now, answer); }
  }

  lemma StartInv(cfg: Config)
    ensures Inv(cfg, Start(cfg), 0)
  {
    hide Represents;
    FreshRepresents(MAX_JOBS);
  }

  /** Every reachable state, for runs too short to wrap a 64-bit counter. */
  lemma {:induction false} ExecInv(cfg: Config, run: seq<Action>)
    requires |run| < TWO64
    ensures Inv(cfg, Exec(cfg, run), |run|)
    decreases |run|
  {
    hide Inv, Step;
    if run == [] {
      StartInv(cfg);
    } else {
      ExecInv(cfg, run[..|run| - 1]);
      StepInv(cfg, Exec(cfg, run[..|run| - 1]), |run| - 1, run[|run| - 1]);
    }
  }

  // ----- what holds of every run

  /** A decision whose effect on the counters is still to come. */
  predicate InFlight(pc: Pc) {
    pc.CountBlock? || pc.AskThrottle? || pc.CallNode? || pc.RecordShare? || pc.RecordThrottled?
  }

  predicate Quiet(cs: seq<Client>) {
    forall i :: 0 <= i < |cs| ==> !InFlight(cs[i].pc)
  }

  /** How often the connections together counted a solved block. */
  function Submissions(cs: seq<Client>): nat {
    Sum(cs).submissions
  }

  lemma {:induction false} QuietTotals(cs: seq<Client>)
    requires Quiet(cs)
    ensures Sum(cs) == Totals(Submissions(cs), 0, 0, 0, 0)
    decreases |cs|
  {
    if cs != [] {
      assert !InFlight(cs[0].pc);
      assert forall i :: 0 <= i < |cs| - 1 ==> cs[1..][i] == cs[i + 1];
      QuietTotals(cs[1..]);
    }
  }

  lemma InvShared(cfg: Config, p: Pool, n: nat)
    requires Inv(cfg, p, n)
    ensures SharedOk(cfg, p.shared, n) && Balanced(cfg, p.shared, Sum(p.clients))
    ensures ClientsOk(cfg, p.clients, p.shared.history) && NoncesAssigned(p.clients)
  {
    hide SharedOk, Balanced, ClientsOk, NoncesAssigned;
  }

  /** Conservation, in every reachable state: node calls, submitted, found,
      counted and decided blocks are in that order; and once nothing is in
      flight they agree: each SubmitBlock decision was found by the throttle and
      counted by its connection, one in N of them (rounded up) reached the node,
      and the share count is the accepted shares plus the throttled blocks. */
  lemma Conservation(cfg: Config, run: seq<Action>)
    requires |run| < TWO64
    ensures var p := Exec(cfg, run);
      var s := p.shared;
      && |s.calls| <= s.throttle.submitted <= s.throttle.found <= Submissions(p.clients) <= s.blocks
      && OneIn(cfg, s.throttle.found, s.throttle.submitted)
      && s.shareCount <= s.shares + s.throttle.throttled
      && (Quiet(p.clients) ==>
            && Submissions(p.clients) == s.throttle.found == s.blocks
            && |s.calls| == s.throttle.submitted && OneIn(cfg, s.blocks, |s.calls|)
            && s.shareCount == s.shares + (s.blocks - |s.calls|))
  {
    hide Exec, Inv, SharedOk, ClientsOk, NoncesAssigned, T.Calls, T.Fresh, OneIn, Sum, Quiet;
    var p := Exec(cfg, run);
    ExecInv(cfg, run);
    InvShared(cfg, p, |run|);
    ThrottleCounts(cfg, p.shared.throttle);
    if Quiet(p.clients) { QuietTotals(p.clients); }
  }

  /** In every reachable state each connection's replies answer its requests
      one by one in order, and only the request being worked on is unanswered. */
  lemma OneReplyEach(cfg: Config, run: seq<Action>, i: nat)
    requires |run| < TWO64 && i < |Exec(cfg, run).clients|
    ensures var c := Exec(cfg, run).clients[i];
      && |c.replies| <= |c.asked| <= |c.replies| + 1 && (c.pc.Idle? ==> |c.replies| == |c.asked|)
      && forall k :: 0 <= k < |c.replies| ==> c.replies[k].id == c.asked[k]
  {
    hide Exec, Inv, SharedOk, NoncesAssigned, Balanced, Solution, Sum;
    ExecInv(cfg, run);
    InvShared(cfg, Exec(cfg, run), |run|);
    assert ClientOk(cfg, Exec(cfg, run).clients[i], Exec(cfg, run).shared.history);
  }

  /** At or below the share target and the target in the header's own bits. */
  predicate MeetsBothTargets(cfg: Config, h: Header) {
    hide HashInt, WordAt;
    HashInt(h) <= cfg.shareTarget && HashInt(h) <= cfg.compact(WordAt(h, 116))
  }

  /** Whatever the connections do, every text the node receives is a solved
      header and twelve zero bytes, at or below the share target and the target
      of its own bits, built on a template that was installed. */
  lemma NodeGetsSolvedBlocks(cfg: Config, run: seq<Action>, text: string)
    requires |run| < TWO64 && text in Exec(cfg, run).shared.calls
    ensures var h := SentHeader(text);
      && h.Some? && OnTemplate(h.value, Exec(cfg, run).shared.history)
      && MeetsBothTargets(cfg, h.value)
  {
    hide Exec, Inv, ClientsOk, NoncesAssigned, Balanced, Sum, HashInt, WordAt, SentHeader, OnTemplate, Represents;
    ExecInv(cfg, run);
    InvShared(cfg, Exec(cfg, run), |run|);
    SharedRepresents(cfg, Exec(cfg, run).shared, |run|);
    assert CallOk(cfg, text, Exec(cfg, run).shared.history);
  }

  /** In every reachable state a job id is known exactly when it names one of
      the last 1000 works installed, and it then finds that work. */
  lemma KnownJobs(cfg: Config, run: seq<Action>, id: string, w: Work)
    requires |run| < TWO64
    ensures var s := Exec(cfg, run).shared;
      Lookup(s.registry, id) == Some(w) <==>
        w.jobID == id && exists j :: 0 <= j < |s.history| && |s.history| - 1000 <= j && s.history[j].1 == w
  {
    hide Exec, Inv, Balanced, Sum, Represents, Lookup, CallsOk, ClientsOk, NoncesAssigned;
    ExecInv(cfg, run);
    InvShared(cfg, Exec(cfg, run), |run|);
    LookupIff(Exec(cfg, run).shared.registry, Exec(cfg, run).shared.history, id, w);
  }

  lemma NonceTextInjective(m: nat, n: nat)
    ensures Hex.Encode(StoreWord(AssignedNonce1(m))) == Hex.Encode(StoreWord(AssignedNonce1(n)))
      <==> m % TWO32 == n % TWO32
  {
    hide Hex.Encode, Hex.Decode, StoreWord;
    Hex.RoundTrip(StoreWord(AssignedNonce1(m)));
    Hex.RoundTrip(StoreWord(AssignedNonce1(n)));
    if Hex.Encode(StoreWord(AssignedNonce1(m))) == Hex.Encode(StoreWord(AssignedNonce1(n))) {
      StoreWordInjective(AssignedNonce1(m), AssignedNonce1(n));
    }
  }

  /** The n-th connection's extra nonce 1 is n modulo 2^32, as the hex of four
      little-endian bytes. */
  lemma ConnectionNonce(cfg: Config, run: seq<Action>, i: nat)
    requires |run| < TWO64 && i < |Exec(cfg, run).clients|
    ensures var bytes := Hex.Decode(Exec(cfg, run).clients[i].extraNonce1);
      bytes.Some? && |bytes.value| == 4 && BytesInt(bytes.value) == (i + 1) % 0x1_0000_0000
  {
    hide Exec, Inv, SharedOk, ClientsOk, Balanced, Sum, Hex.Encode, Hex.Decode, StoreWord, BytesInt;
    ExecInv(cfg, run);
    InvShared(cfg, Exec(cfg, run), |run|);
    Hex.RoundTrip(StoreWord(AssignedNonce1(i + 1)));
    StoreWordInt(AssignedNonce1(i + 1));
  }

  /** Two connections share an extra nonce 1 exactly when 2^32 or a multiple
      of it were made between them. */
  lemma ConnectionsDiffer(cfg: Config, run: seq<Action>, i: nat, j: nat)
    requires |run| < TWO64 && i < |Exec(cfg, run).clients| && j < |Exec(cfg, run).clients|
    ensures var cs := Exec(cfg, run).clients;
      cs[i].extraNonce1 == cs[j].extraNonce1 <==> (i + 1) % TWO32 == (j + 1) % TWO32
  {
    hide Exec, Inv, SharedOk, ClientsOk, Balanced, Sum, Hex.Encode, StoreWord, AssignedNonce1;
    ExecInv(cfg, run);
    InvShared(cfg, Exec(cfg, run), |run|);
    NonceTextInjective(i + 1, j + 1);
  }

  // ----- what the replies mean

  /** Why a submission is refused, in the order of the tests: fewer than five
      string parameters, another worker's name, an unknown job, or fields that
      do not decode or have the wrong size. */
  lemma RefusalCodes(cfg: Config, r: Registry, c: Client, params: Option<seq<string>>)
    ensures var o, five := Assess(cfg, r, c, params), params.Some? && |params.value| >= 5;
      && (!five ==> o == Refuse(21))
      && (five && params.value[0] != c.worker ==> o == Refuse(24))
      && (five && params.value[0] == c.worker && Lookup(r, params.value[1]).None? ==> o == Refuse(22))
      && (five && params.value[0] == c.worker && Lookup(r, params.value[1]).Some? && !o.Judged? ==> o == Refuse(21))
  {
    hide Hex.Decode, Judge, Solved, Lookup, WellSized;
  }

  /** The reply that an assessed submission calls for.  A refusal's code is sent;
      a hash above the share target is answered 20; a share that is no block is
      accepted; a block is accepted unless the node did not take it, which is
      answered 21. */
  predicate Deserves(cfg: Config, id: Long, o: Outcome, y: Reply) {
    hide HashInt, WordAt;
    match o
    case Refuse(code) => y == Err(id, code)
    case Judged(h, _) =>
      if HashInt(h) > cfg.shareTarget then y == Err(id, 20)
      else if HashInt(h) > cfg.compact(WordAt(h, 116)) then y == Ok(id)
      else y == Ok(id) || y == Err(id, 21)
  }

  /** The submission is being worked on, at a step that fits its assessment. */
  predicate Pending(cfg: Config, before: Client, id: Long, o: Outcome, c: Client) {
    hide HashInt, WordAt;
    && c.replies == before.replies && c.asked == before.asked + [id] && Waiting(c.pc)
    && o.Judged? && HashInt(o.header) <= cfg.shareTarget
    && if c.pc == RecordShare || c.pc == ReplyTrue(false) then HashInt(o.header) > cfg.compact(WordAt(o.header, 116))
       else HashInt(o.header) <= cfg.compact(WordAt(o.header, 116))
  }

  /** It has been answered, and whatever has been answered since comes after. */
  predicate Answers(cfg: Config, before: Client, id: Long, o: Outcome, c: Client) {
    && |before.replies| < |c.replies| && c.replies[..|before.replies|] == before.replies
    && Deserves(cfg, id, o, c.replies[|before.replies|])
  }

  predicate Underway(cfg: Config, before: Client, id: Long, o: Outcome, c: Client) {
    Pending(cfg, before, id, o, c) || Answers(cfg, before, id, o, c)
  }

  lemma SubmitUnderway(cfg: Config, s: Shared, c: Client, id: Long, params: Option<seq<string>>)
    ensures Underway(cfg, c, id, Assess(cfg, s.registry, c, params),
      Receive(cfg, s, c, Request(id, Submit, params)).1)
  {
    AssessAsked(cfg, s.registry, c, id, params);
    AssessJudges(cfg, s.registry, c, params);
    hide Assess, HashInt, WordAt;
  }

  predicate RightlyJudged(cfg: Config, o: Outcome) {
    hide HashInt, WordAt;
    o.Judged? ==> o.decision == EvaluateSubmit(HashInt(o.header), cfg.shareTarget, cfg.compact(WordAt(o.header, 116)))
  }

  lemma AssessJudges(cfg: Config, r: Registry, c: Client, params: Option<seq<string>>)
    ensures RightlyJudged(cfg, Assess(cfg, r, c, params))
  {
    hide Hex.Decode, Solved, Lookup, HashInt, WordAt;
  }

  lemma ProceedUnderway(cfg: Config, before: Client, id: Long, o: Outcome, s: Shared, c: Client, now: Word, answer: Answer)
    requires Underway(cfg, before, id, o, c) && CanProceed(s, c)
    ensures Underway(cfg, before, id, o, Proceed(s, c, now, answer).1)
  {
    hide HashInt, WordAt, T.After, T.Allows, U64, Installed, RefreshData, SubmissionText;
  }

  lemma ReceiveUnderway(cfg: Config, before: Client, id: Long, o: Outcome, s: Shared, c: Client, q: Request)
    requires Underway(cfg, before, id, o, c) && c.pc.Idle?
    ensures Underway(cfg, before, id, o, Receive(cfg, s, c, q).1)
  {
    hide Assess, Deserves;
  }

  lemma StepUnderway(cfg: Config, before: Client, id: Long, o: Outcome, p: Pool, i: nat, a: Action)
    requires i < |p.clients| && Underway(cfg, before, id, o, p.clients[i])
    ensures i < |Step(cfg, p, a).clients| && Underway(cfg, before, id, o, Step(cfg, p, a).clients[i])
  {
    hide Underway, Receive, Proceed, CanProceed, Put, Installed, Connected;
    match a
    case Connect =>
    case NewTemplate(data) =>
    case Message(j, q) =>
      if j < |p.clients| {
        PutClient(p, j, Receive(cfg, p.shared, p.clients[j], q), i);
        if j == i && p.clients[i].pc.Idle? { ReceiveUnderway(cfg, before, id, o, p.shared, p.clients[i], q); }
      }
    case Advance(j, now, answer) =>
      if j < |p.clients| && CanProceed(p.shared, p.clients[j]) {
        PutClient(p, j, Proceed(p.shared, p.clients[j], now, answer), i);
        if j == i { ProceedUnderway(cfg, before, id, o, p.shared, p.clients[i], now, answer); }
      }
  }

  lemma {:induction false} FromUnderway(cfg: Config, before: Client, id: Long, o: Outcome, p: Pool, i: nat, later: seq<Action>)
    requires i < |p.clients| && Underway(cfg, before, id, o, p.clients[i])
    ensures i < |From(cfg, p, later).clients| && Underway(cfg, before, id, o, From(cfg, p, later).clients[i])
    decreases |later|
  {
    hide Underway, Step;
    if later != [] {
      StepUnderway(cfg, before, id, o, p, i, later[0]);
      FromUnderway(cfg, before, id, o, Step(cfg, p, later[0]), i, later[1..]);
    }
  }

  /** Whatever happens after connection i, being free, sends mining.submit: its
      earlier replies stay, and the next one, sent by the time it is free again
      at the latest, is the one its submission deserves.  So it is an acceptance
      only if the header rebuilt from it hashes to at most the share target. */
  lemma SubmitReply(cfg: Config, p: Pool, i: nat, id: Long, params: Option<seq<string>>, later: seq<Action>)
    requires i < |p.clients| && p.clients[i].pc.Idle?
    ensures var q := From(cfg, Step(cfg, p, Message(i, Request(id, Submit, params))), later);
      i < |q.clients|
      && var c, d, o := p.clients[i], q.clients[i], Assess(cfg, p.shared.registry, p.clients[i], params);
      && c.replies <= d.replies && (d.pc.Idle? ==> |d.replies| > |c.replies|)
      && (|d.replies| > |c.replies| ==>
            var y := d.replies[|c.replies|];
            Deserves(cfg, id, o, y) && (y.Ok? ==> o.Judged? && HashInt(o.header) <= cfg.shareTarget))
  {
    hide Assess, HashInt, WordAt, Receive, From;
    var c, q := p.clients[i], Request(id, Submit, params);
    var o := Assess(cfg, p.shared.registry, c, params);
    SubmitUnderway(cfg, p.shared, c, id, params);
    FromUnderway(cfg, c, id, o, Step(cfg, p, Message(i, q)), i, later);
  }

  /** The reply each kind of request calls for; a line that does not parse is
      answered under id 0. */
  predicate RightReply(cfg: Config, r: Registry, c: Client, q: Request, y: Reply) {
    match q
    case Malformed => y == Err(0, 21)
    case Request(id, Subscribe, _) => y == Ok(id)
    case Request(id, Authorize, _) => y == if Granted(cfg, q) then Ok(id) else Err(id, 24)
    case Request(id, Submit, params) => Deserves(cfg, id, Assess(cfg, r, c, params), y)
    case Request(id, SuggestDifficulty, _) => y == Ok(id)
    case Request(id, Other, _) => y == Err(id, 21)
  }

  /** All but submissions are answered at once, and only an authorization that is
      granted changes the worker name. */
  lemma OtherReplies(cfg: Config, s: Shared, c: Client, q: Request)
    requires !(q.Request? && q.kind.Submit?)
    ensures var d := Receive(cfg, s, c, q).1;
      && d.pc.Idle? && d.asked == c.asked + [if q.Malformed? then 0 else q.id]
      && |d.replies| == |c.replies| + 1 && c.replies <= d.replies
      && RightReply(cfg, s.registry, c, q, d.replies[|c.replies|])
      && d.worker == if Granted(cfg, q) then q.params.value[0] else c.worker
  {
    hide Deserves, Assess;
  }

  // ----- a miner's submission

  function SubmitParams(worker: string, jobID: string, en2: seq<Byte>, ntime: seq<Byte>, nonce: Word): seq<string> {
    [worker, jobID, Hex.Encode(en2), Hex.Encode(ntime), Hex.Encode(StoreWord(nonce))]
  }

  /** A submission the pool reads back is judged on the rebuilt header. */
  lemma AssessSubmission(cfg: Config, r: Registry, c: Client, w: Work, en1: Word, en2: seq<Byte>,
                         ntime: seq<Byte>, nonce: Word)
    requires |en2| == 8 && |ntime| == 4 && Lookup(r, w.jobID) == Some(w)
    requires c.extraNonce1 == Hex.Encode(StoreWord(en1))
    ensures var h := Solved(w.data, StoreWord(en1), en2, ntime, StoreWord(nonce));
      Assess(cfg, r, c, Some(SubmitParams(c.worker, w.jobID, en2, ntime, nonce)))
        == Judged(h, Judge(h, cfg.shareTarget, cfg.compact))
  {
    hide Hex.Encode, Hex.Decode, StoreWord, Judge, Solved, Lookup;
    SubmittedFields(en2, ntime, nonce);
    Hex.RoundTrip(StoreWord(en1));
  }

  predicate HexDigits(s: string, n: nat) {
    |s| == n && forall i :: 0 <= i < n ==> Hex.DigitValue(s[i]).Some?
  }

  /** Exactly which submissions are judged rather than refused: five or more
      parameters, the connection's worker name, which is empty before the first
      authorization, a registered job, and sixteen, eight and eight hex digits. */
  lemma JudgedIff(cfg: Config, r: Registry, c: Client, params: Option<seq<string>>, en1: Word)
    requires c.extraNonce1 == Hex.Encode(StoreWord(en1))
    ensures Assess(cfg, r, c, params).Judged? <==>
      && params.Some? && |params.value| >= 5 && params.value[0] == c.worker && Lookup(r, params.value[1]).Some?
      && HexDigits(params.value[2], 16) && HexDigits(params.value[3], 8) && HexDigits(params.value[4], 8)
  {
    hide Hex.Encode, Hex.Decode, Hex.DigitValue, StoreWord, Judge, Solved, Lookup;
    Hex.RoundTrip(StoreWord(en1));
    if params.Some? && |params.value| >= 5 {
      Hex.DecodesIff(params.value[2]);
      Hex.DecodesIff(params.value[3]);
      Hex.DecodesIff(params.value[4]);
    }
  }

  /** The connection is free and asks to be authorized by this name, with the
      pool's password if there is one. */
  predicate Authorizes(cfg: Config, p: Pool, a: Action, i: nat, name: string) {
    a.Message? && a.client == i && i < |p.clients| && p.clients[i].pc.Idle? && Grants(cfg, a.request, name)
  }

  /** An authorization with a name and the pool's password, if there is one. */
  predicate Granted(cfg: Config, q: Request) {
    && q.Request? && q.kind.Authorize? && q.params.Some? && |q.params.value| >= 2
    && q.params.value[0] != "" && (cfg.password == "" || q.params.value[1] == cfg.password)
  }

  predicate Grants(cfg: Config, q: Request, name: string) {
    Granted(cfg, q) && q.params.value[0] == name
  }

  ghost predicate WasAuthorized(cfg: Config, run: seq<Action>, i: nat, name: string) {
    exists k :: 0 <= k < |run| && Authorizes(cfg, Exec(cfg, run[..k]), run[k], i, name)
  }

  lemma PutClient(p: Pool, j: nat, sc: (Shared, Client), i: nat)
    requires j < |p.clients|
    ensures |Put(p, j, sc).clients| == |p.clients|
    ensures i < |p.clients| ==> Put(p, j, sc).clients[i] == if i == j then sc.1 else p.clients[i]
  {
  }

  lemma ProceedKeepsWorker(s: Shared, c: Client, now: Word, answer: Answer)
    requires CanProceed(s, c)
    ensures Proceed(s, c, now, answer).1.worker == c.worker
  {
    hide T.After, T.Allows, U64, Installed, RefreshData, SubmissionText;
  }

  lemma ConnectedWorker(n: nat)
    ensures Connected(n).worker == ""
  {
    hide Hex.Encode;
  }

  lemma ReceiveKeepsWorker(cfg: Config, s: Shared, c: Client, q: Request)
    ensures var name := Receive(cfg, s, c, q).1.worker; name == c.worker || Grants(cfg, q, name)
  {
    hide Assess;
  }

  /** Only an accepted authorization changes a worker name. */
  lemma StepKeepsWorker(cfg: Config, p: Pool, a: Action, i: nat)
    requires i < |Step(cfg, p, a).clients|
    ensures var name := Step(cfg, p, a).clients[i].worker;
      || name == (if i < |p.clients| then p.clients[i].worker else "")
      || Authorizes(cfg, p, a, i, name)
  {
    hide Proceed, Receive, Installed, CanProceed, Connected, Grants, Put;
    match a
    case Connect => ConnectedWorker(|p.clients| + 1);
    case NewTemplate(data) =>
    case Message(j, q) =>
      if j < |p.clients| {
        ReceiveKeepsWorker(cfg, p.shared, p.clients[j], q);
        PutClient(p, j, Receive(cfg, p.shared, p.clients[j], q), i);
      }
    case Advance(j, now, answer) =>
      if j < |p.clients| && CanProceed(p.shared, p.clients[j]) {
        ProceedKeepsWorker(p.shared, p.clients[j], now, answer);
        PutClient(p, j, Proceed(p.shared, p.clients[j], now, answer), i);
      }
  }

  lemma AuthorizedEarlier(cfg: Config, run: seq<Action>, i: nat, name: string)
    requires run != [] && WasAuthorized(cfg, run[..|run| - 1], i, name)
    ensures WasAuthorized(cfg, run, i, name)
  {
    hide Exec, Authorizes;
    var s := run[..|run| - 1];
    var k :| 0 <= k < |s| && Authorizes(cfg, Exec(cfg, s[..k]), s[k], i, name);
    assert run[..k] == s[..k] && run[k] == s[k];
  }

  /** In every run a connection's worker name, the only one its submissions are
      judged under, is empty or was accepted in an authorization of its own. */
  lemma {:induction false} WorkerWasAuthorized(cfg: Config, run: seq<Action>, i: nat)
    requires i < |Exec(cfg, run).clients|
    ensures var name := Exec(cfg, run).clients[i].worker; name == "" || WasAuthorized(cfg, run, i, name)
    decreases |run|
  {
    hide Step, Authorizes;
    if run != [] {
      var s, a := run[..|run| - 1], run[|run| - 1];
      var name := Exec(cfg, run).clients[i].worker;
      StepKeepsWorker(cfg, Exec(cfg, s), a, i);
      if Authorizes(cfg, Exec(cfg, s), a, i, name) {
        assert run[..|run| - 1] == s;
      } else if i < |Exec(cfg, s).clients| {
        WorkerWasAuthorized(cfg, s, i);
        if name != "" { AuthorizedEarlier(cfg, run, i, name); }
      }
    }
  }

  /** End to end over every run: while the pool still has the job, whatever a
      connection's miner submits for it is judged on exactly the header the
      miner hashed.  At the same share target pool and miner agree whether it is
      a share, and on the whole verdict but for a negative block target. */
  lemma MinerSubmissionIsJudgedAlike(cfg: Config, run: seq<Action>, i: nat, job: Job, w: Work,
                                     en2: seq<Byte>, nonce: Word)
    requires |run| < TWO64 && i < |Exec(cfg, run).clients| && |en2| == 8
    requires Lookup(Exec(cfg, run).shared.registry, w.jobID) == Some(w)
    requires 0 <= cfg.shareTarget < TWO256 && -TWO256 < cfg.compact(WordAt(w.data, 116)) < TWO256
    requires JobFor(job, w, AssignedNonce1(i + 1), cfg.shareTarget, cfg.compact)
    ensures var p, h := Exec(cfg, run), Attempt(job.header, en2, nonce);
      var params := SubmitParams(p.clients[i].worker, job.jobID, en2, job.ntime, nonce);
      var o, block := Assess(cfg, p.shared.registry, p.clients[i], Some(params)), cfg.compact(WordAt(w.data, 116));
      && o.Judged? && o.header == h
      && (o.decision != Rejected <==> IsShare(job, h))
      && (o.decision == MinerVerdict(job, h)
          <==> block >= 0 || HashInt(h) > cfg.shareTarget || HashInt(h) > -block)
  {
    hide Exec, Inv, SharedOk, ClientsOk, Balanced, Sum, Hex.Encode, StoreWord, AssignedNonce1,
         Judge, MinerVerdict, IsShare, Solved, Attempt, Assess, ToTargetBytes, SendWork, JobHeader, Decodes, Lookup,
         SubmitParams, HashInt, WordAt;
    var p := Exec(cfg, run);
    var en1 := AssignedNonce1(i + 1);
    ExecInv(cfg, run);
    InvShared(cfg, p, |run|);
    AssessSubmission(cfg, p.shared.registry, p.clients[i], w, en1, en2, job.ntime, nonce);
    MinerAndPoolAgree(job, w, en1, en2, nonce, cfg.shareTarget, cfg.compact);
  }

  // ----- every request is finished

  /** Steps still to go. */
  function Rank(pc: Pc): nat {
    match pc
    case Idle => 0
    case RecordShare => 2
    case CountBlock(_) => 7
    case AskThrottle(_) => 6
    case RecordThrottled => 5
    case ReplyTrue(refresh) => if refresh then 4 else 1
    case CallNode(_) => 2
    case AwaitNode => 1
    case ReadCurrent => 2
    case Install(_) => 1
  }

  /** How many of the actions are turns of connection i. */
  function Turns(run: seq<Action>, i: nat): nat {
    if run == [] then 0 else Turns(run[1..], i) + (if run[0].Advance? && run[0].client == i then 1 else 0)
  }

  function From(cfg: Config, p: Pool, run: seq<Action>): Pool
    decreases |run|
  {
    if run == [] then p else From(cfg, Step(cfg, p, run[0]), run[1..])
  }

  lemma StepRank(cfg: Config, p: Pool, n: nat, i: nat, a: Action)
    requires Inv(cfg, p, n) && i < |p.clients| && !(a.Message? && a.client == i)
    ensures var q := Step(cfg, p, a);
      && i < |q.clients|
      && Rank(q.clients[i].pc) <= Rank(p.clients[i].pc)
      && (a.Advance? && a.client == i && !p.clients[i].pc.Idle? ==> Rank(q.clients[i].pc) < Rank(p.clients[i].pc))
  {
    hide Receive, T.After, T.Allows, Balanced, Solution, AnswersInOrder, Installed, RefreshData, Represents, CallsOk,
         NoncesAssigned, Sum, T.Calls;
    assert ClientOk(cfg, p.clients[i], p.shared.history);
    DivisorPositive(cfg, p, n);
  }

  lemma DivisorPositive(cfg: Config, p: Pool, n: nat)
    requires Inv(cfg, p, n)
    ensures p.shared.throttle.divisor > 0 && p.shared.registry.maxJobs == MAX_JOBS
  {
    hide T.Calls, T.Fresh, ClientsOk, NoncesAssigned, Represents, CallsOk, Sum;
    ThrottleCounts(cfg, p.shared.throttle);
  }

  /** Progress: seven turns finish a request, answer and refresh included,
      however the other connections' and the node's actions fall between them. */
  lemma {:induction false} TurnsFinish(cfg: Config, p: Pool, n: nat, i: nat, run: seq<Action>)
    requires Inv(cfg, p, n) && n + |run| < TWO64 && i < |p.clients|
    requires forall k :: 0 <= k < |run| ==> !(run[k].Message? && run[k].client == i)
    ensures i < |From(cfg, p, run).clients|
    ensures Turns(run, i) >= Rank(p.clients[i].pc) || Turns(run, i) >= 7 ==> From(cfg, p, run).clients[i].pc.Idle?
    decreases |run|
  {
    hide Inv, Step;
    if run != [] {
      StepInv(cfg, p, n, run[0]);
      StepRank(cfg, p, n, i, run[0]);
      assert forall k :: 0 <= k < |run| - 1 ==> run[1..][k] == run[k + 1];
      TurnsFinish(cfg, Step(cfg, p, run[0]), n + 1, i, run[1..]);
    }
  }

  // ----- a refresh is two separate accesses

  /** Alike up to the timestamp: height, previous hash, bits and the rest. */
  predicate SameTemplate(a: Blob, b: Blob) {
    a[..136] == b[..136] && a[140..] == b[140..]
  }

  /** The work read is the work refreshed: installing its rolled copy keeps the
      template then current exactly when that is still the template read. */
  lemma SplitRefreshKeepsTemplateIff(s: Shared, w: Work, now: Word)
    requires s.registry.maxJobs > 0 && s.registry.current.Some?
    ensures var before := s.registry.current.value.data;
      var after := Installed(s, RefreshData(w, now)).registry.current;
      && after.Some? && SameTemplate(after.value.data, w.data)
      && (SameTemplate(after.value.data, before) <==> SameTemplate(w.data, before))
  {
    hide RefreshTime, Refreshed, Decimal, NewJobs, NewOrder, WordAt, Extend, U64;
    RefreshedFields(w.data, RefreshTime(WordAt(w.data, 136), now));
  }

  /** The node's new template arriving between the two accesses of a refresh is
      replaced by the template it superseded, unless the two are the same. */
  lemma StaleRefreshRollsBack(cfg: Config, p: Pool, i: nat, b: Blob, now: Word, answer: Answer)
    requires i < |p.clients| && CanProceed(p.shared, p.clients[i])
    requires p.clients[i].pc.ReadCurrent? && p.shared.registry.current.Some?
    ensures var stale := p.shared.registry.current.value.data;
      var mid := From(cfg, p, [Advance(i, now, answer), NewTemplate(b)]).shared.registry.current;
      var end := From(cfg, p, [Advance(i, now, answer), NewTemplate(b), Advance(i, now, answer)]).shared.registry.current;
      && mid.Some? && mid.value.data == b
      && end.Some? && SameTemplate(end.value.data, stale)
      && (SameTemplate(end.value.data, b) <==> SameTemplate(stale, b))
  {
    hide RefreshData, Set, Extend, SameTemplate, Receive, T.After, T.Allows;
    var read, template := Advance(i, now, answer), NewTemplate(b);
    var w := p.shared.registry.current.value;
    var p1 := Step(cfg, p, read);
    var p2 := Step(cfg, p1, template);
    var p3 := Step(cfg, p2, read);
    FromThree(cfg, p, read, template, read);
    SetInstalls(p1.shared.registry, b);
    assert p2.clients[i].pc == Install(RefreshData(w, now));
    assert p3.shared == Installed(p2.shared, RefreshData(w, now));
    SplitRefreshKeepsTemplateIff(p2.shared, w, now);
  }

  lemma FromThree(cfg: Config, p: Pool, a: Action, b: Action, c: Action)
    ensures From(cfg, p, [a, b]) == Step(cfg, Step(cfg, p, a), b)
    ensures From(cfg, p, [a, b, c]) == Step(cfg, Step(cfg, Step(cfg, p, a), b), c)
  {
    hide Step;
    var q := Step(cfg, p, a);
    assert [a, b][1..] == [b] && [b][1..] == [] && [a, b, c][1..] == [b, c] && [b, c][1..] == [c] && [c][1..] == [];
    assert From(cfg, Step(cfg, q, b), []) == Step(cfg, q, b);
    assert From(cfg, q, [b]) == Step(cfg, q, b);
    assert From(cfg, Step(cfg, q, b), [c]) == Step(cfg, Step(cfg, q, b), c);
    assert From(cfg, q, [b, c]) == From(cfg, Step(cfg, q, b), [c]);
  }

  /** After any call with data of the right length that data is current. */
  lemma SetInstalls(r: Registry, data: Blob)
    requires r.maxJobs > 0
    ensures Set(r, data).current.Some? && Set(r, data).current.value.data == data && Set(r, data).maxJobs == r.maxJobs
  {
    hide Decimal, NewJobs, NewOrder, WordAt, U64;
  }

  // ----- when the current work is the node's latest template

  predicate Delivers(a: Action) {
    a.NewTemplate? && |a.data| == 192
  }

  /** The template the node delivered last. */
  function LastTemplate(run: seq<Action>): Option<Blob> {
    if run == [] then None
    else
      var a := run[|run| - 1];
      if Delivers(a) then
        var b: Blob := a.data;
        Some(b)
      else LastTemplate(run[..|run| - 1])
  }

  predicate NoneInstalling(cs: seq<Client>) {
    forall i :: 0 <= i < |cs| ==> !cs[i].pc.Install?
  }

  /** No template arrives while a refresh is between its two accesses. */
  predicate Calm(cfg: Config, run: seq<Action>) {
    run == [] ||
    var s, a := run[..|run| - 1], run[|run| - 1];
    Calm(cfg, s) && (Delivers(a) ==> NoneInstalling(Exec(cfg, s).clients))
  }

  predicate OfTemplate(data: Blob, t: Option<Blob>) {
    t.Some? && SameTemplate(data, t.value)
  }

  /** The current work and every refresh under way are of template `t`. */
  predicate Follows(p: Pool, t: Option<Blob>) {
    && p.shared.registry.maxJobs > 0
    && (p.shared.registry.current.None? <==> t.None?)
    && (p.shared.registry.current.Some? ==> OfTemplate(p.shared.registry.current.value.data, t))
    && forall i :: 0 <= i < |p.clients| && p.clients[i].pc.Install? ==> OfTemplate(p.clients[i].pc.data, t)
  }

  lemma RolledIsSameTemplate(w: Work, now: Word, t: Option<Blob>)
    requires OfTemplate(w.data, t)
    ensures OfTemplate(RefreshData(w, now), t)
  {
    hide Refreshed, RefreshTime, WordAt;
    RefreshedFields(w.data, RefreshTime(WordAt(w.data, 136), now));
  }

  /** What one connection's turn does to the current work and its own refresh. */
  lemma ProceedFollows(s: Shared, c: Client, now: Word, answer: Answer, t: Option<Blob>)
    requires CanProceed(s, c) && (s.registry.current.None? <==> t.None?)
    requires s.registry.current.Some? ==> OfTemplate(s.registry.current.value.data, t)
    requires c.pc.Install? ==> OfTemplate(c.pc.data, t)
    ensures var n := Proceed(s, c, now, answer);
      && n.0.registry.maxJobs > 0
      && (n.0.registry.current.None? <==> t.None?)
      && (n.0.registry.current.Some? ==> OfTemplate(n.0.registry.current.value.data, t))
      && (n.1.pc.Install? ==> OfTemplate(n.1.pc.data, t))
  {
    hide OfTemplate, Set, Extend, RefreshData, T.After, T.Allows, U64, SubmissionText;
    if c.pc.Install? {
      SetInstalls(s.registry, c.pc.data);
      HasTemplate(c.pc.data, t);
    } else if c.pc.ReadCurrent? && s.registry.current.Some? {
      RolledIsSameTemplate(s.registry.current.value, now, t);
    }
  }

  lemma HasTemplate(data: Blob, t: Option<Blob>)
    requires OfTemplate(data, t)
    ensures t.Some?
  {
  }

  lemma ReceiveFollows(cfg: Config, s: Shared, c: Client, q: Request)
    ensures var n := Receive(cfg, s, c, q); n.0.registry == s.registry && !n.1.pc.Install?
  {
    hide Assess;
  }

  lemma StepFollows(cfg: Config, p: Pool, a: Action, t: Option<Blob>)
    requires Follows(p, t) && !Delivers(a)
    ensures Follows(Step(cfg, p, a), t)
  {
    hide OfTemplate, Proceed, Receive, Extend, NewJobs, NewOrder, NextWork, U64, Connected, CanProceed;
    match a
    case Connect => ConnectedNonce(|p.clients| + 1);
    case NewTemplate(data) =>
    case Message(i, q) =>
      if i < |p.clients| { ReceiveFollows(cfg, p.shared, p.clients[i], q); }
    case Advance(i, now, answer) =>
      if i < |p.clients| && CanProceed(p.shared, p.clients[i]) {
        ProceedFollows(p.shared, p.clients[i], now, answer, t);
      }
  }

  lemma DeliveryFollows(cfg: Config, p: Pool, b: Blob)
    requires p.shared.registry.maxJobs > 0 && NoneInstalling(p.clients)
    ensures Follows(Step(cfg, p, NewTemplate(b)), Some(b))
  {
    hide Set, Extend;
    SetInstalls(p.shared.registry, b);
  }

  /** When every template arrives with no refresh between its two accesses, the
      current work is always the node's latest template, up to the timestamp. */
  lemma {:induction false} CurrentIsLatest(cfg: Config, run: seq<Action>)
    requires Calm(cfg, run)
    ensures Follows(Exec(cfg, run), LastTemplate(run))
    decreases |run|
  {
    hide Step, Follows, NoneInstalling;
    if run == [] {
      StartFollows(cfg);
    } else {
      var s, a := run[..|run| - 1], run[|run| - 1];
      CurrentIsLatest(cfg, s);
      if Delivers(a) {
        FollowsBound(Exec(cfg, s), LastTemplate(s));
        DeliveryFollows(cfg, Exec(cfg, s), a.data);
      } else {
        StepFollows(cfg, Exec(cfg, s), a, LastTemplate(s));
      }
    }
  }

  predicate NoDelivery(run: seq<Action>) {
    forall k :: 0 <= k < |run| ==> !Delivers(run[k])
  }

  /** The current work is of template `t`, or there is neither. */
  predicate CurrentIs(p: Pool, t: Option<Blob>) {
    && (p.shared.registry.current.None? <==> t.None?)
    && (p.shared.registry.current.Some? ==> OfTemplate(p.shared.registry.current.value.data, t))
  }

  lemma {:induction false} FollowsFrom(cfg: Config, p: Pool, t: Option<Blob>, later: seq<Action>)
    requires Follows(p, t) && NoDelivery(later)
    ensures Follows(From(cfg, p, later), t)
    decreases |later|
  {
    hide Follows, Step, Delivers;
    if later != [] {
      StepFollows(cfg, p, later[0], t);
      assert forall k :: 0 <= k < |later| - 1 ==> later[1..][k] == later[k + 1];
      FollowsFrom(cfg, Step(cfg, p, later[0]), t, later[1..]);
    }
  }

  /** A refresh that is under way can always be the next to install. */
  lemma InstallIsNext(cfg: Config, p: Pool, n: nat, i: nat, a: Action)
    requires Inv(cfg, p, n) && i < |p.clients| && p.clients[i].pc.Install? && a == Advance(i, 0, Accepted)
    ensures var q := From(cfg, p, [a]);
      q.shared.registry.current.Some? && q.shared.registry.current.value.data == p.clients[i].pc.data
  {
    hide Set, Extend, Receive, T.After, T.Allows, Balanced, Solution, AnswersInOrder, Represents, CallsOk,
         NoncesAssigned, Sum, T.Calls;
    assert ClientOk(cfg, p.clients[i], p.shared.history);
    DivisorPositive(cfg, p, n);
    SetInstalls(p.shared.registry, p.clients[i].pc.data);
    assert From(cfg, p, [a]) == From(cfg, Step(cfg, p, a), [a][1..]);
  }

  /** Exactly when the current work keeps to a template until the next delivery,
      whatever the connections do: when it is of that template now and so is
      every refresh under way. */
  lemma CurrentStaysIff(cfg: Config, run: seq<Action>, t: Option<Blob>)
    requires |run| < TWO64
    ensures (forall later :: NoDelivery(later) ==> CurrentIs(From(cfg, Exec(cfg, run), later), t))
      <==> Follows(Exec(cfg, run), t)
  {
    hide Exec, Inv, From, NoDelivery, OfTemplate;
    var p := Exec(cfg, run);
    ExecInv(cfg, run);
    DivisorPositive(cfg, p, |run|);
    if Follows(p, t) {
      forall later | NoDelivery(later) ensures CurrentIs(From(cfg, p, later), t) {
        FollowsFrom(cfg, p, t, later);
      }
    }
    if forall later :: NoDelivery(later) ==> CurrentIs(From(cfg, p, later), t) {
      Standstill(cfg, p);
      assert NoDelivery([]);
      forall i | 0 <= i < |p.clients| && p.clients[i].pc.Install? ensures OfTemplate(p.clients[i].pc.data, t) {
        var a := Advance(i, 0, Accepted);
        OneTurn(a);
        InstallIsNext(cfg, p, |run|, i, a);
        assert NoDelivery([a]);
      }
    }
  }

  lemma Standstill(cfg: Config, p: Pool)
    ensures From(cfg, p, []) == p && NoDelivery([])
  {
  }

  lemma OneTurn(a: Action)
    requires a.Advance?
    ensures NoDelivery([a])
  {
  }

  lemma StartFollows(cfg: Config)
    ensures Follows(Start(cfg), None)
  {
  }

  lemma FollowsBound(p: Pool, t: Option<Blob>)
    requires Follows(p, t)
    ensures p.shared.registry.maxJobs > 0
  {
  }

  // ----- such a refresh is reachable

  lemma ExecStep(cfg: Config, run: seq<Action>, a: Action)
    ensures Exec(cfg, run + [a]) == Step(cfg, Exec(cfg, run), a)
  {
    hide Step;
    assert (run + [a])[..|run|] == run;
  }

  /** One connection, with work `w` current and not every block submitted. */
  predicate Solo(p: Pool, w: Work) {
    && |p.clients| == 1 && p.clients[0].worker == "m" && p.clients[0].extraNonce1 == Hex.Encode(StoreWord(1))
    && p.shared.registry.maxJobs > 0 && p.shared.throttle.divisor >= 2
    && Lookup(p.shared.registry, w.jobID) == Some(w) && p.shared.registry.current == Some(w)
  }

  /** The connection submits a block and asks the throttle. */
  lemma SoloSubmits(cfg: Config, p: Pool, w: Work, q: Request, h: Header)
    requires Solo(p, w) && p.clients[0].pc.Idle? && q.Request? && q.kind.Submit?
    requires Assess(cfg, p.shared.registry, p.clients[0], q.params) == Judged(h, SubmitBlock)
    ensures var turn := Advance(0, 0, Accepted);
      var r := Step(cfg, Step(cfg, Step(cfg, p, Message(0, q)), turn), turn);
      && Solo(r, w) && r.clients[0].asked != [] && r.shared.throttle == T.After(p.shared.throttle)
      && r.clients[0].pc == (if T.Allows(p.shared.throttle) then CallNode(h) else RecordThrottled)
  {
    hide Assess, T.Allows, U64, Hex.Encode, StoreWord, Lookup;
    var turn := Advance(0, 0, Accepted);
    AssessAsked(cfg, p.shared.registry, p.clients[0], q.id, q.params);
    var p1 := Step(cfg, p, Message(0, q));
    assert p1.clients[0].pc == CountBlock(h);
    var p2 := Step(cfg, p1, turn);
    assert p2.clients[0].pc == AskThrottle(h);
    AfterDivisor(p.shared.throttle);
  }

  lemma AssessAsked(cfg: Config, r: Registry, c: Client, id: Long, params: Option<seq<string>>)
    ensures Assess(cfg, r, Asked(c, id), params) == Assess(cfg, r, c, params)
  {
    hide Hex.Decode, Lookup, Judge, Solved;
  }

  lemma AfterDivisor(t: T.State)
    requires t.divisor > 0
    ensures T.After(t).divisor == t.divisor
  {
    hide T.Allows, U64;
  }

  /** The connection calls the node or is about to refresh. */
  lemma SoloMovesOn(cfg: Config, p: Pool, w: Work)
    requires Solo(p, w) && p.clients[0].asked != []
    requires p.clients[0].pc.CallNode? || p.clients[0].pc.RecordThrottled?
    ensures var turn := Advance(0, 0, Accepted);
      var r := Step(cfg, Step(cfg, p, turn), turn);
      && Solo(r, w) && r.clients[0].asked != [] && r.shared.throttle == p.shared.throttle
      && r.clients[0].pc == (if p.clients[0].pc.CallNode? then Idle else ReadCurrent)
  {
    hide U64, Hex.Encode, StoreWord, Lookup, SubmissionText, T.After, T.Allows, Installed, RefreshData, Receive;
  }

  /** The connection's first request: it authorizes as worker "m". */
  function Login(cfg: Config): Action {
    Message(0, Request(0, Authorize, Some(["m", cfg.password])))
  }

  lemma SoloStarts(cfg: Config, a: Blob) returns (w: Work)
    requires cfg.divisor >= 2
    ensures w.data == a
    ensures var p := Step(cfg, Step(cfg, Step(cfg, Start(cfg), Connect), NewTemplate(a)), Login(cfg));
      && Solo(p, w) && p.clients[0].pc.Idle? && p.shared.throttle == T.Fresh(cfg.divisor)
  {
    hide Hex.Encode, StoreWord, Set, Extend, Lookup, T.Fresh, New, Submitted, Proceed, Connected, AssignedNonce1;
    w := FirstWork(a);
    SoloConnects(cfg);
    ConnectedNonce(1);
    NonceOne();
    FreshDivisor(cfg.divisor);
  }

  lemma SoloConnects(cfg: Config)
    ensures var p := Step(cfg, Start(cfg), Connect);
      p.clients == [Connected(1)] && p.shared == Start(cfg).shared
  {
    hide New, T.Fresh, Installed, Receive, Proceed, CanProceed, Put, Connected;
    assert [] + [Connected(1)] == [Connected(1)];
  }

  lemma FirstWork(a: Blob) returns (w: Work)
    ensures w.data == a && New(MAX_JOBS).maxJobs > 0
    ensures var r := Set(New(MAX_JOBS), a);
      r.current == Some(w) && Lookup(r, w.jobID) == Some(w) && r.maxJobs == MAX_JOBS
  {
    hide U64, Decimal, WordAt;
    w := NextWork(New(MAX_JOBS), a);
  }

  lemma FreshDivisor(divisor: Word)
    requires divisor >= 2
    ensures T.Fresh(divisor).divisor == divisor
  {
  }

  lemma NonceOne()
    ensures AssignedNonce1(1) == 1
  {
  }

  lemma SecondIsThrottled(divisor: Word)
    requires divisor >= 2
    ensures T.Allows(T.Fresh(divisor)) && !T.Allows(T.After(T.Fresh(divisor)))
  {
    SmallRest(1, divisor);
    if divisor > 2 { SmallRest(2, divisor); }
  }

  lemma SmallRest(x: nat, d: nat)
    requires x < d
    ensures x % d == x
  {
    DivUnique(x, d, 0, x);
  }

  /** One round of the connection: it submits `h`, which the throttle lets through
      or not, and goes on until it is idle or about to refresh. */
  lemma SoloRound(cfg: Config, before: seq<Action>, w: Work, q: Request, h: Header) returns (run: seq<Action>)
    requires var p := Exec(cfg, before);
      && Solo(p, w) && p.clients[0].pc.Idle? && q.Request? && q.kind.Submit?
      && Assess(cfg, p.shared.registry, p.clients[0], q.params) == Judged(h, SubmitBlock)
    ensures var p, r := Exec(cfg, before), Exec(cfg, run);
      && Solo(r, w) && r.clients[0].asked != [] && r.shared.throttle == T.After(p.shared.throttle)
      && r.clients[0].pc == (if T.Allows(p.shared.throttle) then Idle else ReadCurrent)
  {
    hide Step, Exec, Solo, Assess, T.Allows, T.After;
    var turn := Advance(0, 0, Accepted);
    SoloSubmits(cfg, Exec(cfg, before), w, q, h);
    ExecThree(cfg, before, Message(0, q), turn, turn);
    run := before + [Message(0, q)] + [turn] + [turn];
    SoloHasClient(Exec(cfg, run), w);
    SoloMovesOn(cfg, Exec(cfg, run), w);
    ExecStep(cfg, run, turn);
    ExecStep(cfg, run + [turn], turn);
    run := run + [turn] + [turn];
    SoloHasClient(Exec(cfg, run), w);
  }

  lemma SoloHasClient(p: Pool, w: Work)
    requires Solo(p, w)
    ensures |p.clients| == 1
  {
  }

  /** For every template and every configuration that throttles and under which
      the template can be solved, a run leaves a connection just before a refresh
      of that template. */
  lemma RefreshIsReached(cfg: Config, a: Blob, en2: seq<Byte>, ts: seq<Byte>, nonce: Word) returns (run: seq<Action>)
    requires cfg.divisor >= 2 && |en2| == 8 && |ts| == 4
    requires IsBlock(cfg, Solved(a, StoreWord(1), en2, ts, StoreWord(nonce)))
    ensures var p := Exec(cfg, run);
      && |p.clients| == 1 && CanProceed(p.shared, p.clients[0]) && p.clients[0].pc.ReadCurrent?
      && p.shared.registry.current.Some? && p.shared.registry.current.value.data == a
  {
    hide Step, Exec, Hex.Encode, StoreWord, Judge, Solved, Assess, Lookup, T.Allows, T.After, T.Fresh, Start, SubmitParams,
         Login;
    var h := Solved(a, StoreWord(1), en2, ts, StoreWord(nonce));
    var w := SoloStarts(cfg, a);
    var q := Request(0, Submit, Some(SubmitParams("m", w.jobID, en2, ts, nonce)));
    run := [] + [Connect] + [NewTemplate(a)] + [Login(cfg)];
    SecondIsThrottled(cfg.divisor);
    ExecThree(cfg, [], Connect, NewTemplate(a), Login(cfg));
    ExecNothing(cfg);
    AssessSubmission(cfg, Exec(cfg, run).shared.registry, Exec(cfg, run).clients[0], w, 1, en2, ts, nonce);
    run := SoloRound(cfg, run, w, q, h);
    AssessSubmission(cfg, Exec(cfg, run).shared.registry, Exec(cfg, run).clients[0], w, 1, en2, ts, nonce);
    run := SoloRound(cfg, run, w, q, h);
  }

  lemma ExecNothing(cfg: Config)
    ensures Exec(cfg, []) == Start(cfg)
  {
  }

  lemma ExecThree(cfg: Config, run: seq<Action>, a: Action, b: Action, c: Action)
    ensures Exec(cfg, run + [a] + [b] + [c]) == Step(cfg, Step(cfg, Step(cfg, Exec(cfg, run), a), b), c)
  {
    hide Step, Exec;
    ExecStep(cfg, run, a);
    ExecStep(cfg, run + [a], b);
    ExecStep(cfg, run + [a] + [b], c);
  }

  /** So a refresh can undo a new template, wherever that template can be solved
      and solutions are throttled: there is a run in which the node delivers `b`
      last and yet `a` is current again. */
  lemma RefreshCanUndoTemplate(cfg: Config, a: Blob, b: Blob, en2: seq<Byte>, ts: seq<Byte>, nonce: Word)
    returns (run: seq<Action>)
    requires cfg.divisor >= 2 && |en2| == 8 && |ts| == 4
    requires IsBlock(cfg, Solved(a, StoreWord(1), en2, ts, StoreWord(nonce)))
    ensures var given := Exec(cfg, run + [NewTemplate(b)]).shared.registry.current;
      var end := Exec(cfg, run + [NewTemplate(b)] + [Advance(0, 0, Accepted)]).shared.registry.current;
      && given.Some? && given.value.data == b
      && end.Some? && SameTemplate(end.value.data, a)
  {
    hide Step, SameTemplate, Exec, From, CanProceed, Judge, Solved, StoreWord;
    var turn := Advance(0, 0, Accepted);
    var before := RefreshIsReached(cfg, a, en2, ts, nonce);
    StaleRefreshRollsBack(cfg, Exec(cfg, before), 0, b, 0, Accepted);
    FromThree(cfg, Exec(cfg, before), turn, NewTemplate(b), turn);
    ExecThree(cfg, before, turn, NewTemplate(b), turn);
    ExecStep(cfg, before, turn);
    ExecStep(cfg, before + [turn], NewTemplate(b));
    run := before + [turn];
  }

  /** Every template can be solved under some configuration. */
  lemma SomeConfigSolves(a: Blob, en2: seq<Byte>, ts: seq<Byte>, nonce: Word) returns (cfg: Config)
    requires |en2| == 8 && |ts| == 4
    ensures cfg.divisor >= 2 && IsBlock(cfg, Solved(a, StoreWord(1), en2, ts, StoreWord(nonce)))
  {
    hide HashInt, Solved, StoreWord, WordAt;
    var n := HashInt(Solved(a, StoreWord(1), en2, ts, StoreWord(nonce)));
    cfg := Config(n, _ => n, 2, "");
  }
}
