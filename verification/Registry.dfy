/** The current work and the bounded registry of recent jobs. */
module Registry {
  import opened Words
  import opened Wrappers
  import opened Headers

  // ----- job identifiers

  /** strconv.FormatUint(n, 10). */
  function Decimal(n: nat): (s: string)
    ensures |s| > 0
  {
    if n < 10 then ['0' + n as char] else Decimal(n / 10) + ['0' + (n % 10) as char]
  }

  function Undecimal(s: string): int {
    if s == "" then 0 else 10 * Undecimal(s[..|s| - 1]) + (s[|s| - 1] as int - '0' as int)
  }

  lemma {:induction false} DecimalRoundTrip(n: nat)
    ensures Undecimal(Decimal(n)) == n
    decreases n
  {
    var s := Decimal(n);
    if n < 10 {
      assert s[..|s| - 1] == "";
    } else {
      DecimalRoundTrip(n / 10);
      assert s[..|s| - 1] == Decimal(n / 10);
    }
  }

  /** Different numbers print differently. */
  lemma DecimalInjective(m: nat, n: nat)
    requires Decimal(m) == Decimal(n)
    ensures m == n
  {
    DecimalRoundTrip(m);
    DecimalRoundTrip(n);
  }

  lemma DecimalExamples()
    ensures Decimal(7) == "7" && Decimal(10) == "10" && Decimal(1234) == "1234"
  {
    assert Decimal(12) == "12";
    assert Decimal(123) == "123";
  }

  // ----- the registry as a value

  datatype Registry = Registry(current: Option<Work>, jobs: map<string, Work>, order: seq<string>,
                               counter: Long, maxJobs: nat)

  function New(maxJobs: nat): Registry {
    Registry(None, map[], [], 0, maxJobs)
  }

  /** Data equal to the current template is ignored; other data takes the next
      number, and is installed if it has the right length. */
  predicate Ignored(r: Registry, data: seq<Byte>) {
    r.current.Some? && r.current.value.data == data
  }

  predicate Installs(r: Registry, data: seq<Byte>) {
    !Ignored(r, data) && |data| == 192
  }

  function NextWork(r: Registry, data: Blob): Work {
    Work(Decimal(U64(r.counter as int + 1)), WordAt(data, 128), data)
  }

  predicate Evicts(r: Registry) {
    |r.order| >= r.maxJobs
  }

  function NewJobs(r: Registry, w: Work): map<string, Work>
    requires r.maxJobs > 0
  {
    (if Evicts(r) then r.jobs - {r.order[0]} else r.jobs)[w.jobID := w]
  }

  function NewOrder(r: Registry, id: string): seq<string>
    requires r.maxJobs > 0
  {
    (if Evicts(r) then r.order[1..] else r.order) + [id]
  }

  function Set(r: Registry, data: seq<Byte>): Registry
    requires r.maxJobs > 0
  {
    if Ignored(r, data) then r
    else
      var s := r.(counter := U64(r.counter as int + 1));
      if |data| != 192 then s
      else
        var w := NextWork(r, data);
        s.(current := Some(w), order := NewOrder(r, w.jobID), jobs := NewJobs(r, w))
  }

  class WorkManager {
    var current: Option<Work>
    var jobs: map<string, Work>
    var order: seq<string>
    var counter: Long
    const maxJobs: nat

    constructor (maxJobs: nat)
      ensures View() == New(maxJobs)
    {
      current, jobs, order, counter, this.maxJobs := None, map[], [], 0, maxJobs;
    }

    ghost function View(): Registry
      reads this
    {
      Registry(current, jobs, order, counter, maxJobs)
    }

    /** `newParent` is whether the reason given was a new parent block. */
    method SetCurrent(data: seq<Byte>, newParent: bool) returns (work: Option<Work>, clean: bool)
      requires maxJobs > 0
      modifies this
      ensures View() == Set(old(View()), data) && work == current
      ensures old(current).Some? && old(current).value.data == data ==> View() == old(View()) && !clean
      ensures clean <==> newParent && |data| == 192 && !(old(current).Some? && old(current).value.data == data)
    {
      if current.Some? && current.value.data == data {
        return current, false;
      }
      counter := U64(counter as int + 1);
      var w := Headers.NewWork(data, Decimal(counter));
      if w.None? {
        return current, false;
      }
      current := w;
      if |order| >= maxJobs {
        var oldest := order[0];
        order := order[1..];
        jobs := jobs - {oldest};
      }
      order := order + [w.value.jobID];
      jobs := jobs[w.value.jobID := w.value];
      return w, newParent;
    }

    method Current() returns (w: Option<Work>)
      ensures w == View().current
    {
      return current;
    }

    method Job(jobID: string) returns (w: Option<Work>)
      ensures w == Lookup(View(), jobID)
    {
      return if jobID in jobs then Some(jobs[jobID]) else None;
    }
  }

  /** What a call does.  The current work's own data changes nothing at all; other
      data uses up a number and, if it has 192 bytes, becomes the current work. */
  lemma SetCases(r: Registry, data: seq<Byte>)
    requires r.maxJobs > 0
    ensures var s, same := Set(r, data), r.current.Some? && r.current.value.data == data;
      && (same ==> s == r)
      && (!same && |data| != 192 ==> s == r.(counter := (r.counter + 1) % 0x1_0000_0000_0000_0000))
      && (!same && |data| == 192 ==>
            && s.counter == (r.counter + 1) % 0x1_0000_0000_0000_0000
            && s.current == Some(Work(Decimal(s.counter), WordAt(data, 128), data)))
  {
    hide Decimal, WordAt, NewJobs, NewOrder;
  }

  function Lookup(r: Registry, jobID: string): Option<Work> {
    if jobID in r.jobs then Some(r.jobs[jobID]) else None
  }

  // ----- refinement: the registry is the tail of the full history

  /** Every work ever installed, with the number that named it. */
  type History = seq<(nat, Work)>

  /** How many of the newest works are kept. */
  function Kept(h: History, maxJobs: nat): nat {
    if |h| < maxJobs then |h| else maxJobs
  }

  /** The names used are the increasing numbers printed. */
  ghost predicate Named(h: History, counter: nat) {
    && (forall i :: 0 <= i < |h| ==> h[i].1.jobID == Decimal(h[i].0) && 0 < h[i].0 <= counter)
    && (forall i, j :: 0 <= i < j < |h| ==> h[i].0 < h[j].0)
  }

  /** The order list names the newest works, oldest first. */
  ghost predicate OrderIs(order: seq<string>, h: History, maxJobs: nat) {
    && |order| == Kept(h, maxJobs)
    && forall i :: 0 <= i < |order| ==> order[i] == h[|h| - |order| + i].1.jobID
  }

  /** The n newest works are in the map under their names. */
  ghost predicate JobsHold(jobs: map<string, Work>, h: History, n: nat)
    requires n <= |h|
  {
    forall i :: |h| - n <= i < |h| ==> h[i].1.jobID in jobs && jobs[h[i].1.jobID] == h[i].1
  }

  predicate Listed(jobs: map<string, Work>, order: seq<string>) {
    forall id :: id in jobs ==> id in order
  }

  function Latest(h: History): Option<Work> {
    if h == [] then None else Some(h[|h| - 1].1)
  }

  /** No work repeats the data of the one before it. */
  ghost predicate Varied(h: History) {
    forall i :: 0 < i < |h| ==> h[i].1.data != h[i - 1].1.data
  }

  ghost predicate Represents(r: Registry, h: History) {
    && Varied(h)
    && r.maxJobs > 0 && Named(h, r.counter) && r.current == Latest(h)
    && OrderIs(r.order, h, r.maxJobs) && JobsHold(r.jobs, h, |r.order|) && Listed(r.jobs, r.order)
  }

  function Extend(r: Registry, h: History, data: seq<Byte>): History {
    if Installs(r, data) then h + [(r.counter + 1, NextWork(r, data))] else h
  }

  /** No job id is ever reused. */
  lemma NamesDistinct(h: History, counter: nat, i: nat, j: nat)
    requires Named(h, counter) && i < |h| && j < |h| && h[i].1.jobID == h[j].1.jobID
    ensures i == j
  {
    DecimalInjective(h[i].0, h[j].0);
  }

  lemma NextNameIsNew(h: History, counter: nat, i: nat)
    requires Named(h, counter) && i < |h|
    ensures h[i].1.jobID != Decimal(counter + 1)
  {
    if h[i].1.jobID == Decimal(counter + 1) {
      DecimalInjective(h[i].0, counter + 1);
    }
  }

  lemma NamedExtends(h: History, counter: nat, w: Work)
    requires Named(h, counter) && w.jobID == Decimal(counter + 1)
    ensures Named(h + [(counter + 1, w)], counter + 1)
  {
    hide Decimal;
  }

  lemma OrderExtends(r: Registry, h: History, n: nat, w: Work)
    requires r.maxJobs > 0 && OrderIs(r.order, h, r.maxJobs)
    ensures OrderIs(NewOrder(r, w.jobID), h + [(n, w)], r.maxJobs)
  {
    var g, order := h + [(n, w)], NewOrder(r, w.jobID);
    var off := if Evicts(r) then 1 else 0;
    assert |g| - |order| == |h| - |r.order| + off;
    forall i | 0 <= i < |order| ensures order[i] == g[|g| - |order| + i].1.jobID {
      if i < |order| - 1 { assert order[i] == r.order[i + off]; }
    }
  }

  /** The evicted name is not one of the newer ones, nor is the new name. */
  lemma NewerNames(r: Registry, h: History, i: nat)
    requires r.maxJobs > 0 && Named(h, r.counter) && OrderIs(r.order, h, r.maxJobs)
    requires |h| - |r.order| + (if Evicts(r) then 1 else 0) <= i < |h|
    ensures h[i].1.jobID != Decimal(r.counter + 1) && (Evicts(r) ==> h[i].1.jobID != r.order[0])
  {
    hide Decimal;
    NextNameIsNew(h, r.counter, i);
    var first := |h| - |r.order|;
    if Evicts(r) && h[i].1.jobID == h[first].1.jobID {
      NamesDistinct(h, r.counter, i, first);
    }
  }

  lemma JobsExtend(r: Registry, h: History, w: Work)
    requires r.maxJobs > 0 && Named(h, r.counter) && OrderIs(r.order, h, r.maxJobs)
    requires JobsHold(r.jobs, h, |r.order|) && w.jobID == Decimal(r.counter + 1)
    ensures JobsHold(NewJobs(r, w), h + [(r.counter + 1, w)], |NewOrder(r, w.jobID)|)
  {
    hide Decimal, Named;
    var g, jobs := h + [(r.counter + 1, w)], NewJobs(r, w);
    forall i | |g| - |NewOrder(r, w.jobID)| <= i < |g| ensures g[i].1.jobID in jobs && jobs[g[i].1.jobID] == g[i].1 {
      if i < |h| {
        NewerNames(r, h, i);
        assert g[i] == h[i];
      }
    }
  }

  lemma ListedExtends(r: Registry, w: Work)
    requires r.maxJobs > 0 && Listed(r.jobs, r.order)
    ensures Listed(NewJobs(r, w), NewOrder(r, w.jobID))
  {
    var order := NewOrder(r, w.jobID);
    forall k | k in NewJobs(r, w) ensures k in order {
      if k != w.jobID {
        var i :| 0 <= i < |r.order| && r.order[i] == k;
        assert order[if Evicts(r) then i - 1 else i] == k;
      } else {
        assert order[|order| - 1] == w.jobID;
      }
    }
  }

  /** Every call keeps the registry the tail of the history, until the 64-bit
      counter wraps. */
  lemma SetRepresents(r: Registry, h: History, data: seq<Byte>)
    requires Represents(r, h) && r.counter + 1 < TWO64
    ensures Represents(Set(r, data), Extend(r, h, data))
  {
    hide Decimal, WordAt, U64, Named, OrderIs, JobsHold, Listed, Latest, Varied;
    U64Small(r.counter as int + 1);
    VariedExtends(r, h, data);
    if Installs(r, data) {
      var w := NextWork(r, data);
      var g := h + [(r.counter + 1, w)];
      NamedExtends(h, r.counter, w);
      OrderExtends(r, h, r.counter + 1, w);
      JobsExtend(r, h, w);
      ListedExtends(r, w);
      LatestIs(h, r.counter + 1, w);
      assert Set(r, data) == Registry(Some(w), NewJobs(r, w), NewOrder(r, w.jobID), r.counter + 1, r.maxJobs);
    } else if !Ignored(r, data) {
      NamedLater(h, r.counter);
    }
  }

  lemma VariedExtends(r: Registry, h: History, data: seq<Byte>)
    requires Varied(h) && r.current == Latest(h)
    ensures Varied(Extend(r, h, data))
  {
    hide Decimal, WordAt, U64;
    var g := Extend(r, h, data);
    assert forall i :: 0 <= i < |h| ==> g[i] == h[i];
  }

  /** The history grows exactly with data of 192 bytes that differs from the
      latest work's, and then by one work, of that data. */
  lemma HistoryGrows(r: Registry, h: History, data: seq<Byte>)
    requires Represents(r, h)
    ensures var g := Extend(r, h, data);
      if |data| == 192 && (h == [] || h[|h| - 1].1.data != data)
      then |g| == |h| + 1 && g[..|h|] == h && g[|h|].1.data == data
      else g == h
  {
    hide Decimal, WordAt, U64, Named, OrderIs, JobsHold, Listed, Varied;
  }

  lemma LatestIs(h: History, n: nat, w: Work)
    ensures Latest(h + [(n, w)]) == Some(w)
  {
  }

  lemma NamedLater(h: History, counter: nat)
    requires Named(h, counter)
    ensures Named(h, counter + 1)
  {
    hide Decimal;
  }

  lemma FoundIsRecent(r: Registry, h: History, id: string)
    requires Represents(r, h) && id in r.jobs
    ensures exists i :: |h| - Kept(h, r.maxJobs) <= i < |h| && h[i].1 == r.jobs[id] && h[i].1.jobID == id
  {
    hide Decimal, Named, Latest;
    var k :| 0 <= k < |r.order| && r.order[k] == id;
    var i := |h| - |r.order| + k;
    assert h[i].1.jobID == id;
  }

  lemma RecentIsFound(r: Registry, h: History, i: nat)
    requires Represents(r, h) && |h| - Kept(h, r.maxJobs) <= i < |h|
    ensures Lookup(r, h[i].1.jobID) == Some(h[i].1)
  {
    hide Decimal, Named, Latest, Listed;
  }

  /** A lookup finds a work exactly when it is among the last maxJobs installed
      and has that id. */
  lemma LookupIff(r: Registry, h: History, id: string, w: Work)
    requires Represents(r, h)
    ensures Lookup(r, id) == Some(w) <==>
      w.jobID == id && exists i :: 0 <= i < |h| && |h| - r.maxJobs <= i && h[i].1 == w
  {
    hide Represents;
    if id in r.jobs {
      FoundIsRecent(r, h, id);
    }
    if i :| 0 <= i < |h| && |h| - r.maxJobs <= i && h[i].1 == w && w.jobID == id {
      RecentIsFound(r, h, i);
    }
  }

  lemma CurrentRegistered(r: Registry, h: History)
    requires Represents(r, h)
    ensures r.current.Some? ==> Lookup(r, r.current.value.jobID) == r.current
  {
    hide Decimal, Named, Varied, Listed;
  }

  lemma OrderDistinct(order: seq<string>, h: History, maxJobs: nat, counter: nat, i: nat, j: nat)
    requires Named(h, counter) && OrderIs(order, h, maxJobs) && i < j < |order|
    ensures order[i] != order[j]
  {
    hide Named, Decimal;
    if order[i] == order[j] {
      NamesDistinct(h, counter, |h| - |order| + i, |h| - |order| + j);
    }
  }

  lemma OrderListed(order: seq<string>, h: History, maxJobs: nat, jobs: map<string, Work>, id: string)
    requires OrderIs(order, h, maxJobs) && JobsHold(jobs, h, |order|) && id in order
    ensures id in jobs
  {
    var i :| 0 <= i < |order| && order[i] == id;
    assert h[|h| - |order| + i].1.jobID == id;
  }

  /** The order list has no repeats and lists exactly the registered ids; the
      current work is registered. */
  lemma OrderExact(r: Registry, h: History)
    requires Represents(r, h)
    ensures forall i, j :: 0 <= i < j < |r.order| ==> r.order[i] != r.order[j]
    ensures forall id :: id in r.jobs <==> id in r.order
    ensures r.current.Some? ==> Lookup(r, r.current.value.jobID) == r.current
  {
    CurrentRegistered(r, h);
    hide Decimal, Varied, Latest, Lookup, Named, OrderIs, JobsHold;
    forall i, j | 0 <= i < j < |r.order| ensures r.order[i] != r.order[j] {
      OrderDistinct(r.order, h, r.maxJobs, r.counter, i, j);
    }
    forall id | id in r.order ensures id in r.jobs {
      OrderListed(r.order, h, r.maxJobs, r.jobs, id);
    }
  }

  /** Any sequence of calls. */
  function Run(maxJobs: nat, calls: seq<seq<Byte>>): (s: (Registry, History))
    requires maxJobs > 0
    ensures s.0.maxJobs == maxJobs
  {
    if calls == [] then (New(maxJobs), [])
    else
      var s := Run(maxJobs, calls[..|calls| - 1]);
      (Set(s.0, calls[|calls| - 1]), Extend(s.0, s.1, calls[|calls| - 1]))
  }

  lemma {:induction false} RunRepresents(maxJobs: nat, calls: seq<seq<Byte>>)
    requires maxJobs > 0 && |calls| < TWO64
    ensures Represents(Run(maxJobs, calls).0, Run(maxJobs, calls).1)
    ensures Run(maxJobs, calls).0.counter <= |calls| && Varied(Run(maxJobs, calls).1)
    decreases |calls|
  {
    hide Represents, Installs, NextWork, Varied;
    if calls == [] {
      FreshRepresents(maxJobs);
    } else {
      var s := Run(maxJobs, calls[..|calls| - 1]);
      RunRepresents(maxJobs, calls[..|calls| - 1]);
      SetRepresents(s.0, s.1, calls[|calls| - 1]);
    }
    RepresentsVaried(Run(maxJobs, calls).0, Run(maxJobs, calls).1);
  }

  lemma RepresentsVaried(r: Registry, h: History)
    requires Represents(r, h)
    ensures Varied(h)
  {
    hide Named, OrderIs, JobsHold, Listed, Latest, Varied;
  }

  lemma FreshRepresents(maxJobs: nat)
    requires maxJobs > 0
    ensures Represents(New(maxJobs), [])
  {
  }

  // ----- refreshing a template

  /** The refreshed timestamp: the clock, or one more than the old one. */
  function RefreshTime(previous: Word, now: Word): Word {
    if now <= previous then U32(previous as int + 1) else now
  }

  function RefreshData(w: Work, now: Word): Blob {
    Refreshed(w.data, RefreshTime(WordAt(w.data, 136), now))
  }

  /** An uninterrupted refresh. */
  function Refresh(r: Registry, now: Word): Registry
    requires r.maxJobs > 0
  {
    if r.current.None? then r else Set(r, RefreshData(r.current.value, now))
  }

  /** The refreshed data: the clock's time if it is past the old timestamp, one
      more than that otherwise, and every other byte as it was. */
  lemma RefreshDataIs(w: Work, now: Word)
    ensures var data, t := RefreshData(w, now), WordAt(w.data, 136);
      && WordAt(data, 136) == (if now > t then now else (t + 1) % 0x1_0000_0000)
      && data[..136] == w.data[..136] && data[140..] == w.data[140..]
  {
    hide LoadWord, Refreshed;
    RefreshedFields(w.data, RefreshTime(WordAt(w.data, 136), now));
  }

  /** A refresh is never swallowed as a duplicate: it installs a new job of the
      refreshed data, whose timestamp is the clock's if that is later and else
      one more than the old, and so never the old. */
  lemma RefreshInstalls(r: Registry, now: Word)
    requires r.maxJobs > 0 && r.current.Some?
    ensures var w := r.current.value;
      var next, t := Refresh(r, now).current, WordAt(w.data, 136);
      && Installs(r, RefreshData(w, now)) && next == Some(NextWork(r, RefreshData(w, now)))
      && next.value.data[..136] == w.data[..136] && next.value.data[140..] == w.data[140..]
      && WordAt(next.value.data, 136) == (if now > t then now else (t + 1) % 0x1_0000_0000)
      && WordAt(next.value.data, 136) != t
  {
    hide Decimal, LoadWord, RefreshData;
    RefreshDataIs(r.current.value, now);
  }

  function RefreshChain(r: Registry, h: History, nows: seq<Word>): (s: (Registry, History))
    requires r.maxJobs > 0
    ensures s.0.maxJobs == r.maxJobs
  {
    if nows == [] then (r, h)
    else
      var s := RefreshChain(r, h, nows[..|nows| - 1]);
      if s.0.current.None? then s
      else
        var data := RefreshData(s.0.current.value, nows[|nows| - 1]);
        (Refresh(s.0, nows[|nows| - 1]), Extend(s.0, s.1, data))
  }

  /** Over any chain of uninterrupted refreshes each one installs a job, all
      bytes but the timestamp stay (height, previous hash and bits with them),
      and the job that was current at the start can still be looked up exactly
      while fewer than maxJobs refreshes have followed it. */
  lemma {:induction false} ChainKeepsTemplate(r: Registry, h: History, nows: seq<Word>)
    requires r.maxJobs > 0 && Represents(r, h) && h != [] && r.counter + |nows| < TWO64
    ensures var s := RefreshChain(r, h, nows);
      && Represents(s.0, s.1) && |s.1| == |h| + |nows| && s.1[..|h|] == h && s.0.counter == r.counter + |nows|
      && s.0.current.Some?
      && s.0.current.value.data[..136] == h[|h| - 1].1.data[..136]
      && s.0.current.value.data[140..] == h[|h| - 1].1.data[140..]
    decreases |nows|
  {
    hide Represents, Set, RefreshData, NextWork, Installs;
    if nows == [] {
      RepresentsCurrent(r, h);
    } else {
      var s := RefreshChain(r, h, nows[..|nows| - 1]);
      var now := nows[|nows| - 1];
      ChainKeepsTemplate(r, h, nows[..|nows| - 1]);
      RefreshInstalls(s.0, now);
      var data := RefreshData(s.0.current.value, now);
      SetRepresents(s.0, s.1, data);
      CounterSteps(s.0, data);
    }
  }

  lemma RepresentsCurrent(r: Registry, h: History)
    requires Represents(r, h) && h != []
    ensures r.current == Some(h[|h| - 1].1)
  {
  }

  lemma CounterSteps(r: Registry, data: seq<Byte>)
    requires r.maxJobs > 0 && Installs(r, data) && r.counter + 1 < TWO64
    ensures Set(r, data).counter == r.counter + 1
  {
  }

  lemma OldJobStaysValid(r: Registry, h: History, nows: seq<Word>)
    requires r.maxJobs > 0 && Represents(r, h) && h != [] && r.counter + |nows| < TWO64
    ensures var first := h[|h| - 1].1;
      Lookup(RefreshChain(r, h, nows).0, first.jobID) == Some(first) <==> |nows| < r.maxJobs
  {
    hide RefreshChain, Represents, Decimal, Named, Varied, Lookup;
    ChainKeepsTemplate(r, h, nows);
    var s := RefreshChain(r, h, nows);
    var first := h[|h| - 1].1;
    assert s.1[|h| - 1] == h[|h| - 1];
    LookupIff(s.0, s.1, first.jobID, first);
    if i :| 0 <= i < |s.1| && |s.1| - r.maxJobs <= i && s.1[i].1 == first {
      RepresentsNamed(s.0, s.1);
      NamesDistinct(s.1, s.0.counter, i, |h| - 1);
    }
  }

  lemma RepresentsNamed(r: Registry, h: History)
    requires Represents(r, h)
    ensures Named(h, r.counter)
  {
  }
}
