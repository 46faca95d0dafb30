/** The block throttle: one in every N solved blocks goes to the node. */
module Throttle {
  import opened Words

  datatype State = State(divisor: Word, found: Long, submitted: Long, throttled: Long)

  function Fresh(divisor: Word): State {
    State(if divisor == 0 then 1 else divisor, 0, 0, 0)
  }

  predicate Allows(s: State)
    requires s.divisor > 0
  {
    s.divisor <= 1 || U64(s.found as int + 1) % s.divisor == 1
  }

  function After(s: State): State
    requires s.divisor > 0
  {
    var t := s.(found := U64(s.found as int + 1));
    if Allows(s) then t.(submitted := U64(s.submitted as int + 1))
    else t.(throttled := U64(s.throttled as int + 1))
  }

  class BlockThrottle {
    const divisor: Word
    var foundBlocks: Long
    var submitted: Long
    var throttled: Long

    constructor (divisor: Word)
      ensures View() == Fresh(divisor)
    {
      this.divisor := if divisor == 0 then 1 else divisor;
      foundBlocks, submitted, throttled := 0, 0, 0;
    }

    ghost function View(): State
      reads this
    {
      State(divisor, foundBlocks, submitted, throttled)
    }

    method Allow() returns (allow: bool)
      requires divisor > 0
      modifies this
      ensures allow == Allows(old(View())) && View() == After(old(View()))
    {
      foundBlocks := U64(foundBlocks as int + 1);
      if divisor <= 1 || foundBlocks % divisor == 1 {
        submitted := U64(submitted as int + 1);
        return true;
      }
      throttled := U64(throttled as int + 1);
      return false;
    }
  }

  // ----- closed form

  function Calls(s: State, n: nat): (t: State)
    requires s.divisor > 0
    ensures t.divisor == s.divisor
  {
    if n == 0 then s else After(Calls(s, n - 1))
  }

  /** n / d, rounded up. */
  function CeilDiv(n: nat, d: nat): nat
    requires d > 0
  {
    (n + d - 1) / d
  }

  lemma CeilIs(n: nat, d: nat, q: nat, r: nat)
    requires n == q * d + r && r < d
    ensures CeilDiv(n, d) == if r == 0 then q else q + 1
  {
    assert (q + 1) * d == q * d + d;
    if r == 0 {
      DivUnique(n + d - 1, d, q, d - 1);
    } else {
      DivUnique(n + d - 1, d, q + 1, r - 1);
    }
  }

  lemma NextRest(n: nat, d: nat, q: nat, r: nat)
    requires n == q * d + r && r < d
    ensures if r + 1 < d then n + 1 == q * d + (r + 1) && (n + 1) % d == r + 1
            else n + 1 == (q + 1) * d && (n + 1) % d == 0
  {
    assert (q + 1) * d == q * d + d;
    if r + 1 < d {
      DivUnique(n + 1, d, q, r + 1);
    } else {
      DivUnique(n + 1, d, q + 1, 0);
    }
  }

  lemma CeilStep(n: nat, d: nat)
    requires d > 0
    ensures CeilDiv(n + 1, d) == CeilDiv(n, d) + (if d == 1 || (n + 1) % d == 1 then 1 else 0)
    ensures CeilDiv(n, d) <= n
  {
    hide CeilDiv;
    var q, r := n / d, n % d;
    QuotientAndRest(n, d);
    NextRest(n, d, q, r);
    CeilIs(n, d, q, r);
    if r + 1 < d { CeilIs(n + 1, d, q, r + 1); } else { CeilIs(n + 1, d, q + 1, 0); }
    QuotientBound(q, d);
  }

  lemma QuotientBound(q: nat, d: nat)
    requires d > 0
    ensures q <= q * d
  {
  }

  /** Until the 64-bit counter wraps: of n solved blocks ceil(n / N) were
      submitted, the first, the (N + 1)-th and so on, and the others discarded. */
  lemma ClosedForm(divisor: Word, n: nat)
    requires n < TWO64
    ensures var N: nat := if divisor == 0 then 1 else divisor;
      var t := Calls(Fresh(divisor), n);
      && t.found == n && t.submitted + t.throttled == n
      && n <= N * t.submitted < n + N
  {
    hide CeilDiv, Calls;
    var d := Fresh(divisor).divisor;
    Counted(divisor, n);
    CeilBetween(n, d);
  }

  /** Rounded up: the only multiple of d from n up to n + d. */
  lemma CeilBetween(n: nat, d: nat)
    requires d > 0
    ensures n <= d * CeilDiv(n, d) < n + d
  {
    hide CeilDiv;
    var q, r := n / d, n % d;
    QuotientAndRest(n, d);
    CeilIs(n, d, q, r);
    assert d * q == q * d && d * (q + 1) == q * d + d;
  }

  lemma {:induction false} Counted(divisor: Word, n: nat)
    requires n < TWO64
    ensures var s := Fresh(divisor);
      var t := Calls(s, n);
      t.found == n && t.submitted == CeilDiv(n, s.divisor) && t.throttled == n - CeilDiv(n, s.divisor)
    decreases n
  {
    hide CeilDiv, After;
    var d := Fresh(divisor).divisor;
    if n == 0 {
      CeilZero(d);
    } else {
      Counted(divisor, n - 1);
      CeilStep(n - 1, d);
      CeilStep(n, d);
      AfterCounts(Calls(Fresh(divisor), n - 1));
    }
  }

  lemma CeilZero(d: nat)
    requires d > 0
    ensures CeilDiv(0, d) == 0
  {
    DivUnique(d - 1, d, 0, d - 1);
  }

  lemma AfterCounts(s: State)
    requires s.divisor > 0 && s.found + 1 < TWO64 && s.submitted <= s.found && s.throttled <= s.found
    ensures var t, one := After(s), s.divisor == 1 || (s.found + 1) % s.divisor == 1;
      && t.divisor == s.divisor && t.found == s.found + 1
      && t.submitted == s.submitted + (if one then 1 else 0)
      && t.throttled == s.throttled + (if one then 0 else 1)
  {
  }

  /** Any window of N consecutive solved blocks has exactly one submission. */
  lemma WindowHasOne(divisor: Word, n: nat)
    requires n + (if divisor == 0 then 1 else divisor) < TWO64
    ensures var N: nat := if divisor == 0 then 1 else divisor;
      Calls(Fresh(divisor), n + N).submitted == Calls(Fresh(divisor), n).submitted + 1
  {
    hide Calls;
    var d := Fresh(divisor).divisor;
    Counted(divisor, n);
    Counted(divisor, n + d);
    var q, r := (n + d - 1) / d, (n + d - 1) % d;
    assert n + d + d - 1 == q * d + r + d;
    assert (q + 1) * d == q * d + d;
    DivUnique(n + d + d - 1, d, q + 1, r);
  }
}
