/**
 The token bucket that limits log messages (`vlog_rate_limit` in lib/vlog.c).
 */
module RateLimit {
  import opened SatMath

  const MSG_TOKENS: nat := 60

  datatype Limiter = Limiter(rate: nat, burst: nat, tokens: nat, lastFill: int, firstDropped: int, nDropped: nat)

  /** A new limiter of `rate` messages a minute and bursts of `burst` messages. */
  function Init(rate: nat, burst: nat): Limiter {
    Limiter(rate, (if burst < UINT_MAX / MSG_TOKENS then burst else UINT_MAX / MSG_TOKENS) * MSG_TOKENS, 0, 0, 0, 0)
  }

  /** The seconds since the last filling, in 32 bits. */
  function Since(l: Limiter, now: int): nat {
    (now - l.lastFill) % 0x1_0000_0000
  }

  /** Filling happens only when a message cannot be paid for. */
  function Fill(l: Limiter, now: int): Limiter {
    if l.tokens >= MSG_TOKENS then l
    else if l.lastFill > now then l.(tokens := l.burst)
    else if l.lastFill < now then
      var t := SatAdd(l.tokens, SatMul(l.rate, Since(l, now)));
      l.(tokens := if t < l.burst then t else l.burst, lastFill := now)
    else l
  }

  predicate Passes(l: Limiter, now: int) {
    Fill(l, now).tokens >= MSG_TOKENS
  }

  /** A message is logged, and with it a report of those dropped before; or it is dropped and counted. */
  function Log(l: Limiter, now: int): Limiter {
    var f := Fill(l, now);
    if f.tokens >= MSG_TOKENS then f.(tokens := f.tokens - MSG_TOKENS, nDropped := 0)
    else f.(firstDropped := if f.nDropped == 0 then now else f.firstDropped, nDropped := f.nDropped + 1)
  }

  /** The limiter after calls at the times `ts`. */
  function LogAll(l: Limiter, ts: seq<int>): Limiter {
    if ts == [] then l else Log(LogAll(l, ts[..|ts| - 1]), ts[|ts| - 1])
  }

  /** How many of the calls passed. */
  function PassedBy(l: Limiter, ts: seq<int>): nat {
    if ts == [] then 0
    else
      var before := ts[..|ts| - 1];
      PassedBy(l, before) + if Passes(LogAll(l, before), ts[|ts| - 1]) then 1 else 0
  }

  /** How many dropped messages the reports among the calls have told of. */
  function ReportedBy(l: Limiter, ts: seq<int>): nat {
    if ts == [] then 0
    else
      var before := ts[..|ts| - 1];
      ReportedBy(l, before)
      + if Passes(LogAll(l, before), ts[|ts| - 1]) then LogAll(l, before).nDropped else 0
  }

  predicate Ascending(ts: seq<int>) {
    forall i, j :: 0 <= i < j < |ts| ==> ts[i] <= ts[j]
  }

  lemma SaturatedIsLess(x: nat, y: nat)
    ensures SatAdd(x, y) <= x + y && SatMul(x, y) <= x * y
  {
    if y != 0 && x > UINT_MAX / y {
      var q := UINT_MAX / y;
      assert UINT_MAX < (q + 1) * y;
      MulMonotone(y, q + 1, x);
    }
  }

  lemma MulMonotone(r: nat, x: nat, y: nat)
    requires x <= y
    ensures r * x <= r * y
  {
  }

  /** What the messages passed since the limiter was `l`, with what is left, can have cost. */
  ghost predicate Paid(l: Limiter, m: Limiter, passed: nat, from: int) {
    if m.lastFill == l.lastFill then MSG_TOKENS * passed + m.tokens <= l.tokens
    else m.lastFill >= from && MSG_TOKENS * passed + m.tokens <= 2 * l.burst + l.rate * (m.lastFill - from)
  }

  lemma FillPaid(l: Limiter, m: Limiter, passed: nat, from: int, now: int)
    requires l.tokens <= l.burst && m.tokens <= m.burst && m.rate == l.rate && m.burst == l.burst
    requires l.lastFill <= m.lastFill <= now && from <= now && Paid(l, m, passed, from)
    ensures var f := Fill(m, now);
            && Paid(l, f, passed, from) && f.tokens <= f.burst && f.rate == l.rate && f.burst == l.burst
            && l.lastFill <= f.lastFill <= now
  {
    if m.tokens < MSG_TOKENS && m.lastFill < now {
      var d := Since(m, now);
      SaturatedIsLess(m.tokens, SatMul(m.rate, d));
      SaturatedIsLess(m.rate, d);
      MulMonotone(l.rate, d, now - m.lastFill);
      if m.lastFill == l.lastFill {
        MulMonotone(l.rate, 0, now - from);
      } else {
        assert l.rate * (now - m.lastFill) + l.rate * (m.lastFill - from) == l.rate * (now - from);
      }
    }
  }

  lemma {:induction false} PaidOverRun(l: Limiter, ts: seq<int>, from: int)
    requires l.tokens <= l.burst && Ascending(ts) && (ts != [] ==> l.lastFill <= ts[0] && from <= ts[0])
    ensures var m := LogAll(l, ts);
            && Paid(l, m, PassedBy(l, ts), from) && m.tokens <= m.burst && m.rate == l.rate && m.burst == l.burst
            && l.lastFill <= m.lastFill && (ts != [] ==> m.lastFill <= ts[|ts| - 1])
            && (ts == [] ==> m.lastFill == l.lastFill)
  {
    if ts != [] {
      var n := |ts| - 1;
      PaidOverRun(l, ts[..n], from);
      var m := LogAll(l, ts[..n]);
      assert m.lastFill <= ts[n];
      FillPaid(l, m, PassedBy(l, ts[..n]), from, ts[n]);
    }
  }

  lemma NoCallNoChange(l: Limiter, ts: seq<int>)
    ensures ts == [] ==> LogAll(l, ts) == l
  {
  }

  /**
   The promised rate, although tokens are added only when they run out: any
   stretch of calls during which the clock does not go back, from time `from`
   to time `to`, passes no more than two bursts and the rate allow.
   */
  lemma RateIsLimited(l: Limiter, ts: seq<int>, from: int, to: int)
    requires l.tokens <= l.burst && Ascending(ts)
    requires forall i :: 0 <= i < |ts| ==> l.lastFill <= ts[i] && from <= ts[i] <= to
    requires from <= to
    ensures MSG_TOKENS * PassedBy(l, ts) <= 2 * l.burst + l.rate * (to - from)
  {
    hide LogAll, PassedBy;
    PaidOverRun(l, ts, from);
    var m := LogAll(l, ts);
    MulMonotone(l.rate, 0, to - from);
    if m.lastFill != l.lastFill {
      assert ts != [] by { NoCallNoChange(l, ts); }
      assert ts[|ts| - 1] <= to;
      MulMonotone(l.rate, m.lastFill - from, to - from);
    }
  }

  /** From a new limiter on, over any later stretch of a run. */
  lemma NewLimiterIsLimited(rate: nat, burst: nat, before: seq<int>, ts: seq<int>, from: int, to: int)
    requires Ascending(before + ts) && (forall i :: 0 <= i < |before + ts| ==> (before + ts)[i] >= 0)
    requires from <= to && forall i :: 0 <= i < |ts| ==> from <= ts[i] <= to
    ensures var l := LogAll(Init(rate, burst), before);
            MSG_TOKENS * PassedBy(l, ts) <= 2 * Init(rate, burst).burst + rate * (to - from)
  {
    var l0 := Init(rate, burst);
    var all := before + ts;
    assert forall i :: 0 <= i < |before| ==> before[i] == all[i];
    assert forall i :: 0 <= i < |ts| ==> ts[i] == all[|before| + i];
    assert Ascending(before) && Ascending(ts);
    PaidOverRun(l0, before, if before == [] then 0 else before[0]);
    RateIsLimited(LogAll(l0, before), ts, from, to);
  }

  /** Every call passes, has been told of in a report, or is counted for the next one. */
  lemma {:induction false} NothingUncounted(l: Limiter, ts: seq<int>)
    ensures PassedBy(l, ts) + ReportedBy(l, ts) + LogAll(l, ts).nDropped == |ts| + l.nDropped
  {
    if ts != [] {
      NothingUncounted(l, ts[..|ts| - 1]);
    }
  }

  /** The limiter in place. */
  class RateLimiter {
    const rate: nat
    const burst: nat
    var tokens: nat
    var lastFill: int
    var firstDropped: int
    var nDropped: nat

    ghost function View(): Limiter
      reads this
    {
      Limiter(rate, burst, tokens, lastFill, firstDropped, nDropped)
    }

    constructor (rate: nat, burst: nat)
      ensures View() == Init(rate, burst)
    {
      this.rate := rate;
      this.burst := (if burst < UINT_MAX / MSG_TOKENS then burst else UINT_MAX / MSG_TOKENS) * MSG_TOKENS;
      tokens, lastFill, firstDropped, nDropped := 0, 0, 0, 0;
    }

    /** A message at an enabled level at time `now`; `reported` of those dropped before are told of. */
    method LogMessage(now: int) returns (passed: bool, reported: nat)
      modifies this
      ensures View() == Log(old(View()), now)
      ensures passed == Passes(old(View()), now)
      ensures reported == if passed then old(nDropped) else 0
    {
      reported := 0;
      if tokens < MSG_TOKENS {
        if lastFill > now {
          tokens := burst;
        } else if lastFill < now {
          var t := SatAdd(tokens, SatMul(rate, (now - lastFill) % 0x1_0000_0000));
          tokens := if t < burst then t else burst;
          lastFill := now;
        }
        if tokens < MSG_TOKENS {
          if nDropped == 0 {
            firstDropped := now;
          }
          nDropped := nDropped + 1;
          return false, 0;
        }
      }
      tokens := tokens - MSG_TOKENS;
      passed := true;
      if nDropped > 0 {
        reported := nDropped;
        nDropped := 0;
      }
    }
  }
}
