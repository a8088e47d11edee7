/** What the DHCP client keeps in every run: it never holds an address past its lease. */
module DhcpClientSafety {
  import opened Options
  import opened SatMath
  import opened DhcpClientModel

  // ---- The three stages of a lease ----

  /** The stages come in order exactly outside the short leases with an early T2, and then fill the lease. */
  lemma StagesFillLease(c: Client, a: Reply, now: nat)
    requires a.Ack? && a.lease >= MIN_ACCEPTABLE_LEASE && ProperReply(a)
    ensures T1Of(a) <= T2Of(a) <==> !ShortWithEarlyT2(a)
    ensures T1Of(a) < T2Of(a) <==> !(a.lease < 60 && 0 < a.t2 <= a.lease / 2 && (a.t1 == 0 || a.t1 >= a.t2))
    ensures var d := Bind(c, a, now);
            d.boundTimeout + d.renewingTimeout + d.rebindingTimeout == a.lease <==> !ShortWithEarlyT2(a)
  {
  }

  function StageTimeout(c: Client): nat {
    match c.state
    case Bound => c.boundTimeout
    case Renewing => c.renewingTimeout
    case Rebinding => c.rebindingTimeout
    case _ => 0
  }

  function StageEnd(c: Client): nat {
    c.entered + StageTimeout(c)
  }

  /** The seconds of the stages after this one. */
  function Later(c: Client): nat {
    match c.state
    case Bound => c.renewingTimeout + c.rebindingTimeout
    case Renewing => c.rebindingTimeout
    case _ => 0
  }

  /**
   * At a trip at `now`, either this stage is not past its end and all stages are over
   * `limit` then, or it is at its end and nothing follows.
   */
  predicate OnTime(c: Client, now: nat, limit: nat) {
    IsBound(c.state) ==>
      limit <= c.leaseExpiration <= UINT_MAX &&
      ((now <= StageEnd(c) && StageEnd(c) + Later(c) <= limit) || (StageEnd(c) <= now && Later(c) == 0))
  }

  /** There is a binding exactly while bound, and its addresses are the ones in use. */
  predicate BindingInUse(c: Client) {
    && (c.binding.Some? <==> IsBound(c.state))
    && (c.binding.Some? ==>
          var g := c.binding.value; c.ipaddr == g.ip && c.netmask == g.netmask && c.router == RouterOf(g))
  }

  /** The lease of an acknowledgment that arrives at `now` has its stages in order and ends in range. */
  predicate Orderly(i: Input, now: nat) {
    Proper(i) && (i.reply.Ack? ==> !ShortWithEarlyT2(i.reply) && now + i.reply.lease <= UINT_MAX)
  }

  ghost predicate AllOrderly(script: seq<Input>, now: nat) {
    AllProper(script) && forall i :: i in script ==> Orderly(i, now)
  }

  /** When the address must be given up, after a trip: an accepted lease sets a new time. */
  function PassBy(c: Client, limit: nat, i: Input, now: nat): nat
    requires Proper(i)
  {
    if Accepts(c, i.reply) then SatAdd(now, i.reply.lease) else limit
  }

  function RunBy(c: Client, limit: nat, script: seq<Input>, now: nat): nat
    requires Sane(c, now) && now < UINT_MAX && AllProper(script)
    decreases |script|, Rank(c, now)
  {
    var d := Pass(c, Head(script), now);
    PassStaysSane(c, Head(script), now);
    var b := PassBy(c, limit, Head(script), now);
    if d.state == c.state then b
    else
      assert script == [] ==> Rank(d, now) < Rank(c, now) by { RankFalls(c, 0, now); }
      RunBy(d, b, Tail(script), now)
  }

  lemma PassOnTime(c: Client, limit: nat, i: Input, now: nat)
    requires Sane(c, now) && Orderly(i, now) && OnTime(c, now, limit) && BindingInUse(c)
    ensures var d := Pass(c, i, now);
            && OnTime(d, now, PassBy(c, limit, i, now)) && BindingInUse(d)
            && (d.state == c.state && IsBound(d.state) ==> now < StageEnd(d))
  {
    if Accepts(c, i.reply) {
      StagesFillLease(c, i.reply, now);
      hide T1Of, T2Of;
    }
  }

  /** After a call to run, a client that is still bound is inside a stage. */
  lemma {:induction false} RunOnTime(c: Client, limit: nat, script: seq<Input>, now: nat)
    requires Sane(c, now) && now < UINT_MAX && AllOrderly(script, now) && OnTime(c, now, limit) && BindingInUse(c)
    ensures var d, b := Run(c, script, now), RunBy(c, limit, script, now);
            && Sane(d, now) && BindingInUse(d)
            && (IsBound(d.state) ==> now < StageEnd(d) && StageEnd(d) + Later(d) <= b <= d.leaseExpiration <= UINT_MAX)
    decreases |script|, Rank(c, now)
  {
    var i := Head(script);
    var d := Pass(c, i, now);
    PassStaysSane(c, i, now);
    assert Orderly(i, now);
    PassOnTime(c, limit, i, now);
    if d.state != c.state {
      assert script == [] ==> Rank(d, now) < Rank(c, now) by { RankFalls(c, 0, now); }
      hide Pass;
      RunOnTime(d, PassBy(c, limit, i, now), Tail(script), now);
    }
  }

  // ---- Runs of calls ----

  /**
   * A client and what is known about its calls: the time of the last call and of the
   * last one to run, when the address must be given up at the latest, and the
   * binding when its owner last asked for changes.
   */
  datatype Watch = Watch(c: Client, clock: nat, last: nat, limit: nat, asked: Option<Config>)

  datatype Event =
    | DoRun(script: seq<Input>)
    | DoForce(deadline: int)
    | DoRestart(ip: nat)
    | DoRelease
    | DoAsk

  ghost predicate Applies(w: Watch, e: Event, now: nat) {
    && w.c.entered <= w.clock <= now <= w.last + 1 && now < UINT_MAX
    && match e
       case DoRun(script) => AllOrderly(script, now)
       case DoForce(deadline) => -INT_MAX - 1 <= deadline <= INT_MAX && Multiplies(w.c, deadline, now)
       case _ => true
  }

  predicate Good(w: Watch) {
    && w.c.entered <= w.clock && w.last <= w.clock <= w.last + 1 && w.last < UINT_MAX && BindingInUse(w.c)
    && (!w.c.changed ==> w.c.binding == w.asked)
    && (IsBound(w.c.state) ==>
          && w.limit <= w.c.leaseExpiration <= UINT_MAX && w.last < w.c.leaseExpiration
          && ((w.last < StageEnd(w.c) && StageEnd(w.c) + Later(w.c) <= w.limit) || (StageEnd(w.c) <= w.clock && Later(w.c) == 0)))
  }

  ghost function Step(w: Watch, e: Event, now: nat): Watch
    requires Applies(w, e, now)
  {
    match e
    case DoRun(script) => Watch(Run(w.c, script, now), now, now, RunBy(w.c, w.limit, script, now), w.asked)
    case DoForce(deadline) =>
      Watch(ForceRenew(w.c, deadline, now), now, w.last,
            if IsBound(w.c.state) && !LeftAlone(w.c, deadline, now) then now + Granted(w.c, deadline, now) else w.limit, w.asked)
    case DoRestart(ip) => Watch(Restart(w.c, ip, now), now, w.last, w.limit, w.asked)
    case DoRelease => Watch(Release(w.c, now), now, w.last, w.limit, w.asked)
    case DoAsk => Watch(w.c.(changed := false), now, w.last, w.limit, w.c.binding)
  }

  function Created(now: nat): Client {
    Client(Released, now, None, true, 0, 0, 0, 0, 0, 0, 0, 0, 0)
  }

  /** Calls `events` at `times`, where run is called at least once in every second. */
  ghost predicate IsRun(ws: seq<Watch>, events: seq<Event>, times: seq<nat>) {
    && |ws| == |events| + 1 == |times| + 1
    && ws[0] == Watch(Created(ws[0].clock), ws[0].clock, ws[0].clock, 0, None) && ws[0].clock < UINT_MAX
    && forall i: nat :: i < |events| ==>
      Applies(ws[i], events[i], times[i]) && ws[i + 1] == Step(ws[i], events[i], times[i])
  }

  /** Whatever changes the binding raises the flag. */
  lemma PassTracksChanges(c: Client, i: Input, now: nat)
    requires Proper(i) && BindingInUse(c)
    ensures var d := Pass(c, i, now); BindingInUse(d) && (!d.changed ==> !c.changed && d.binding == c.binding)
  {
    hide T1Of, T2Of;
  }

  lemma {:induction false} RunTracksChanges(c: Client, script: seq<Input>, now: nat)
    requires Sane(c, now) && now < UINT_MAX && AllProper(script) && BindingInUse(c)
    ensures var d := Run(c, script, now); !d.changed ==> !c.changed && d.binding == c.binding
    decreases |script|, Rank(c, now)
  {
    var d := Pass(c, Head(script), now);
    PassStaysSane(c, Head(script), now);
    PassTracksChanges(c, Head(script), now);
    if d.state != c.state {
      assert script == [] ==> Rank(d, now) < Rank(c, now) by { RankFalls(c, 0, now); }
      hide Pass;
      RunTracksChanges(d, Tail(script), now);
    }
  }

  lemma Quarters(x: nat)
    ensures x * 3 / 4 + x * 1 / 4 <= x && (x >= 2 ==> x * 3 / 4 >= 1) && (x < 2 ==> x * 3 / 4 == 0 && x * 1 / 4 == 0)
  {
  }

  lemma GrantedFits(c: Client, deadline: int, now: nat)
    requires -INT_MAX - 1 <= deadline <= INT_MAX && now <= c.leaseExpiration <= UINT_MAX
    ensures now + Granted(c, deadline, now) <= c.leaseExpiration
    ensures deadline >= 0 ==> Granted(c, deadline, now) <= deadline
    ensures LeftAlone(c, deadline, now) && deadline >= 0 ==> c.leaseExpiration <= now + deadline
  {
  }

  /** A forced renewal keeps everything right, and within the deadline if there is one. */
  lemma ForceKeepsGood(w: Watch, deadline: int, now: nat)
    requires Good(w) && Applies(w, DoForce(deadline), now)
    ensures Good(Step(w, DoForce(deadline), now))
    ensures IsBound(w.c.state) && deadline >= 0 ==> Step(w, DoForce(deadline), now).limit <= now + deadline
  {
    if IsBound(w.c.state) {
      GrantedFits(w.c, deadline, now);
      Quarters(Granted(w.c, deadline, now));
      hide Granted, LeftAlone;
    }
  }

  lemma StepKeepsGood(w: Watch, e: Event, now: nat)
    requires Good(w) && Applies(w, e, now)
    ensures var n := Step(w, e, now);
            Good(n) && (e.DoRun? && IsBound(n.c.state) ==> now < n.limit <= n.c.leaseExpiration)
  {
    match e
    case DoRun(script) =>
      RunOnTime(w.c, w.limit, script, now);
      RunTracksChanges(w.c, script, now);
      hide Run, RunBy;
    case DoForce(deadline) =>
      ForceKeepsGood(w, deadline, now);
    case _ =>
  }

  /**
   * In every run of calls in which run is called every second, the client has a
   * binding exactly when it is bound, and uses its addresses; after a call to run,
   * a bound client's lease has not expired and neither has the deadline of a forced
   * renewal; and when the change flag is clear the binding is the one its owner saw.
   */
  lemma {:induction false} NeverPastLease(ws: seq<Watch>, events: seq<Event>, times: seq<nat>)
    requires IsRun(ws, events, times)
    ensures var w := ws[|events|];
            && Good(w) && BindingInUse(w.c) && (!w.c.changed ==> w.c.binding == w.asked)
            && (events != [] && events[|events| - 1].DoRun? && IsBound(w.c.state) ==>
                  times[|events| - 1] < w.limit <= w.c.leaseExpiration)
    decreases |events|
  {
    hide Step, Applies;
    if events != [] {
      var k := |events| - 1;
      NeverPastLease(ws[..k + 1], events[..k], times[..k]);
      StepKeepsGood(ws[k], events[k], times[k]);
    }
  }

  /** The deadline of a forced renewal stands until a lease is accepted. */
  lemma {:induction false} DeadlineStands(c: Client, limit: nat, script: seq<Input>, now: nat)
    requires Sane(c, now) && now < UINT_MAX && AllProper(script) && forall i :: i in script ==> !i.reply.Ack?
    ensures RunBy(c, limit, script, now) == limit
    decreases |script|, Rank(c, now)
  {
    var d := Pass(c, Head(script), now);
    PassStaysSane(c, Head(script), now);
    if d.state != c.state {
      assert script == [] ==> Rank(d, now) < Rank(c, now) by { RankFalls(c, 0, now); }
      DeadlineStands(d, limit, Tail(script), now);
    }
  }

  // ---- The leases that fail ----

  /** The client `n` seconds later, run every second without any reply. */
  function Alone(c: Client, now: nat, n: nat): (d: Client)
    requires Sane(c, now) && now + n < UINT_MAX
    ensures Sane(d, now + n)
  {
    var b := if n == 0 then c else Alone(c, now, n - 1);
    RunStaysSane(b, now + n);
    Run(b, [], now + n)
  }

  lemma {:induction false} RunStaysSane(c: Client, now: nat)
    requires Sane(c, now) && now < UINT_MAX
    ensures Sane(Run(c, [], now), now)
    decreases Rank(c, now)
  {
    RankFalls(c, 0, now);
    var d := Pass(c, Input(Nothing, 0), now);
    if d.state != c.state {
      RunStaysSane(d, now);
    }
  }

  /** Left alone, a client in a stage stays on time; it gives the address up at the limit at the latest. */
  lemma {:induction false} AloneOnTime(c: Client, limit: nat, now: nat, n: nat)
    requires Sane(c, now) && now + n < UINT_MAX && OnTime(c, now, limit) && BindingInUse(c)
    ensures var d := Alone(c, now, n);
            && BindingInUse(d)
            && (IsBound(d.state) ==>
                  now + n < StageEnd(d) && StageEnd(d) + Later(d) <= limit <= d.leaseExpiration <= UINT_MAX)
  {
    hide Run, RunBy, Pass, Later;
    if n == 0 {
      RunOnTime(c, limit, [], now);
      DeadlineStands(c, limit, [], now);
    } else {
      AloneOnTime(c, limit, now, n - 1);
      var b := Alone(c, now, n - 1);
      RunOnTime(b, limit, [], now + n);
      DeadlineStands(b, limit, [], now + n);
    }
  }

  /** A stage that is not over stays; here one that never is, because its end exceeds the unsigned range. */
  lemma RenewingStays(r: Client, t: nat)
    requires Sane(r, t) && t < UINT_MAX && r.state == Renewing && r.entered + r.renewingTimeout > UINT_MAX
    ensures Run(r, [], t) == r
  {
  }

  lemma BoundStays(b: Client, t: nat)
    requires Sane(b, t) && t < UINT_MAX && b.state == Bound && b.entered + b.boundTimeout > t
    ensures Run(b, [], t) == b
  {
  }

  lemma BoundRenews(b: Client, t: nat)
    requires Sane(b, t) && t < UINT_MAX && b.state == Bound && b.entered + b.boundTimeout == t
    ensures Run(b, [], t) == Run(Enter(b, Renewing, t), [], t)
  {
    assert Pass(b, Input(Nothing, 0), t) == Enter(b, Renewing, t);
  }

  lemma EarlyT2Wraps(c: Client, a: Reply, now: nat)
    requires a.Ack? && a.lease >= MIN_ACCEPTABLE_LEASE && ProperReply(a) && ShortWithEarlyT2(a)
    ensures var b := Bind(c, a, now);
            b.state == Bound && b.entered == now && b.boundTimeout == T1Of(a) > 0 && T1Of(a) + b.renewingTimeout > UINT_MAX
  {
  }

  lemma {:induction false} AloneInBound(b: Client, t1: nat, now: nat, n: nat)
    requires b.state == Bound && b.entered == now && b.boundTimeout == t1 > 0 && t1 + b.renewingTimeout > UINT_MAX
    requires now + n < UINT_MAX
    ensures Alone(b, now, n) == if n < t1 then b else Enter(b, Renewing, now + t1)
    decreases n
  {
    hide Run;
    var r := Enter(b, Renewing, now + t1);
    if n > 0 {
      AloneInBound(b, t1, now, n - 1);
    }
    if n < t1 {
      BoundStays(b, now + n);
    } else {
      RenewingStays(r, now + n);
      if n == t1 {
        BoundRenews(b, now + n);
      }
    }
  }

  /** A client bound by a short lease with an early T2 renews forever. */
  lemma AloneRenews(c: Client, a: Reply, now: nat, n: nat)
    requires Sane(c, now) && now + n < UINT_MAX
    requires a.Ack? && a.lease >= MIN_ACCEPTABLE_LEASE && ProperReply(a) && ShortWithEarlyT2(a)
    ensures var b := Bind(c, a, now);
            Alone(b, now, n) == if n < T1Of(a) then b else Enter(b, Renewing, now + T1Of(a))
  {
    EarlyT2Wraps(c, a, now);
    AloneInBound(Bind(c, a, now), T1Of(a), now, n);
  }

  /**
   * Exactly the short leases with an early T2 keep the address past the lease: left
   * alone from the moment it is bound, the client is still bound when the lease
   * expires if and only if it has such a lease.
   */
  lemma HeldPastLeaseIff(c: Client, a: Reply, now: nat)
    requires Sane(c, now) && a.Ack? && a.lease >= MIN_ACCEPTABLE_LEASE && ProperReply(a) && now + a.lease < UINT_MAX
    requires BindingInUse(c)
    ensures IsBound(Alone(Bind(c, a, now), now, a.lease).state) <==> ShortWithEarlyT2(a)
  {
    var b := Bind(c, a, now);
    if ShortWithEarlyT2(a) {
      AloneRenews(c, a, now, a.lease);
    } else {
      StagesFillLease(c, a, now);
      AloneOnTime(b, now + a.lease, now, a.lease);
    }
  }

  /** A lease of 20 seconds with T2 after 5 is such a lease: 100 seconds later the client still holds the address. */
  lemma LeaseOutlived() returns (c: Client, a: Reply)
    ensures Sane(c, 1000) && a.Ack? && a.lease == 20 && ProperReply(a) && Bind(c, a, 1000).leaseExpiration == 1020
    ensures IsBound(Alone(Bind(c, a, 1000), 1000, 100).state)
  {
    c := Enter(Created(990), Requesting, 1000);
    a := Ack(Config(1, 2, None, 3), 20, 0, 5, 0, 0);
    AloneRenews(c, a, 1000, 100);
    hide Alone;
  }
}
