/**
 Time over every run: how often a port sends configuration messages, how old
 the information in them may be, and how long a port waits before it forwards.
 These hold from any starting state and under every call, changes of priority
 and of path cost included.
 */
module StpTiming {
  import opened Options
  import opened StpModel
  import opened StpInvariants
  import opened StpRuns
  import opened StpSafety

  /** Configuration messages that port `p` has sent. */
  function ConfigsBy(log: seq<Frame>, p: nat): nat {
    if log == [] then 0
    else
      var f := log[|log| - 1];
      ConfigsBy(log[..|log| - 1], p) + if f.ConfigFrame? && f.p == p then 1 else 0
  }

  lemma ConfigsByAppend(log: seq<Frame>, f: Frame, p: nat)
    ensures ConfigsBy(log + [f], p) == ConfigsBy(log, p) + if f.ConfigFrame? && f.p == p then 1 else 0
  {
    assert (log + [f])[..|log|] == log;
  }

  /** No message is sent with information at or over its maximum age. */
  predicate Fresh(f: Frame) {
    f.ConfigFrame? ==> f.age < f.maxAge
  }

  ghost predicate LogGrows(l: seq<Frame>, m: seq<Frame>) {
    && |l| <= |m| && m[..|l|] == l
    && forall k: nat :: |l| <= k < |m| ==> Fresh(m[k])
  }

  // ---------- What a port may do while no time passes ----------

  predicate DelayQuiet(p: Port, q: Port) {
    && (DelayTimerOk(p) ==> DelayTimerOk(q))
    && (|| (q.state == p.state && q.forwardDelay == p.forwardDelay)
        || q.state == Blocking
        || q.state == Disabled
        || (q.state == Listening && q.forwardDelay == Start(0)))
  }

  /** `n` messages sent: at most one, and only if the hold timer was off. */
  predicate HoldQuiet(h: Timer, h': Timer, n: int) {
    (n == 0 && h' == h) || (n == 1 && !h.active && h' == Start(0))
  }

  ghost predicate Quiet(b: Bridge, c: Bridge) {
    && |c.ports| == |b.ports|
    && LogGrows(b.log, c.log)
    && forall p: nat :: p < |b.ports| ==>
         && DelayQuiet(b.ports[p], c.ports[p])
         && HoldQuiet(b.ports[p].hold, c.ports[p].hold, ConfigsBy(c.log, p) - ConfigsBy(b.log, p))
  }

  lemma QuietTransitive(b: Bridge, c: Bridge, d: Bridge)
    requires Quiet(b, c) && Quiet(c, d)
    ensures Quiet(b, d)
  {
    forall p: nat | p < |b.ports|
      ensures DelayQuiet(b.ports[p], d.ports[p])
      ensures HoldQuiet(b.ports[p].hold, d.ports[p].hold, ConfigsBy(d.log, p) - ConfigsBy(b.log, p))
    {
      assert DelayQuiet(c.ports[p], d.ports[p]);
    }
  }

  /** Changes that neither send nor touch hold timers are quiet if the delay timers are. */
  lemma SilentIsQuiet(b: Bridge, c: Bridge)
    requires |c.ports| == |b.ports| && c.log == b.log
    requires forall p: nat :: p < |b.ports| ==>
               DelayQuiet(b.ports[p], c.ports[p]) && c.ports[p].hold == b.ports[p].hold
    ensures Quiet(b, c)
  {
  }

  lemma TcnIsQuiet(b: Bridge)
    ensures Quiet(b, TransmitTcn(b))
  {
    if b.rootPort.Some? {
      forall p: nat ensures ConfigsBy(TransmitTcn(b).log, p) == ConfigsBy(b.log, p) {
        ConfigsByAppend(b.log, TcnFrame(b.rootPort.value), p);
      }
    }
  }

  lemma TransmitIsQuiet(b: Bridge, p: nat)
    requires b.HasPort(p) && b.RootPortInRange()
    ensures Quiet(b, TransmitConfig(b, p))
  {
    if !CanSpeak(b) || b.ports[p].hold.active || AgeField(b) >= b.maxAge {
      SilentIsQuiet(b, TransmitConfig(b, p));
    } else {
      SendIsQuiet(b, p, b.ports[p].(tcAck := false, configPending := false, hold := Start(0)),
                  ConfigFrame(p, b.Own(p), AgeField(b), b.maxAge, b.hello, b.fwd));
    }
  }

  lemma SendIsQuiet(b: Bridge, p: nat, q: Port, f: Frame)
    requires b.HasPort(p) && !b.ports[p].hold.active && f.ConfigFrame? && f.p == p && Fresh(f)
    requires q.hold == Start(0) && q.state == b.ports[p].state && q.forwardDelay == b.ports[p].forwardDelay
    ensures Quiet(b, b.SetPort(p, q).(log := b.log + [f]))
  {
    forall k: nat
      ensures ConfigsBy(b.log + [f], k) == ConfigsBy(b.log, k) + if k == p then 1 else 0
    {
      ConfigsByAppend(b.log, f, k);
    }
  }

  lemma {:induction false} GenerateIsQuiet(b: Bridge, n: nat)
    requires n <= |b.ports| && b.RootPortInRange()
    ensures Quiet(b, GenerateConfigs(b, n))
  {
    hide TransmitConfig, Quiet;
    if n == 0 {
      assert Quiet(b, b) by { SilentIsQuiet(b, b); }
    } else {
      GenerateIsQuiet(b, n - 1);
      var c := GenerateConfigs(b, n - 1);
      if c.On(n - 1) && c.Designated(n - 1) {
        TransmitIsQuiet(c, n - 1);
        QuietTransitive(b, c, GenerateConfigs(b, n));
      }
    }
  }

  lemma DetectionIsQuiet(b: Bridge)
    ensures Quiet(b, TopologyChangeDetection(b))
  {
    TcnIsQuiet(b);
  }

  lemma ReconfigureIsQuiet(b: Bridge)
    ensures Quiet(b, Reconfigure(b))
  {
    var c := ConfigurationUpdate(b);
    SilentIsQuiet(b, c);
    StateSelectionIsQuiet(c);
    QuietTransitive(b, c, Reconfigure(b));
  }

  lemma SelectedPortIsQuiet(b: Bridge, p: nat)
    requires b.HasPort(p)
    ensures DelayQuiet(b.ports[p], SelectState(b, p)) && SelectState(b, p).hold == b.ports[p].hold
  {
  }

  lemma StateSelectionIsQuiet(b: Bridge)
    requires b.RootPortInRange()
    ensures Quiet(b, StateSelection(b))
  {
    var d := TopologyChangeDetection(b);
    var e := StateSelection(b);
    DetectionIsQuiet(b);
    DetectionKeepsPorts(b);
    hide Quiet, SelectState, DelayQuiet, Loses, TopologyChangeDetection;
    forall p: nat | p < |b.ports|
      ensures DelayQuiet(b.ports[p], SelectState(b, p)) && SelectState(b, p).hold == b.ports[p].hold
    {
      SelectedPortIsQuiet(b, p);
    }
    if exists p :: 0 <= p < |b.ports| && Loses(b, p) {
      SilentIsQuiet(d, e);
      QuietTransitive(b, d, e);
    } else {
      SilentIsQuiet(b, e);
    }
  }

  lemma DetectionKeepsPorts(b: Bridge)
    requires b.RootPortInRange()
    ensures TopologyChangeDetection(b).ports == b.ports
  {
  }

  lemma BecomeRootIsQuiet(b: Bridge)
    requires b.RootPortInRange()
    ensures Quiet(b, BecomeRoot(b))
  {
    var a := AdoptOwnTimers(b);
    var c := TopologyChangeDetection(a);
    var d := c.(tcnTimer := Stop(c.tcnTimer));
    DetectionIsQuiet(a);
    assert Quiet(b, d);
    GenerateIsQuiet(d, |d.ports|);
    QuietTransitive(b, d, ConfigGeneration(d));
  }

  lemma ReconfigureAfterLossIsQuiet(b: Bridge, wasRoot: bool)
    ensures Quiet(b, ReconfigureAfterLoss(b, wasRoot))
  {
    hide Reconfigure, BecomeRoot, Quiet;
    var c := Reconfigure(b);
    ReconfigureIsQuiet(b);
    if c.IsRoot() && !wasRoot {
      BecomeRootIsQuiet(c);
      QuietTransitive(b, c, BecomeRoot(c));
    }
  }

  lemma StepDownIsQuiet(b: Bridge)
    ensures Quiet(b, StepDown(b))
  {
    TcnIsQuiet(b.(helloTimer := Stop(b.helloTimer), tcTimer := Stop(b.tcTimer)));
  }

  lemma GenerationAfterReceiptIsQuiet(b: Bridge, c: ConfigMsg)
    requires b.RootPortInRange()
    ensures Quiet(b, ConfigGeneration(RecordTimeouts(b, c)))
    ensures Quiet(b, ChangeAcknowledged(ConfigGeneration(RecordTimeouts(b, c))))
  {
    GenerateIsQuiet(RecordTimeouts(b, c), |b.ports|);
  }

  lemma ReceiptIsQuiet(b: Bridge, p: nat, c: ConfigMsg)
    requires b.HasPort(p) && b.RootPortInRange()
    ensures Quiet(b, ReceivedConfig(b, p, c))
  {
    hide Reconfigure, StepDown, ConfigGeneration, TransmitConfig;
    SilentIsQuiet(b, b);
    TransmitIsQuiet(b, p);
    if Accepted(b, p, c) {
      var r := RecordInfo(b, p, c);
      var b1 := Reconfigure(r);
      var b2 := if !b1.IsRoot() && b.IsRoot() then StepDown(b1) else b1;
      SilentIsQuiet(b, r);
      ReconfigureIsQuiet(r);
      QuietTransitive(b, r, b1);
      StepDownIsQuiet(b1);
      if !b1.IsRoot() && b.IsRoot() {
        QuietTransitive(b, b1, b2);
      }
      if b2.rootPort == Some(p) {
        GenerationAfterReceiptIsQuiet(b2, c);
        QuietTransitive(b, b2, ReceivedConfig(b, p, c));
      }
    }
  }

  lemma TcnReceiptIsQuiet(b: Bridge, p: nat)
    requires b.HasPort(p) && b.RootPortInRange()
    ensures Quiet(b, ReceivedTcn(b, p))
  {
    if b.On(p) && b.Designated(p) {
      var c := TopologyChangeDetection(b);
      DetectionIsQuiet(b);
      var d := c.SetPort(p, c.ports[p].(tcAck := true));
      SilentIsQuiet(c, d);
      QuietTransitive(b, c, d);
      TransmitIsQuiet(d, p);
      QuietTransitive(b, d, TransmitConfig(d, p));
    }
  }

  lemma AgePortIsQuiet(b: Bridge, p: nat, elapsed: nat)
    requires b.HasPort(p) && b.RootPortInRange()
    ensures Quiet(b, AgePort(b, p, elapsed))
  {
    hide ReconfigureAfterLoss;
    SilentIsQuiet(b, b);
    if b.On(p) {
      var t := b.ports[p].messageAge;
      var c := b.SetPort(p, b.ports[p].(messageAge := Advance(t, elapsed, b.maxAge)));
      SilentIsQuiet(b, c);
      if Expires(t, elapsed, b.maxAge) {
        var d := c.SetPort(p, BecomeDesignated(c, p));
        SilentIsQuiet(b, d);
        ReconfigureAfterLossIsQuiet(d, c.IsRoot());
        QuietTransitive(b, d, AgePort(b, p, elapsed));
      }
    }
  }

  lemma {:induction false} AgePhaseIsQuiet(b: Bridge, n: nat, elapsed: nat)
    requires n <= |b.ports| && b.RootPortInRange()
    ensures Quiet(b, AgePhase(b, n, elapsed))
  {
    hide AgePort, Quiet;
    if n == 0 {
      assert Quiet(b, b) by { SilentIsQuiet(b, b); }
    } else {
      AgePhaseIsQuiet(b, n - 1, elapsed);
      AgePortIsQuiet(AgePhase(b, n - 1, elapsed), n - 1, elapsed);
      QuietTransitive(b, AgePhase(b, n - 1, elapsed), AgePhase(b, n, elapsed));
    }
  }

  lemma HelloPhaseIsQuiet(b: Bridge, elapsed: nat)
    requires b.RootPortInRange()
    ensures Quiet(b, HelloPhase(b, elapsed))
  {
    GenerateIsQuiet(b.(helloTimer := Advance(b.helloTimer, elapsed, b.hello)), |b.ports|);
  }

  lemma TcPhasesAreQuiet(b: Bridge, elapsed: nat)
    ensures Quiet(b, TcPhase(TcnPhase(b, elapsed), elapsed))
  {
    TcnIsQuiet(b.(tcnTimer := Advance(b.tcnTimer, elapsed, b.ownHello)));
  }

  lemma TickFrontIsQuiet(b: Bridge, elapsed: nat)
    requires b.RootPortInRange()
    ensures Quiet(b, TickFront(b, elapsed))
  {
    hide HelloPhase, TcPhase, TcnPhase, AgePhase, Quiet;
    var h := HelloPhase(b, elapsed);
    var t := TcPhase(TcnPhase(h, elapsed), elapsed);
    HelloPhaseIsQuiet(b, elapsed);
    TcPhasesAreQuiet(h, elapsed);
    QuietTransitive(b, h, t);
    AgePhaseIsQuiet(t, |b.ports|, elapsed);
    QuietTransitive(b, t, TickFront(b, elapsed));
  }

  // ---------- The two timers that a tick advances last ----------

  /** What one tick of `elapsed` does to a hold timer; `n` messages are sent. */
  predicate HoldTicked(h: Timer, h': Timer, n: int, elapsed: nat) {
    || (n == 0 && h' == Advance(h, elapsed, HOLD_TICKS))
    || (n == 1 && Expires(h, elapsed, HOLD_TICKS) && h' == Start(0))
  }

  predicate SameDelay(p: Port, q: Port) {
    q.state == p.state && q.forwardDelay == p.forwardDelay
  }

  ghost predicate PortTicked(b: Bridge, c: Bridge, p: nat, elapsed: nat)
    requires b.HasPort(p) && |c.ports| == |b.ports|
  {
    && HoldTicked(b.ports[p].hold, c.ports[p].hold, ConfigsBy(c.log, p) - ConfigsBy(b.log, p), elapsed)
    && SameDelay(Delayed(b.ports[p], elapsed, b.fwd), c.ports[p])
  }

  /** Ports below `n` have been advanced if they are enabled; nothing happened on the others. */
  ghost predicate Ticked(b: Bridge, c: Bridge, n: nat, elapsed: nat) {
    && n <= |b.ports| == |c.ports| && c.fwd == b.fwd && LogGrows(b.log, c.log)
    && forall p: nat :: p < |b.ports| ==>
         if p < n && b.On(p) then PortTicked(b, c, p, elapsed)
         else c.ports[p] == b.ports[p] && ConfigsBy(c.log, p) == ConfigsBy(b.log, p)
  }

  /** Only port `p` moves, and it moves as one tick of the two timers allows. */
  lemma OnePortTicks(b: Bridge, p: nat, elapsed: nat)
    requires b.On(p) && b.RootPortInRange()
    ensures var c := HoldPort(DelayPort(b, p, elapsed), p, elapsed);
            && PortTicked(b, c, p, elapsed)
            && c.fwd == b.fwd && LogGrows(b.log, c.log)
            && forall q: nat :: q < |b.ports| && q != p ==>
                 c.ports[q] == b.ports[q] && ConfigsBy(c.log, q) == ConfigsBy(b.log, q)
  {
    DelayPortShape(b, p, elapsed);
    DelayPortSilent(b, p, elapsed);
    HoldPortTicks(DelayPort(b, p, elapsed), p, elapsed);
  }

  lemma DelayPortSilent(b: Bridge, p: nat, elapsed: nat)
    requires b.HasPort(p)
    ensures LogGrows(b.log, DelayPort(b, p, elapsed).log)
    ensures forall q: nat :: ConfigsBy(DelayPort(b, p, elapsed).log, q) == ConfigsBy(b.log, q)
  {
    if b.rootPort.Some? {
      forall q: nat
        ensures ConfigsBy(b.log + [TcnFrame(b.rootPort.value)], q) == ConfigsBy(b.log, q)
      {
        ConfigsByAppend(b.log, TcnFrame(b.rootPort.value), q);
      }
    }
  }

  /** With the hold timer off, a port sends at most one message, and then starts the timer. */
  lemma TransmitOnce(b: Bridge, p: nat)
    requires b.HasPort(p) && b.RootPortInRange() && !b.ports[p].hold.active
    ensures var c := TransmitConfig(b, p);
            && (|| (c.ports[p].hold == b.ports[p].hold && ConfigsBy(c.log, p) == ConfigsBy(b.log, p))
                || (c.ports[p].hold == Start(0) && ConfigsBy(c.log, p) == ConfigsBy(b.log, p) + 1))
            && SameDelay(b.ports[p], c.ports[p]) && c.fwd == b.fwd && LogGrows(b.log, c.log)
            && forall q: nat :: q < |b.ports| && q != p ==>
                 c.ports[q] == b.ports[q] && ConfigsBy(c.log, q) == ConfigsBy(b.log, q)
  {
    if CanSpeak(b) && AgeField(b) < b.maxAge {
      SendOnce(b.log, ConfigFrame(p, b.Own(p), AgeField(b), b.maxAge, b.hello, b.fwd));
    }
    hide ConfigsBy, Fresh;
  }

  lemma SendOnce(log: seq<Frame>, f: Frame)
    requires f.ConfigFrame? && Fresh(f)
    ensures LogGrows(log, log + [f])
    ensures forall q: nat :: ConfigsBy(log + [f], q) == ConfigsBy(log, q) + if q == f.p then 1 else 0
  {
    forall q: nat
      ensures ConfigsBy(log + [f], q) == ConfigsBy(log, q) + if q == f.p then 1 else 0
    {
      ConfigsByAppend(log, f, q);
    }
  }

  lemma HoldPortTicks(b: Bridge, p: nat, elapsed: nat)
    requires b.HasPort(p) && b.RootPortInRange()
    ensures var c := HoldPort(b, p, elapsed);
            && HoldTicked(b.ports[p].hold, c.ports[p].hold, ConfigsBy(c.log, p) - ConfigsBy(b.log, p), elapsed)
            && SameDelay(b.ports[p], c.ports[p])
            && c.fwd == b.fwd && LogGrows(b.log, c.log)
            && forall q: nat :: q < |b.ports| && q != p ==>
                 c.ports[q] == b.ports[q] && ConfigsBy(c.log, q) == ConfigsBy(b.log, q)
  {
    var t := b.ports[p].hold;
    var d := b.SetPort(p, b.ports[p].(hold := Advance(t, elapsed, HOLD_TICKS)));
    hide ConfigsBy, TransmitConfig, Fresh;
    if Expires(t, elapsed, HOLD_TICKS) && d.ports[p].configPending {
      TransmitOnce(d, p);
    }
  }

  lemma LogGrowsFurther(l: seq<Frame>, m: seq<Frame>, n: seq<Frame>)
    requires LogGrows(l, m) && LogGrows(m, n)
    ensures LogGrows(l, n)
  {
    assert n[..|l|] == n[..|m|][..|l|];
  }

  lemma TickedNext(b: Bridge, c: Bridge, d: Bridge, n: nat, elapsed: nat)
    requires Ticked(b, c, n, elapsed) && b.On(n) && |d.ports| == |c.ports|
    requires PortTicked(c, d, n, elapsed) && d.fwd == c.fwd && LogGrows(c.log, d.log)
    requires forall q: nat :: q < |c.ports| && q != n ==>
               d.ports[q] == c.ports[q] && ConfigsBy(d.log, q) == ConfigsBy(c.log, q)
    ensures Ticked(b, d, n + 1, elapsed)
  {
    LogGrowsFurther(b.log, c.log, d.log);
    hide LogGrows, HoldTicked, SameDelay, Delayed, ConfigsBy;
    assert c.ports[n] == b.ports[n] && ConfigsBy(c.log, n) == ConfigsBy(b.log, n);
    forall p: nat | p < n && b.On(p)
      ensures PortTicked(b, d, p, elapsed)
    {
      assert PortTicked(b, c, p, elapsed);
    }
  }

  lemma {:induction false} DelayPhaseTicks(b: Bridge, n: nat, elapsed: nat)
    requires n <= |b.ports| && b.RootPortInRange()
    ensures Ticked(b, DelayPhase(b, n, elapsed), n, elapsed)
  {
    hide DelayPort, HoldPort, HoldTicked, SameDelay, Delayed;
    if n > 0 {
      hide LogGrows, ConfigsBy;
      DelayPhaseTicks(b, n - 1, elapsed);
      var c := DelayPhase(b, n - 1, elapsed);
      assert c.ports[n - 1] == b.ports[n - 1] && c.On(n - 1) == b.On(n - 1);
      if c.On(n - 1) {
        OnePortTicks(c, n - 1, elapsed);
        TickedNext(b, c, DelayPhase(b, n, elapsed), n - 1, elapsed);
      }
    }
  }

  // ---------- One call, seen from one port ----------

  /** Everything but a tick is quiet; enabling a port restarts only that port. */
  lemma CallIsQuiet(b: Bridge, e: Event)
    requires Applies(b, e) && !e.Elapse? && !e.Enable?
    ensures Quiet(b, Step(b, e))
  {
    hide Reconfigure, ReconfigureAfterLoss, StateSelection, ReceivedConfig, ReceivedTcn;
    SilentIsQuiet(b, b);
    match e
    case Receive(p, m) =>
      match m {
        case Malformed =>
        case Config(c) => ReceiptIsQuiet(b, p, c);
        case Tcn => TcnReceiptIsQuiet(b, p);
      }
    case Disable(p) =>
      if b.On(p) {
        var q := BecomeDesignated(b, p);
        var c := b.SetPort(p, q.(state := Disabled, tcAck := false, configPending := false,
                                 messageAge := Stop(q.messageAge), forwardDelay := Stop(q.forwardDelay)));
        SilentIsQuiet(b, c);
        ReconfigureAfterLossIsQuiet(c, b.IsRoot());
        QuietTransitive(b, c, Step(b, e));
      }
    case ChangeId(id) =>
      if id != b.id {
        var c := b.(id := id,
                    ports := seq(|b.ports|, i requires 0 <= i < |b.ports| =>
                               if b.On(i) && b.Designated(i)
                               then b.ports[i].(desig := b.ports[i].desig.(bridge := id))
                               else b.ports[i]));
        SilentIsQuiet(b, c);
        ReconfigureAfterLossIsQuiet(c, b.IsRoot());
        QuietTransitive(b, c, Step(b, e));
      }
    case ChangeCost(p, cost) =>
      if b.ports[p].pathCost != cost {
        var c := b.SetPort(p, b.ports[p].(pathCost := cost));
        SilentIsQuiet(b, c);
        ReconfigureIsQuiet(c);
        QuietTransitive(b, c, Step(b, e));
      }
    case ChangePriority(p, priority) => PriorityIsQuiet(b, p, priority);
    case RequestHello(_) => SilentIsQuiet(b, Step(b, e));
    case RequestMaxAge(_) => SilentIsQuiet(b, Step(b, e));
    case RequestForwardDelay(_) => SilentIsQuiet(b, Step(b, e));
    case DetectChanges(p, on) => SilentIsQuiet(b, Step(b, e));
  }

  lemma PriorityIsQuiet(b: Bridge, p: nat, priority: nat)
    requires b.HasPort(p) && b.RootPortInRange()
    ensures Quiet(b, SetPriority(b, p, priority))
  {
    hide StateSelection;
    SilentIsQuiet(b, b);
    var newId := b.ports[p].portId % 0x100 + priority * 0x100;
    var q := if b.Designated(p) then b.ports[p].(desig := b.ports[p].desig.(port := newId)) else b.ports[p];
    var c := b.SetPort(p, q.(portId := newId));
    SilentIsQuiet(b, c);
    var d := c.SetPort(p, BecomeDesignated(c, p));
    SilentIsQuiet(b, d);
    StateSelectionIsQuiet(d);
    QuietTransitive(b, d, StateSelection(d));
  }

  /**
   One call, seen from port `p`: first something quiet, reaching `m` with `n`
   messages sent, and then, if the call is a tick, the two timers.
   */
  lemma CallOnPort(b: Bridge, e: Event, p: nat) returns (m: Port, n: int)
    requires Applies(b, e) && b.HasPort(p)
    ensures DelayQuiet(b.ports[p], m)
    ensures LogGrows(b.log, Step(b, e).log)
    ensures b.On(p) ==> HoldQuiet(b.ports[p].hold, m.hold, n)
    ensures var c, sent := Step(b, e), ConfigsBy(Step(b, e).log, p) - ConfigsBy(b.log, p);
            if TicksOf(e) > 0 && m.Enabled()
            then HoldTicked(m.hold, c.ports[p].hold, sent - n, e.ticks) && SameDelay(Delayed(m, e.ticks, c.fwd), c.ports[p])
            else m == c.ports[p] && n == sent
  {
    hide DelayPhase, TickFront, PortEnable, ReceivedBpdu, SetBridgeId, PortDisable, SetPathCost, SetPriority, UpdateBridgeTimers;
    var c := Step(b, e);
    m, n := c.ports[p], ConfigsBy(c.log, p) - ConfigsBy(b.log, p);
    if e.Elapse? {
      if e.ticks > 0 {
        var f := TickFront(b, e.ticks);
        TickFrontIsQuiet(b, e.ticks);
        DelayPhaseTicks(f, |b.ports|, e.ticks);
        m, n := f.ports[p], ConfigsBy(f.log, p) - ConfigsBy(b.log, p);
        assert if f.On(p) then PortTicked(f, c, p, e.ticks)
               else c.ports[p] == f.ports[p] && ConfigsBy(c.log, p) == ConfigsBy(f.log, p);
      }
    } else if e.Enable? {
      EnableOnPorts(b, e.p);
    } else {
      CallIsQuiet(b, e);
    }
  }

  lemma EnableOnPorts(b: Bridge, p: nat)
    requires b.HasPort(p) && b.RootPortInRange()
    ensures LogGrows(b.log, PortEnable(b, p).log)
    ensures forall q: nat :: q < |b.ports| ==>
              && DelayQuiet(b.ports[q], PortEnable(b, p).ports[q])
              && (b.On(q) ==> HoldQuiet(b.ports[q].hold, PortEnable(b, p).ports[q].hold,
                                        ConfigsBy(PortEnable(b, p).log, q) - ConfigsBy(b.log, q)))
  {
    hide StateSelection;
    if !b.On(p) {
      var c := b.SetPort(p, InitializePort(b, p, Blocking));
      StateSelectionIsQuiet(c);
      assert forall q: nat :: q < |b.ports| ==> DelayQuiet(b.ports[q], c.ports[q]);
      assert forall q: nat :: q < |b.ports| ==> DelayQuiet(c.ports[q], PortEnable(b, p).ports[q]);
    }
  }

  // ---------- Sending rate ----------

  /** Ticks that must have passed for `n` messages to have been sent and the timer to read `h`. */
  function Debt(n: nat, h: Timer): nat {
    if n == 0 then 0 else HOLD_TICKS * (n - 1) + if h.active then h.value else HOLD_TICKS
  }

  lemma DebtPaid(n: nat, h: Timer, m: Timer, h': Timer, k: int, l: int, elapsed: nat)
    requires HoldQuiet(h, m, k)
    requires HoldTicked(m, h', l, elapsed) || (h' == m && l == 0)
    ensures k >= 0 && l >= 0
    ensures Debt(n + k + l, h') <= Debt(n, h) + elapsed
  {
  }

  lemma {:induction false} DebtOverRun(b: Bridge, es: seq<Event>, s: seq<Bridge>, p: nat, i: nat, j: nat)
    requires IsRun(b, es, s) && i <= j <= |es|
    requires forall k: nat :: i <= k < j ==> s[k].On(p)
    requires p < |s[j].ports| && p < |s[i].ports|
    ensures ConfigsBy(s[j].log, p) >= ConfigsBy(s[i].log, p)
    ensures Debt(ConfigsBy(s[j].log, p) - ConfigsBy(s[i].log, p), s[j].ports[p].hold) <= Ticks(es, i, j)
  {
    hide Step, HoldTicked, HoldQuiet;
    if i < j {
      DebtOverRun(b, es, s, p, i, j - 1);
      var m, n := CallOnPort(s[j - 1], es[j - 1], p);
      var sent := ConfigsBy(s[j].log, p) - ConfigsBy(s[j - 1].log, p);
      DebtPaid(ConfigsBy(s[j - 1].log, p) - ConfigsBy(s[i].log, p), s[j - 1].ports[p].hold, m.hold,
               s[j].ports[p].hold, n, sent - n, TicksOf(es[j - 1]));
    }
  }

  /**
   In any stretch of calls during which a port stays enabled, each
   configuration message after the first costs it a full hold time.
   */
  lemma HoldTimeLimitsRate(b: Bridge, es: seq<Event>, s: seq<Bridge>, p: nat, i: nat, j: nat)
    requires IsRun(b, es, s) && i <= j <= |es|
    requires forall k: nat :: i <= k <= j ==> s[k].On(p)
    ensures HOLD_TICKS * (ConfigsBy(s[j].log, p) - ConfigsBy(s[i].log, p) - 1) <= Ticks(es, i, j)
  {
    hide Step, Ticks;
    DebtOverRun(b, es, s, p, i, j);
  }

  /** Nothing that a run sends is too old. */
  lemma {:induction false} SentInfoIsFresh(b: Bridge, es: seq<Event>, s: seq<Bridge>, n: nat)
    requires IsRun(b, es, s) && n <= |es|
    requires forall f :: f in b.log ==> Fresh(f)
    ensures forall f :: f in s[n].log ==> Fresh(f)
  {
    if n > 0 {
      SentInfoIsFresh(b, es, s, n - 1);
      CallLogGrows(s[n - 1], es[n - 1]);
      forall f | f in s[n].log
        ensures Fresh(f)
      {
        var k: nat :| k < |s[n].log| && s[n].log[k] == f;
        if k < |s[n - 1].log| {
          assert s[n].log[..|s[n - 1].log|][k] == s[n - 1].log[k];
          assert s[n - 1].log[k] in s[n - 1].log;
        }
      }
    }
  }

  lemma CallLogGrows(b: Bridge, e: Event)
    requires Applies(b, e)
    ensures LogGrows(b.log, Step(b, e).log)
  {
    if |b.ports| > 0 {
      var _, _ := CallOnPort(b, e, 0);
    } else if e.Elapse? {
      TickFrontIsQuiet(b, e.ticks);
      DelayPhaseTicks(TickFront(b, e.ticks), |b.ports|, e.ticks);
    } else {
      CallIsQuiet(b, e);
    }
  }

  // ---------- The way to forwarding ----------

  /** Port `p` is in state `st` after every call from number `i` up to, not including, `j`. */
  ghost predicate Stays(s: seq<Bridge>, p: nat, st: PortState, i: nat, j: nat) {
    forall k: nat :: i < k <= j ==> k < |s| && s[k].HasPort(p) && s[k].ports[p].state == st
  }

  /** Call `i` is a tick that ends a wait, begun by call `h`, of at least the forward delay. */
  ghost predicate WaitEnds(es: seq<Event>, s: seq<Bridge>, h: nat, i: nat) {
    && h <= i < |es| && |s| == |es| + 1
    && es[i].Elapse?
    && Ticks(es, h, i + 1) >= s[i + 1].fwd
  }

  /** Port `p` listened from call `h` on, and call `i` took it to learning. */
  ghost predicate Listened(es: seq<Event>, s: seq<Bridge>, p: nat, h: nat, i: nat) {
    Stays(s, p, Listening, h, i) && WaitEnds(es, s, h, i)
  }

  /** It then learned up to call `j`, a later one, which took it to forwarding. */
  ghost predicate Learned(es: seq<Event>, s: seq<Bridge>, p: nat, i: nat, j: nat) {
    i < j && Stays(s, p, Learning, i, j) && WaitEnds(es, s, i + 1, j)
  }

  /** How port `p` came to be in the state it is in after `n` calls. */
  ghost predicate Past(es: seq<Event>, s: seq<Bridge>, p: nat, n: nat)
    requires n <= |es| && |s| == |es| + 1 && s[n].HasPort(p)
  {
    var q := s[n].ports[p];
    match q.state
    case Disabled => true
    case Blocking => true
    case Listening => exists h: nat :: h < n && Stays(s, p, Listening, h, n) && q.forwardDelay.value <= Ticks(es, h, n)
    case Learning => exists h: nat, i: nat ::
      i < n && Listened(es, s, p, h, i) && Stays(s, p, Learning, i, n) && q.forwardDelay.value <= Ticks(es, i + 1, n)
    case Forwarding => exists h: nat, i: nat, j: nat ::
      j < n && Listened(es, s, p, h, i) && Learned(es, s, p, i, j) && Stays(s, p, Forwarding, j, n)
  }

  /** Every port's state after every call of a run has such a past. */
  lemma {:induction false} EveryStateHasPast(b: Bridge, es: seq<Event>, s: seq<Bridge>, p: nat, n: nat)
    requires IsRun(b, es, s) && n <= |es| && b.HasPort(p)
    requires DelayTimerOk(b.ports[p]) && (b.ports[p].state == Disabled || b.ports[p].state == Blocking)
    ensures s[n].HasPort(p) && DelayTimerOk(s[n].ports[p])
    ensures Past(es, s, p, n)
  {
    if n > 0 {
      EveryStateHasPast(b, es, s, p, n - 1);
      var m, _ := CallOnPort(s[n - 1], es[n - 1], p);
      PastContinues(es, s, p, n - 1, m);
    }
  }

  /** Call `n` moves port `p`, found as `m` when the quiet part of the call is over. */
  ghost predicate MovesTo(es: seq<Event>, s: seq<Bridge>, p: nat, n: nat, m: Port)
    requires n < |es| && |s| == |es| + 1 && s[n + 1].HasPort(p)
  {
    if TicksOf(es[n]) > 0 && m.Enabled()
    then SameDelay(Delayed(m, TicksOf(es[n]), s[n + 1].fwd), s[n + 1].ports[p])
    else m == s[n + 1].ports[p]
  }

  lemma PastContinues(es: seq<Event>, s: seq<Bridge>, p: nat, n: nat, m: Port)
    requires n < |es| && |s| == |es| + 1 && s[n].HasPort(p) && s[n + 1].HasPort(p)
    requires DelayTimerOk(s[n].ports[p]) && Past(es, s, p, n)
    requires DelayQuiet(s[n].ports[p], m) && MovesTo(es, s, p, n, m)
    ensures DelayTimerOk(s[n + 1].ports[p]) && Past(es, s, p, n + 1)
  {
    hide Stays, Listened, Learned;
    var q := s[n].ports[p];
    if m.state == Listening && m.forwardDelay == Start(0) {
      WaitStarts(es, s, p, n, m);
    } else if SameDelay(q, m) {
      match q.state
      case Disabled =>
      case Blocking =>
      case Listening =>
        var h: nat :| h < n && Stays(s, p, Listening, h, n) && q.forwardDelay.value <= Ticks(es, h, n);
        ListeningContinues(es, s, p, n, m, h);
      case Learning =>
        var h: nat, i: nat :| i < n && Listened(es, s, p, h, i) && Stays(s, p, Learning, i, n)
                              && q.forwardDelay.value <= Ticks(es, i + 1, n);
        LearningContinues(es, s, p, n, m, h, i);
      case Forwarding =>
        var h: nat, i: nat, j: nat :| j < n && Listened(es, s, p, h, i) && Learned(es, s, p, i, j)
                                      && Stays(s, p, Forwarding, j, n);
        StayLonger(s, p, Forwarding, j, n);
    }
  }

  lemma StayLonger(s: seq<Bridge>, p: nat, st: PortState, i: nat, n: nat)
    requires Stays(s, p, st, i, n) && n + 1 < |s| && s[n + 1].HasPort(p)
    ensures s[n + 1].ports[p].state == st ==> Stays(s, p, st, i, n + 1)
  {
  }

  lemma WaitStarts(es: seq<Event>, s: seq<Bridge>, p: nat, n: nat, m: Port)
    requires n < |es| && |s| == |es| + 1 && s[n + 1].HasPort(p) && MovesTo(es, s, p, n, m)
    requires m.state == Listening && m.forwardDelay == Start(0)
    ensures DelayTimerOk(s[n + 1].ports[p]) && Past(es, s, p, n + 1)
  {
    assert Ticks(es, n, n + 1) == TicksOf(es[n]);
    if s[n + 1].ports[p].state == Listening {
      assert Stays(s, p, Listening, n, n + 1);
    } else {
      assert Listened(es, s, p, n, n);
      assert Stays(s, p, Learning, n, n + 1);
    }
  }

  lemma ListeningContinues(es: seq<Event>, s: seq<Bridge>, p: nat, n: nat, m: Port, h: nat)
    requires n < |es| && |s| == |es| + 1 && s[n + 1].HasPort(p) && MovesTo(es, s, p, n, m)
    requires m.state == Listening && m.forwardDelay.active
    requires h < n && Stays(s, p, Listening, h, n) && m.forwardDelay.value <= Ticks(es, h, n)
    ensures DelayTimerOk(s[n + 1].ports[p]) && Past(es, s, p, n + 1)
  {
    assert Ticks(es, h, n + 1) == Ticks(es, h, n) + TicksOf(es[n]);
    StayLonger(s, p, Listening, h, n);
    if s[n + 1].ports[p].state == Learning {
      assert Listened(es, s, p, h, n);
      assert Stays(s, p, Learning, n, n + 1);
    }
  }

  lemma LearningContinues(es: seq<Event>, s: seq<Bridge>, p: nat, n: nat, m: Port, h: nat, i: nat)
    requires n < |es| && |s| == |es| + 1 && s[n + 1].HasPort(p) && MovesTo(es, s, p, n, m)
    requires m.state == Learning && m.forwardDelay.active
    requires i < n && Listened(es, s, p, h, i) && Stays(s, p, Learning, i, n)
    requires m.forwardDelay.value <= Ticks(es, i + 1, n)
    ensures DelayTimerOk(s[n + 1].ports[p]) && Past(es, s, p, n + 1)
  {
    hide Listened;
    assert Ticks(es, i + 1, n + 1) == Ticks(es, i + 1, n) + TicksOf(es[n]);
    StayLonger(s, p, Learning, i, n);
    if s[n + 1].ports[p].state == Forwarding {
      assert Learned(es, s, p, i, n);
      assert Stays(s, p, Forwarding, n, n + 1);
    }
  }

  /**
   A port of a newly created bridge forwards only after a tick that ended a
   listening wait of the forward delay and a later tick that ended a learning
   wait of the forward delay, and it has stayed in each state in between.
   */
  lemma ForwardingTakesTwoDelays(id: nat, es: seq<Event>, s: seq<Bridge>, p: nat, n: nat)
    requires IsRun(Initial(id), es, s) && n <= |es| && p < MAX_PORTS
    ensures s[n].HasPort(p)
    ensures s[n].ports[p].state == Forwarding ==>
              exists h: nat, i: nat, j: nat ::
                h <= i < j < n && Listened(es, s, p, h, i) && Learned(es, s, p, i, j) && Stays(s, p, Forwarding, j, n)
    ensures s[n].ports[p].forwardDelay.active <==> s[n].ports[p].state == Listening || s[n].ports[p].state == Learning
  {
    EveryStateHasPast(Initial(id), es, s, p, n);
  }

  /** No single call takes a port to forwarding unless it was learning or forwarding already. */
  lemma NoShortcutToForwarding(b: Bridge, e: Event, p: nat)
    requires Applies(b, e) && b.HasPort(p) && DelayTimerOk(b.ports[p])
    requires Step(b, e).ports[p].state == Forwarding
    ensures b.ports[p].state == Forwarding || (b.ports[p].state == Learning && e.Elapse?)
  {
    var _, _ := CallOnPort(b, e, p);
  }
}
