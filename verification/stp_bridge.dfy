/**
 The bridge of lib/stp.c in its own form: one object whose fields and port
 array every procedure updates in place.  Each method is proved to compute the
 function of the same name in StpModel, which is what the protocol theorems are
 about.
 */
module StpBridge {
  import opened Options
  import opened StpModel
  import M = StpModel
  import R = StpRuns
  import opened StpSelection
  import opened StpInvariants
  import opened StpSafety

  /** The state after the first `n` steps of the loop of state selection. */
  ghost function StatesUpTo(b: Bridge, n: nat): Bridge
    requires n <= |b.ports|
  {
    (if exists k :: 0 <= k < n && Loses(b, k) then TopologyChangeDetection(b) else b)
    .(ports := seq(|b.ports|, i requires 0 <= i < |b.ports| => if i < n then SelectState(b, i) else b.ports[i]))
  }

  /** Reporting a change is idempotent and does not look at the ports. */
  lemma DetectionRepeats(b: Bridge, ps: seq<Port>)
    requires |ps| == |b.ports|
    ensures TopologyChangeDetection(b.(ports := ps)) == TopologyChangeDetection(b).(ports := ps)
    ensures TopologyChangeDetection(TopologyChangeDetection(b)) == TopologyChangeDetection(b)
    ensures TopologyChangeDetection(b).ports == b.ports
  {
  }

  lemma StatesUpToNext(b: Bridge, n: nat)
    requires n < |b.ports|
    ensures var s := StatesUpTo(b, n);
            var t := if Loses(b, n) then TopologyChangeDetection(s) else s;
            StatesUpTo(b, n + 1) == t.(ports := s.ports[n := SelectState(b, n)])
  {
    var s := StatesUpTo(b, n);
    DetectionRepeats(b, s.ports);
    assert StatesUpTo(b, n + 1).ports == s.ports[n := SelectState(b, n)];
    if exists k :: 0 <= k < n && Loses(b, k) {
      DetectionRepeats(TopologyChangeDetection(b), s.ports);
    }
  }

  lemma UnvisitedPort(b: Bridge, n: nat)
    requires n < |b.ports|
    ensures var s := StatesUpTo(b, n);
            && s.ports[n] == b.ports[n] && |s.ports| == |b.ports|
            && s.id == b.id && s.root == b.root && s.rootPort == b.rootPort && s.Designated(n) == b.Designated(n)
  {
  }

  lemma StatesUpToEnds(b: Bridge)
    requires b.RootPortInRange()
    ensures StatesUpTo(b, 0) == b && StatesUpTo(b, |b.ports|) == StateSelection(b)
  {
    assert StatesUpTo(b, 0).ports == b.ports;
    assert StatesUpTo(b, |b.ports|).ports == StateSelection(b).ports;
  }

  class Stp {
    var id: nat
    var maxAge: nat
    var hello: nat
    var fwd: nat
    var ownMaxAge: nat
    var ownHello: nat
    var ownFwd: nat
    var rqMaxAge: int
    var rqHello: int
    var rqFwd: int
    var root: nat
    var rootCost: nat
    var rootPort: Option<nat>
    var tcDetected: bool
    var tc: bool
    var helloTimer: Timer
    var tcnTimer: Timer
    var tcTimer: Timer
    const ports: array<Port>
    var log: seq<Frame>

    ghost function View(): Bridge
      reads this, ports
    {
      Bridge(id, maxAge, hello, fwd, ownMaxAge, ownHello, ownFwd, rqMaxAge, rqHello, rqFwd,
             root, rootCost, rootPort, tcDetected, tc, helloTimer, tcnTimer, tcTimer, ports[..], log)
    }

    ghost predicate Valid()
      reads this
    {
      rootPort.Some? ==> rootPort.value < ports.Length
    }

    /** A new bridge; an identifier without a priority gets the default one. */
    constructor (bridgeId: nat)
      ensures Valid() && fresh(ports)
      ensures View() == Initial(if bridgeId / 0x1_0000_0000_0000 == 0
                                then bridgeId + 32768 * 0x1_0000_0000_0000 else bridgeId)
    {
      var ident := bridgeId;
      if ident / 0x1_0000_0000_0000 == 0 {
        ident := ident + 32768 * 0x1_0000_0000_0000;
      }
      var off := Timer(false, 0);
      id, root, rootCost, rootPort := ident, ident, 0, None;
      rqMaxAge, rqHello, rqFwd := 6000, 2000, 4000;
      maxAge, hello, fwd, ownMaxAge, ownHello, ownFwd := 0, 0, 0, 0, 0, 0;
      tcDetected, tc := false, false;
      helloTimer, tcnTimer, tcTimer := Timer(true, 0), off, off;
      log := [];
      ports := new Port[MAX_PORTS](i =>
        Port((i + 1) + 128 * 0x100, Disabled, 19, Vector(ident, 0, ident, (i + 1) + 128 * 0x100),
             false, false, true, off, off, off));
      new;
      hide M.UpdateBridgeTimers;
      assert ports[..] == seq(MAX_PORTS, i requires 0 <= i < MAX_PORTS => InitialPort(ident, i));
      UpdateBridgeTimers();
      AdoptOwnTimers();
    }

    method UpdateBridgeTimers()
      modifies this`ownHello, this`ownMaxAge, this`ownFwd, this`maxAge, this`hello, this`fwd
      ensures View() == M.UpdateBridgeTimers(old(View()))
    {
      hide M.Clamp, M.MsToTimer, M.AdoptOwnTimers;
      var ht := Clamp(rqHello, 1000, 10000);
      var least := if 2 * (ht + 1000) > 6000 then 2 * (ht + 1000) else 6000;
      var ma := Clamp(rqMaxAge, least, 40000);
      var fd := Clamp(rqFwd, ma / 2 + 1000, 30000);
      ownHello, ownMaxAge, ownFwd := MsToTimer(ht), MsToTimer(ma), MsToTimer(fd);
      if id == root {
        AdoptOwnTimers();
      }
    }

    method AdoptOwnTimers()
      modifies this`maxAge, this`hello, this`fwd
      ensures View() == M.AdoptOwnTimers(old(View()))
    {
      maxAge, hello, fwd := ownMaxAge, ownHello, ownFwd;
    }

    predicate IsDesignated(p: nat)
      requires p < ports.Length
      reads this, ports
    {
      ports[p].desig.bridge == id && ports[p].desig.port == ports[p].portId
    }

    // ---------- Sending ----------

    method TransmitConfig(p: nat)
      requires Valid() && p < ports.Length
      modifies this`log, ports
      ensures Valid() && View() == M.TransmitConfig(old(View()), p)
    {
      var isRoot := id == root;
      if !isRoot && rootPort.None? {
        return;
      }
      if ports[p].hold.active {
        ports[p] := ports[p].(configPending := true);
      } else {
        var age := 0;
        if !isRoot {
          age := (ports[rootPort.value].messageAge.value + MESSAGE_AGE_INCREMENT) % 0x1_0000;
        }
        if age < maxAge {
          log := log + [ConfigFrame(p, Vector(root, rootCost, id, ports[p].portId), age, maxAge, hello, fwd)];
          ports[p] := ports[p].(tcAck := false, configPending := false, hold := Timer(true, 0));
        }
      }
    }

    method ConfigBpduGeneration()
      requires Valid()
      modifies this`log, ports
      ensures Valid() && View() == ConfigGeneration(old(View()))
    {
      for i := 0 to ports.Length
        invariant Valid() && View() == GenerateConfigs(old(View()), i)
      {
        if ports[i].Enabled() && IsDesignated(i) {
          TransmitConfig(i);
        }
      }
    }

    method TransmitTcn()
      modifies this`log
      ensures View() == M.TransmitTcn(old(View()))
    {
      if rootPort.Some? {
        log := log + [TcnFrame(rootPort.value)];
      }
    }

    method TopologyChangeDetection()
      modifies this`log, this`tc, this`tcTimer, this`tcnTimer, this`tcDetected
      ensures View() == M.TopologyChangeDetection(old(View()))
    {
      if id == root {
        tc := true;
        tcTimer := Timer(true, 0);
      } else if !tcDetected {
        TransmitTcn();
        tcnTimer := Timer(true, 0);
      }
      tcDetected := true;
    }

    // ---------- Selection ----------

    method RootSelection()
      modifies this`root, this`rootCost, this`rootPort
      ensures Valid() && View() == M.RootSelection(old(View()))
    {
      var best: Option<nat> := None;
      for i := 0 to ports.Length
        invariant best == ScanRoot(View(), i)
      {
        var p := ports[i];
        if p.Enabled() && !IsDesignated(i) && p.desig.root < id
           && (best.None? || SupersedesRoot(ports[best.value], p))
        {
          best := Some(i);
        }
      }
      rootPort := best;
      if best.None? {
        root, rootCost := id, 0;
      } else {
        root := ports[best.value].desig.root;
        rootCost := ports[best.value].desig.cost + ports[best.value].pathCost;
      }
    }

    method BecomeDesignatedPort(p: nat)
      requires p < ports.Length
      modifies ports
      ensures View() == old(View()).SetPort(p, BecomeDesignated(old(View()), p))
    {
      ports[p] := ports[p].(desig := Vector(root, rootCost, id, ports[p].portId));
    }

    method DesignatedPortSelection()
      modifies ports
      ensures View() == DesignatedSelection(old(View()))
    {
      ghost var b := View();
      for i := 0 to ports.Length
        invariant forall k :: 0 <= k < i ==> ports[k] == DesignatedSelection(b).ports[k]
        invariant forall k :: i <= k < ports.Length ==> ports[k] == b.ports[k]
      {
        var p := ports[i];
        if p.Enabled()
           && (|| IsDesignated(i)
               || p.desig.root != root
               || rootCost < p.desig.cost
               || (rootCost == p.desig.cost
                   && (id < p.desig.bridge || (id == p.desig.bridge && p.portId <= p.desig.port))))
        {
          BecomeDesignatedPort(i);
        }
      }
      assert ports[..] == DesignatedSelection(b).ports;
    }

    method ConfigurationUpdate()
      modifies this`root, this`rootCost, this`rootPort, ports
      ensures Valid() && View() == M.ConfigurationUpdate(old(View()))
    {
      RootSelection();
      DesignatedPortSelection();
    }

    method MakeForwarding(p: nat)
      requires p < ports.Length
      modifies ports
      ensures View() == old(View()).SetPort(p, M.MakeForwarding(old(View()).ports[p]))
    {
      if ports[p].state == Blocking {
        ports[p] := ports[p].(state := Listening, forwardDelay := Timer(true, 0));
      }
    }

    method MakeBlocking(p: nat)
      requires p < ports.Length
      modifies this`log, this`tc, this`tcTimer, this`tcnTimer, this`tcDetected, ports
      ensures var b, q := old(View()), old(View()).ports[p];
              View() == (if (q.state == Forwarding || q.state == Learning) && q.changeDetection
                         then M.TopologyChangeDetection(b) else b).SetPort(p, M.MakeBlocking(q))
    {
      if ports[p].state != Disabled && ports[p].state != Blocking {
        if ports[p].state == Forwarding || ports[p].state == Learning {
          if ports[p].changeDetection {
            TopologyChangeDetection();
          }
        }
        ports[p] := ports[p].(state := Blocking, forwardDelay := Stop(ports[p].forwardDelay));
      } else {
        assert ports[..] == ports[..][p := ports[p]];
      }
    }

    /** Blocks a port that has neither role. */
    method BlockPort(p: nat)
      requires p < ports.Length
      modifies this`log, this`tc, this`tcTimer, this`tcnTimer, this`tcDetected, ports
      ensures var b, q := old(View()), old(View()).ports[p];
              View() == (if (q.state == Forwarding || q.state == Learning) && q.changeDetection
                         then M.TopologyChangeDetection(b) else b)
                        .SetPort(p, M.MakeBlocking(q.(configPending := false, tcAck := false)))
    {
      hide M.TopologyChangeDetection;
      ghost var s := View();
      ports[p] := ports[p].(configPending := false, tcAck := false);
      ghost var t := View();
      assert t == s.(ports := t.ports);
      DetectionRepeats(s, t.ports);
      MakeBlocking(p);
      assert t.ports[p := ports[p]] == s.ports[p := ports[p]];
    }

    /** One step of the loop of state selection, which began in state `b`. */
    method SelectPortState(p: nat, ghost b: Bridge)
      requires Valid() && p < ports.Length == |b.ports| && View() == StatesUpTo(b, p)
      modifies this`log, this`tc, this`tcTimer, this`tcnTimer, this`tcDetected, ports
      ensures Valid() && View() == StatesUpTo(b, p + 1)
    {
      hide M.TopologyChangeDetection;
      StatesUpToNext(b, p);
      UnvisitedPort(b, p);
      ghost var s := View();
      hide StatesUpTo;
      if ports[p].Enabled() {
        if rootPort == Some(p) {
          ports[p] := ports[p].(configPending := false, tcAck := false);
          MakeForwarding(p);
        } else if IsDesignated(p) {
          ports[p] := ports[p].(messageAge := Stop(ports[p].messageAge));
          MakeForwarding(p);
        } else {
          DetectionRepeats(s, s.ports);
          BlockPort(p);
        }
      }
      assert ports[..] == s.ports[p := SelectState(b, p)];
    }

    method PortStateSelection()
      requires Valid()
      modifies this`log, this`tc, this`tcTimer, this`tcnTimer, this`tcDetected, ports
      ensures Valid() && View() == StateSelection(old(View()))
    {
      hide M.TopologyChangeDetection;
      ghost var b := View();
      StatesUpToEnds(b);
      for i := 0 to ports.Length
        invariant Valid() && View() == StatesUpTo(b, i)
      {
        SelectPortState(i, b);
      }
    }

    // ---------- Received messages ----------

    method BecomeRootBridge()
      requires Valid()
      modifies this, ports
      ensures Valid() && View() == BecomeRoot(old(View()))
    {
      hide M.TopologyChangeDetection, M.GenerateConfigs, M.AdoptOwnTimers;
      AdoptOwnTimers();
      TopologyChangeDetection();
      tcnTimer := Stop(tcnTimer);
      ConfigBpduGeneration();
      helloTimer := Timer(true, 0);
    }

    method ReconfigureAfterLoss(wasRoot: bool)
      requires Valid()
      modifies this, ports
      ensures Valid() && View() == M.ReconfigureAfterLoss(old(View()), wasRoot)
    {
      hide M.StateSelection, M.ConfigurationUpdate, M.BecomeRoot;
      ConfigurationUpdate();
      PortStateSelection();
      if id == root && !wasRoot {
        BecomeRootBridge();
      }
    }

    /** The bridge lost the root's place. */
    method StepDown()
      modifies this`helloTimer, this`tcTimer, this`tcnTimer, this`log
      ensures View() == M.StepDown(old(View()))
    {
      helloTimer := Stop(helloTimer);
      if tcDetected {
        tcTimer := Stop(tcTimer);
        TransmitTcn();
        tcnTimer := Timer(true, 0);
      }
    }

    method RecordConfigTimeoutValues(c: ConfigMsg)
      modifies this`maxAge, this`hello, this`fwd, this`tc
      ensures View() == RecordTimeouts(old(View()), c)
    {
      maxAge, hello, fwd, tc := c.maxAge, c.hello, c.fwd, c.tc;
    }

    method TopologyChangeAcknowledged()
      modifies this`tcDetected, this`tcnTimer
      ensures View() == ChangeAcknowledged(old(View()))
    {
      tcDetected := false;
      tcnTimer := Stop(tcnTimer);
    }

    method TakeNews(p: nat, c: ConfigMsg)
      requires Valid() && p < ports.Length
      modifies this, ports
      ensures Valid() && View() == M.TakeNews(old(View()), p, c)
    {
      hide M.StateSelection, M.ConfigurationUpdate, M.StepDown;
      var wasRoot := id == root;
      ports[p] := ports[p].(desig := c.v, messageAge := Timer(true, c.age));
      ConfigurationUpdate();
      PortStateSelection();
      if id != root && wasRoot {
        StepDown();
      }
    }

    method PassOnNews(p: nat, c: ConfigMsg)
      requires Valid()
      modifies this, ports
      ensures Valid() && View() == M.PassOnNews(old(View()), p, c)
    {
      hide M.ConfigGeneration, M.RecordTimeouts, M.ChangeAcknowledged;
      if rootPort == Some(p) {
        RecordConfigTimeoutValues(c);
        ConfigBpduGeneration();
        if c.ack {
          TopologyChangeAcknowledged();
        }
      }
    }

    method ReceivedConfigBpdu(p: nat, c: ConfigMsg)
      requires Valid() && p < ports.Length
      modifies this, ports
      ensures Valid() && View() == ReceivedConfig(old(View()), p, c)
    {
      hide M.TakeNews, M.PassOnNews, M.TransmitConfig;
      if c.age >= c.maxAge {
        return;
      }
      if ports[p].Enabled() {
        var d := ports[p].desig;
        var supersedes := if c.v.root != d.root then c.v.root < d.root
        else if c.v.cost != d.cost then c.v.cost < d.cost
        else if c.v.bridge != d.bridge then c.v.bridge < d.bridge
        else c.v.bridge != id || c.v.port <= d.port;
        if supersedes {
          TakeNews(p, c);
          PassOnNews(p, c);
        } else if IsDesignated(p) {
          TransmitConfig(p);
        }
      }
    }

    method ReceivedTcnBpdu(p: nat)
      requires Valid() && p < ports.Length
      modifies this, ports
      ensures Valid() && View() == ReceivedTcn(old(View()), p)
    {
      if ports[p].Enabled() && IsDesignated(p) {
        TopologyChangeDetection();
        ports[p] := ports[p].(tcAck := true);
        TransmitConfig(p);
      }
    }

    /** Entry point: a frame arrived on port `p`. */
    method ReceivedBpdu(p: nat, m: Bpdu)
      requires Valid() && p < ports.Length
      modifies this, ports
      ensures Valid() && View() == R.Step(old(View()), R.Receive(p, m))
      ensures old(Roles(View())) ==> Roles(View())
      ensures old(Inv(View())) && m.Config? ==> (Inv(View()) <==> !Dethroned(old(View()), p, m.c))
      ensures old(Inv(View())) && !m.Config? ==> Inv(View())
    {
      hide M.ReceivedConfig, M.ReceivedTcn, Roles, RootDuties;
      ghost var b := View();
      match m {
        case Malformed =>
        case Config(c) => ReceivedConfigBpdu(p, c);
        case Tcn => ReceivedTcnBpdu(p);
      }
      if Roles(b) {
        StepKeepsRoles(b, R.Receive(p, m));
        if RootDuties(b) && m.Config? {
          ReceiveKeepsInv(b, p, m.c);
        }
      }
    }

    // ---------- The clock ----------

    method MessageAgeTimerExpiry(p: nat)
      requires Valid() && p < ports.Length
      modifies this, ports
      ensures Valid() && View() == MessageAgeExpiry(old(View()), p)
    {
      hide M.ReconfigureAfterLoss;
      var wasRoot := id == root;
      BecomeDesignatedPort(p);
      ReconfigureAfterLoss(wasRoot);
    }

    method IsDesignatedForSomePort() returns (r: bool)
      ensures r == DesignatedSomewhere(View())
    {
      for i := 0 to ports.Length
        invariant forall k :: 0 <= k < i ==> !(View().On(k) && ports[k].desig.bridge == id)
      {
        if ports[i].Enabled() && ports[i].desig.bridge == id {
          assert View().On(i);
          return true;
        }
      }
      return false;
    }

    method ForwardDelayTimerExpiry(p: nat)
      requires Valid() && p < ports.Length
      modifies this, ports
      ensures Valid() && View() == ForwardDelayExpiry(old(View()), p)
    {
      if ports[p].state == Listening {
        ports[p] := ports[p].(state := Learning, forwardDelay := Timer(true, 0));
      } else if ports[p].state == Learning {
        ports[p] := ports[p].(state := Forwarding);
        var some := IsDesignatedForSomePort();
        if some && ports[p].changeDetection {
          TopologyChangeDetection();
        }
      }
    }

    method AgeOnePort(p: nat, elapsed: nat)
      requires Valid() && p < ports.Length
      modifies this, ports
      ensures Valid() && View() == AgePort(old(View()), p, elapsed)
    {
      hide M.MessageAgeExpiry;
      if ports[p].Enabled() {
        var t := ports[p].messageAge;
        ports[p] := ports[p].(messageAge := Advance(t, elapsed, maxAge));
        if Expires(t, elapsed, maxAge) {
          MessageAgeTimerExpiry(p);
        }
      }
    }

    method DelayOnePort(p: nat, elapsed: nat)
      requires Valid() && p < ports.Length
      modifies this, ports
      ensures Valid() && View() == HoldPort(DelayPort(old(View()), p, elapsed), p, elapsed)
    {
      hide M.ForwardDelayExpiry, M.TransmitConfig;
      var t := ports[p].forwardDelay;
      ports[p] := ports[p].(forwardDelay := Advance(t, elapsed, fwd));
      if Expires(t, elapsed, fwd) {
        ForwardDelayTimerExpiry(p);
      }
      var h := ports[p].hold;
      ports[p] := ports[p].(hold := Advance(h, elapsed, HOLD_TICKS));
      if Expires(h, elapsed, HOLD_TICKS) && ports[p].configPending {
        TransmitConfig(p);
      }
    }

    /** Entry point: `elapsed` ticks have passed. */
    method Tick(elapsed: nat)
      requires Valid()
      modifies this, ports
      ensures Valid() && View() == R.Step(old(View()), R.Elapse(elapsed))
      ensures old(Roles(View())) ==> Keeps(old(View()), View())
    {
      hide M.HelloPhase, M.TcnPhase, M.TcPhase, M.AgePort, M.DelayPort, M.HoldPort, Roles, RootDuties;
      ghost var b := View();
      if elapsed > 0 {
        TickHello(elapsed);
        TickTcn(elapsed);
        TickTopologyChange(elapsed);
        ghost var front := View();
        for i := 0 to ports.Length
          invariant Valid() && View() == AgePhase(front, i, elapsed)
        {
          AgeOnePort(i, elapsed);
        }
        ghost var aged := View();
        for i := 0 to ports.Length
          invariant Valid() && View() == DelayPhase(aged, i, elapsed)
        {
          if ports[i].Enabled() {
            DelayOnePort(i, elapsed);
          }
        }
      }
      if Roles(b) {
        StepKeepsRoles(b, R.Elapse(elapsed));
      }
    }

    method TickHello(elapsed: nat)
      requires Valid()
      modifies this, ports
      ensures Valid() && View() == HelloPhase(old(View()), elapsed)
    {
      hide M.ConfigGeneration;
      var expired := Expires(helloTimer, elapsed, hello);
      helloTimer := Advance(helloTimer, elapsed, hello);
      if expired {
        ConfigBpduGeneration();
        helloTimer := Timer(true, 0);
      }
    }

    method TickTcn(elapsed: nat)
      requires Valid()
      modifies this
      ensures Valid() && View() == TcnPhase(old(View()), elapsed)
    {
      var expired := Expires(tcnTimer, elapsed, ownHello);
      tcnTimer := Advance(tcnTimer, elapsed, ownHello);
      if expired {
        TransmitTcn();
        tcnTimer := Timer(true, 0);
      }
    }

    method TickTopologyChange(elapsed: nat)
      requires Valid()
      modifies this
      ensures Valid() && View() == TcPhase(old(View()), elapsed)
    {
      var expired := Expires(tcTimer, elapsed, maxAge + fwd);
      tcTimer := Advance(tcTimer, elapsed, maxAge + fwd);
      if expired {
        tcDetected, tc := false, false;
      }
    }

    // ---------- Management ----------

    /** Entry point behind `stp_set_bridge_id` and `stp_set_bridge_priority`. */
    method SetBridgeId(newId: nat)
      requires Valid()
      modifies this, ports
      ensures Valid() && View() == R.Step(old(View()), R.ChangeId(newId))
      ensures old(Roles(View())) ==> Keeps(old(View()), View())
    {
      hide M.ReconfigureAfterLoss, Roles, RootDuties;
      ghost var b := View();
      if newId != id {
        var wasRoot := id == root;
        for i := 0 to ports.Length
          invariant View() == b.(ports := ports[..])
          invariant forall k :: 0 <= k < i ==>
                      ports[k] == if b.On(k) && b.Designated(k)
                                  then b.ports[k].(desig := b.ports[k].desig.(bridge := newId)) else b.ports[k]
          invariant forall k :: i <= k < ports.Length ==> ports[k] == b.ports[k]
        {
          if ports[i].Enabled() && IsDesignated(i) {
            ports[i] := ports[i].(desig := ports[i].desig.(bridge := newId));
          }
        }
        id := newId;
        assert ports[..] == seq(|b.ports|, i requires 0 <= i < |b.ports| =>
                                  if b.On(i) && b.Designated(i)
                                  then b.ports[i].(desig := b.ports[i].desig.(bridge := newId))
                                  else b.ports[i]);
        ReconfigureAfterLoss(wasRoot);
      }
      if Roles(b) {
        StepKeepsRoles(b, R.ChangeId(newId));
      }
    }

    method PortDisable(p: nat)
      requires Valid() && p < ports.Length
      modifies this, ports
      ensures Valid() && View() == R.Step(old(View()), R.Disable(p))
      ensures old(Roles(View())) ==> Keeps(old(View()), View())
    {
      hide M.ReconfigureAfterLoss, Roles, RootDuties;
      ghost var b := View();
      if ports[p].Enabled() {
        var wasRoot := id == root;
        BecomeDesignatedPort(p);
        ports[p] := ports[p].(state := Disabled, tcAck := false, configPending := false);
        ports[p] := ports[p].(messageAge := Stop(ports[p].messageAge), forwardDelay := Stop(ports[p].forwardDelay));
        assert ports[..] == b.ports[p := ports[p]];
        ReconfigureAfterLoss(wasRoot);
      }
      if Roles(b) {
        StepKeepsRoles(b, R.Disable(p));
      }
    }

    method PortEnable(p: nat)
      requires Valid() && p < ports.Length
      modifies this, ports
      ensures Valid() && View() == R.Step(old(View()), R.Enable(p))
      ensures old(Roles(View())) ==> Keeps(old(View()), View())
    {
      hide M.StateSelection, Roles, RootDuties;
      ghost var b := View();
      if !ports[p].Enabled() {
        BecomeDesignatedPort(p);
        ports[p] := ports[p].(state := Blocking, tcAck := false, configPending := false, changeDetection := true);
        ports[p] := ports[p].(messageAge := Stop(ports[p].messageAge),
                              forwardDelay := Stop(ports[p].forwardDelay), hold := Stop(ports[p].hold));
        assert ports[..] == b.ports[p := ports[p]];
        PortStateSelection();
      }
      if Roles(b) {
        StepKeepsRoles(b, R.Enable(p));
      }
    }

    method SetPriority(p: nat, priority: nat)
      requires Valid() && p < ports.Length
      modifies this, ports
      ensures Valid() && View() == R.Step(old(View()), R.ChangePriority(p, priority))
      ensures old(Roles(View())) && priority < 0x100 ==>
                (Roles(View()) <==> RoleStands(old(View()), p, NewId(old(View()), p, priority)))
    {
      hide M.StateSelection, Roles, RootDuties, RoleStands;
      ghost var b := View();
      if Roles(b) && priority < 0x100 {
        SetPriorityKeepsIff(b, p, priority);
      }
      var newId := ports[p].portId % 0x100 + priority * 0x100;
      if ports[p].portId != newId {
        if IsDesignated(p) {
          ports[p] := ports[p].(desig := ports[p].desig.(port := newId));
        }
        ports[p] := ports[p].(portId := newId);
        if id == ports[p].desig.bridge && ports[p].portId < ports[p].desig.port {
          BecomeDesignatedPort(p);
          PortStateSelection();
        }
      }
    }

    method SetPathCost(p: nat, cost: nat)
      requires Valid() && p < ports.Length
      modifies this, ports
      ensures Valid() && View() == R.Step(old(View()), R.ChangeCost(p, cost))
      ensures old(Roles(View())) && cost >= 1 ==> Keeps(old(View()), View())
      ensures old(Roles(View())) ==> (Settled(View()) <==> RootPortHolds(Priced(old(View()), p, cost)))
    {
      hide M.StateSelection, M.ConfigurationUpdate, Roles, RootDuties;
      ghost var b := View();
      if ports[p].pathCost != cost {
        ports[p] := ports[p].(pathCost := cost);
        ConfigurationUpdate();
        PortStateSelection();
      }
      if Roles(b) {
        SetPathCostKeepsInv(b, p, cost);
      }
    }
  }
}
