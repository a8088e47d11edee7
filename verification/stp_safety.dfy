/**
 Safety of one bridge over every run, and what a received configuration
 message can and cannot do to it.
 */
module StpSafety {
  import opened Options
  import opened StpModel
  import opened StpSelection
  import opened StpInvariants
  import opened StpRuns

  /** The message says it was sent by this bridge through this very port. */
  predicate ClaimsThisPort(b: Bridge, p: nat, v: Vector)
    requires b.HasPort(p)
  {
    v.bridge == b.id && v.port == b.ports[p].portId
  }

  function NewId(b: Bridge, p: nat, priority: nat): nat
    requires b.HasPort(p)
  {
    b.ports[p].portId % 0x100 + priority * 0x100
  }

  /** The choice of root port is the same when port `p` has identifier `id`. */
  predicate RootStands(b: Bridge, p: nat, id: nat)
    requires b.HasPort(p) && b.RootPortInRange()
  {
    var q := b.ports[p].(portId := id);
    if b.rootPort == Some(p) then forall k :: 0 <= k < |b.ports| && k != p && Eligible(b, k) ==> SupersedesRoot(b.ports[k], q)
    else Eligible(b, p) ==> b.rootPort.Some? && SupersedesRoot(q, b.ports[b.rootPort.value])
  }

  /**
   * Giving port `p` identifier `id` leaves the roles right: the port is off or designated,
   * or takes the designated role over from another port of this bridge, or has no
   * such claim and does not disturb the choice of root port.
   */
  predicate RoleStands(b: Bridge, p: nat, id: nat)
    requires b.HasPort(p) && b.RootPortInRange()
  {
    var d := b.ports[p].desig;
    || !b.On(p) || b.Designated(p) || b.ports[p].portId == id
    || (d.bridge == b.id && id < d.port && b.rootPort != Some(p))
    || (!(d.bridge == b.id && id <= d.port) && RootStands(b, p, id))
  }

  predicate Accepted(b: Bridge, p: nat, c: ConfigMsg)
    requires b.HasPort(p)
  {
    c.age < c.maxAge && b.On(p) && SupersedesPortInfo(b, p, c.v)
  }

  /**
   * The message disclaims the last way to the root: it is accepted on the root port, claims
   * to come from that very port, no other port is eligible, and the bridge, which
   * is now its own root, has its hello timer off or uses another's timer values.
   */
  predicate Dethroned(b: Bridge, p: nat, c: ConfigMsg)
    requires b.HasPort(p)
  {
    && Accepted(b, p, c) && b.rootPort == Some(p) && ClaimsThisPort(b, p, c.v)
    && (forall q :: 0 <= q < |b.ports| && q != p ==> !Eligible(b, q))
    && !(b.helloTimer.active && UsesOwnTimers(b))
  }

  /** Management calls that leave the roles right; nothing is asked of received messages. */
  predicate Managed(b: Bridge, e: Event)
    requires Applies(b, e)
  {
    match e
    case ChangeCost(_, cost) => cost >= 1
    case ChangePriority(p, priority) => priority < 0x100 && RoleStands(b, p, NewId(b, p, priority))
    case _ => true
  }

  /** Calls that moreover leave a root doing its duties. */
  predicate Orderly(b: Bridge, e: Event)
    requires Applies(b, e)
  {
    Managed(b, e) && (e.Receive? && e.m.Config? ==> !Dethroned(b, e.p, e.m.c))
  }

  // ---------- Received configuration messages ----------

  lemma RecordKeepsSound(b: Bridge, p: nat, c: ConfigMsg)
    requires b.HasPort(p) && Sound(b)
    ensures Sound(RecordInfo(b, p, c))
  {
    var r := RecordInfo(b, p, c);
    assert forall q: nat :: q < |b.ports| && q != p ==> r.ports[q] == b.ports[q];
    assert forall q: nat :: q < |b.ports| ==> DelayTimerOk(b.ports[q]) && r.ports[q].portId == b.ports[q].portId;
    forall q: nat | r.On(q) && !r.Designated(q)
      ensures r.ports[q].messageAge.active
    {
      assert b.On(q);
    }
  }

  /** An accepted message leaves exactly the configuration that a reconfiguration computes. */
  lemma ReceiveReconfigures(b: Bridge, p: nat, c: ConfigMsg)
    requires b.HasPort(p) && b.RootPortInRange() && Sound(b) && Accepted(b, p, c)
    ensures SameRoles(Reconfigure(RecordInfo(b, p, c)), ReceivedConfig(b, p, c))
    ensures ReceivedConfig(b, p, c).rootPort != Some(p) && (ReceivedConfig(b, p, c).IsRoot() || !b.IsRoot()) ==>
              SameTimes(Reconfigure(RecordInfo(b, p, c)), ReceivedConfig(b, p, c))
  {
    var b1 := Reconfigure(RecordInfo(b, p, c));
    var b2 := TakeNews(b, p, c);
    if !b1.IsRoot() && b.IsRoot() {
      StepDownKeepsRoles(b1);
    }
    PassOnKeepsRoles(b2, p, c);
    hide Reconfigure, PassOnNews, StepDown, RecordInfo, SupersedesPortInfo;
  }

  lemma StepDownKeepsRoles(b: Bridge)
    ensures SameRoles(b, StepDown(b))
  {
  }

  lemma PassOnKeepsRoles(b: Bridge, p: nat, c: ConfigMsg)
    requires b.RootPortInRange()
    ensures SameRoles(b, PassOnNews(b, p, c)) && (PassOnNews(b, p, c).rootPort != Some(p) ==> PassOnNews(b, p, c) == b)
  {
    hide GenerateConfigs;
    if b.rootPort == Some(p) {
      GenerateKeepsRoles(RecordTimeouts(b, c), |b.ports|);
    }
  }

  /** Root selection after recording: the recorded port competes unless it now counts as designated. */
  lemma EligibleAfterRecord(b: Bridge, p: nat, c: ConfigMsg)
    requires b.On(p) && Settled(b) && SupersedesPortInfo(b, p, c.v)
    ensures var r := RecordInfo(b, p, c);
            && (forall q: nat :: q < |b.ports| && q != p ==> Eligible(r, q) == Eligible(b, q) && r.ports[q] == b.ports[q])
            && (b.rootPort == Some(p) ==> Eligible(r, p) == !ClaimsThisPort(b, p, c.v))
            && (c.v.root < b.ports[p].desig.root
                || (c.v.root == b.ports[p].desig.root && c.v.cost <= b.ports[p].desig.cost))
  {
  }

  lemma RecordedUpdate(b: Bridge, p: nat, c: ConfigMsg)
    requires b.RootPortInRange() && Roles(b) && b.HasPort(p) && Accepted(b, p, c)
    ensures var r, u := RecordInfo(b, p, c), ReceivedConfig(b, p, c);
            && Roles(u) && u.id == b.id
            && match u.rootPort
               case Some(k) => IsBestPort(r, k) && u.root == r.ports[k].desig.root && u.rootCost == CostVia(r.ports[k])
               case None => u.root == b.id && u.rootCost == 0 && forall q: nat :: q < |r.ports| ==> !Eligible(r, q)
  {
    var r := RecordInfo(b, p, c);
    RecordKeepsSound(b, p, c);
    ReconfigureEstablishes(r);
    ReceiveReconfigures(b, p, c);
    SameRolesKeep(Reconfigure(r), ReceivedConfig(b, p, c));
    UpdateChoosesBest(r);
  }

  /** The other bridge's root and cost are no worse than before. */
  predicate NoWorse(b: Bridge, b': Bridge) {
    b'.root < b.root || (b'.root == b.root && b'.rootCost <= b.rootCost)
  }

  /** Some port other than `p` offers the same root at the same cost. */
  predicate HasSpare(b: Bridge, p: nat) {
    exists q :: 0 <= q < |b.ports| && q != p && Eligible(b, q)
             && b.ports[q].desig.root == b.root && CostVia(b.ports[q]) == b.rootCost
  }

  /**
   A received configuration message worsens the bridge's root and cost in one
   case only: it is accepted on the root port, claims to come from that very
   port, and no other port offers as much.
   */
  lemma ReceiveNeverWorsens(b: Bridge, p: nat, c: ConfigMsg)
    requires b.RootPortInRange() && Roles(b) && b.HasPort(p)
    ensures NoWorse(b, ReceivedConfig(b, p, c)) <==>
            !(Accepted(b, p, c) && b.rootPort == Some(p) && ClaimsThisPort(b, p, c.v) && !HasSpare(b, p))
  {
    hide StatesFollowRoles, RootDuties, Reconfigure, ConfigGeneration, StepDown;
    if Accepted(b, p, c) {
      RecordedUpdate(b, p, c);
      EligibleAfterRecord(b, p, c);
      var r, u := RecordInfo(b, p, c), ReceivedConfig(b, p, c);
      if b.rootPort == Some(p) && ClaimsThisPort(b, p, c.v) {
        assert !Eligible(r, p);
        if HasSpare(b, p) {
          var q :| 0 <= q < |b.ports| && q != p && Eligible(b, q)
                   && b.ports[q].desig.root == b.root && CostVia(b.ports[q]) == b.rootCost;
          assert Eligible(r, q);
        } else if u.rootPort.Some? {
          var k := u.rootPort.value;
          assert Eligible(b, k) && SupersedesRoot(b.ports[k], b.ports[p]);
        }
      } else if b.rootPort.Some? {
        var k := b.rootPort.value;
        assert Eligible(r, k);
        assert u.rootPort.Some?;
      }
    } else if c.age < c.maxAge && b.On(p) && b.Designated(p) {
      assert NoWorse(b, TransmitConfig(b, p));
    }
  }

  /** The root's duties survive a received message except where the last way to the root is disclaimed. */
  lemma ReceiveKeepsDuties(b: Bridge, p: nat, c: ConfigMsg)
    requires b.RootPortInRange() && Inv(b) && b.HasPort(p)
    ensures RootDuties(ReceivedConfig(b, p, c)) <==> !Dethroned(b, p, c)
  {
    if Accepted(b, p, c) {
      RecordedUpdate(b, p, c);
      EligibleAfterRecord(b, p, c);
      var r, u := RecordInfo(b, p, c), ReceivedConfig(b, p, c);
      RecordKeepsSound(b, p, c);
      ReconfigureEstablishes(r);
      ReceiveReconfigures(b, p, c);
      hide StatesFollowRoles, Sound, ReceivedConfig, Reconfigure;
      if u.IsRoot() {
        RootPortUnlessRoot(u);
        assert SameTimes(b, u);
        if b.rootPort.Some? {
          var k := b.rootPort.value;
          assert !Eligible(r, k);
          assert k == p && ClaimsThisPort(b, p, c.v);
          assert forall q: nat :: q < |b.ports| && q != p ==> !Eligible(b, q);
        }
      } else if b.rootPort == Some(p) && ClaimsThisPort(b, p, c.v) {
        RootPortUnlessRoot(u);
        var k := u.rootPort.value;
        assert Eligible(r, k) && k != p;
        assert Eligible(b, k);
      }
    }
  }

  /** Every received configuration message, also one that claims to come from here, leaves the roles right. */
  lemma ReceiveKeepsRoles(b: Bridge, p: nat, c: ConfigMsg)
    requires b.RootPortInRange() && Roles(b) && b.HasPort(p)
    ensures Roles(ReceivedConfig(b, p, c))
  {
    if Accepted(b, p, c) {
      RecordedUpdate(b, p, c);
    } else {
      TransmitKeepsInv(b, p);
    }
  }

  /** And it keeps the whole invariant unless it takes the last way to the root from a bridge not ready to be root. */
  lemma ReceiveKeepsInv(b: Bridge, p: nat, c: ConfigMsg)
    requires b.RootPortInRange() && Inv(b) && b.HasPort(p)
    ensures Inv(ReceivedConfig(b, p, c)) <==> !Dethroned(b, p, c)
  {
    ReceiveKeepsDuties(b, p, c);
    ReceiveKeepsRoles(b, p, c);
  }

  /** A bridge and a message that takes its only way to the root and leaves it an idle root. */
  lemma LastWayDisclaimed() returns (b: Bridge, c: ConfigMsg)
    ensures b.RootPortInRange() && b.HasPort(0) && Inv(b) && Dethroned(b, 0, c) && !HasSpare(b, 0)
    ensures !NoWorse(b, ReceivedConfig(b, 0, c)) && !RootDuties(ReceivedConfig(b, 0, c)) && !Inv(ReceivedConfig(b, 0, c))
  {
    var off := Timer(false, 0);
    var p := Port(0x8001, Forwarding, 19, Vector(3, 0, 3, 9), false, false, true, Start(0), off, off);
    b := Initial(7).(ports := [p], root := 3, rootCost := 19, rootPort := Some(0), helloTimer := off);
    c := ConfigMsg(Vector(2, 0, 7, 0x8001), 0, 1, 0, 0, false, false);
    assert Eligible(b, 0) && BeatsOwn(b, 0) && IsBestPort(b, 0);
    hide Initial, ReceivedConfig;
    ReceiveNeverWorsens(b, 0, c);
    ReceiveKeepsInv(b, 0, c);
    ReceiveKeepsDuties(b, 0, c);
  }

  lemma TcnKeepsInv(b: Bridge, p: nat)
    requires b.RootPortInRange() && Roles(b) && b.HasPort(p)
    ensures Keeps(b, ReceivedTcn(b, p))
  {
    if b.On(p) && b.Designated(p) {
      var c := TopologyChangeDetection(b);
      var d := c.SetPort(p, c.ports[p].(tcAck := true));
      assert SameRoles(b, d);
      SameRolesKeep(b, d);
      TransmitKeepsInv(d, p);
    }
  }

  lemma TransmitKeepsInv(b: Bridge, p: nat)
    requires b.RootPortInRange() && Roles(b) && b.HasPort(p)
    ensures Keeps(b, TransmitConfig(b, p))
  {
    hide TransmitConfig;
    TransmitKeepsRoles(b, p);
    SameRolesKeep(b, TransmitConfig(b, p));
  }

  // ---------- The clock ----------

  lemma HelloPhaseKeepsInv(b: Bridge, elapsed: nat)
    requires b.RootPortInRange() && Roles(b)
    ensures Keeps(b, HelloPhase(b, elapsed))
  {
    var c := b.(helloTimer := Advance(b.helloTimer, elapsed, b.hello));
    GenerateKeepsRoles(c, |c.ports|);
    SameRolesKeep(b, HelloPhase(b, elapsed));
  }

  lemma TcPhasesKeepInv(b: Bridge, elapsed: nat)
    requires Roles(b)
    ensures Keeps(b, TcPhase(TcnPhase(b, elapsed), elapsed))
  {
    SameRolesKeep(b, TcPhase(TcnPhase(b, elapsed), elapsed));
  }

  lemma AgePortKeepsInv(b: Bridge, p: nat, elapsed: nat)
    requires b.RootPortInRange() && Roles(b) && b.HasPort(p)
    ensures Keeps(b, AgePort(b, p, elapsed))
  {
    if b.On(p) {
      var t := b.ports[p].messageAge;
      var c := b.SetPort(p, b.ports[p].(messageAge := Advance(t, elapsed, b.maxAge)));
      assert forall q: nat :: q < |b.ports| && q != p ==> c.ports[q] == b.ports[q];
      assert SameVectors(b, c);
      SameVectorsKeepSettled(b, c);
      if Expires(t, elapsed, b.maxAge) {
        ExpiryKeepsInv(b, p, c.ports[p].messageAge);
      } else {
        assert forall q: nat :: q < |b.ports| ==> DelayTimerOk(b.ports[q]);
        assert forall q: nat :: c.On(q) ==> b.On(q) && c.Designated(q) == b.Designated(q);
      }
    }
  }

  lemma ExpiryKeepsInv(b: Bridge, p: nat, t: Timer)
    requires b.RootPortInRange() && Roles(b) && b.On(p)
    ensures Keeps(b, MessageAgeExpiry(b.SetPort(p, b.ports[p].(messageAge := t)), p))
  {
    var c := b.SetPort(p, b.ports[p].(messageAge := t));
    var d := c.SetPort(p, BecomeDesignated(c, p));
    assert forall q: nat :: q < |b.ports| && q != p ==> d.ports[q] == b.ports[q];
    assert forall q: nat :: q < |b.ports| ==> DelayTimerOk(b.ports[q]) && d.ports[q].portId == b.ports[q].portId;
    forall q: nat | d.On(q) && !d.Designated(q)
      ensures d.ports[q].messageAge.active
    {
      assert b.On(q) && q != p;
    }
    ReconfigureAfterLossKeeps(d, b.IsRoot());
  }

  lemma {:induction false} AgePhaseKeepsInv(b: Bridge, n: nat, elapsed: nat)
    requires b.RootPortInRange() && Roles(b) && n <= |b.ports|
    ensures Keeps(b, AgePhase(b, n, elapsed))
  {
    hide AgePort, Roles, RootDuties;
    if n > 0 {
      AgePhaseKeepsInv(b, n - 1, elapsed);
      AgePortKeepsInv(AgePhase(b, n - 1, elapsed), n - 1, elapsed);
    }
  }

  /** What the forward delay timer does to a port in `elapsed` ticks. */
  function Delayed(q: Port, elapsed: nat, timeout: nat): Port {
    var t := q.(forwardDelay := Advance(q.forwardDelay, elapsed, timeout));
    if !Expires(q.forwardDelay, elapsed, timeout) then t
    else if q.state == Listening then t.(state := Learning, forwardDelay := Start(0))
    else if q.state == Learning then t.(state := Forwarding)
    else t
  }

  lemma DelayPortShape(b: Bridge, p: nat, elapsed: nat)
    requires b.HasPort(p)
    ensures var c := DelayPort(b, p, elapsed);
            && c.ports == b.ports[p := Delayed(b.ports[p], elapsed, b.fwd)]
            && c.id == b.id && c.root == b.root && c.rootCost == b.rootCost && c.rootPort == b.rootPort
            && SameTimes(b, c)
  {
  }

  lemma DelayPortKeepsInv(b: Bridge, p: nat, elapsed: nat)
    requires b.RootPortInRange() && Roles(b) && b.On(p)
    ensures Keeps(b, DelayPort(b, p, elapsed)) && DelayPort(b, p, elapsed).On(p)
  {
    DelayPortShape(b, p, elapsed);
    DelayedKeeps(b, DelayPort(b, p, elapsed), p, elapsed);
  }

  lemma DelayedKeeps(b: Bridge, c: Bridge, p: nat, elapsed: nat)
    requires Roles(b) && b.On(p)
    requires c.ports == b.ports[p := Delayed(b.ports[p], elapsed, b.fwd)]
    requires c.id == b.id && c.root == b.root && c.rootCost == b.rootCost && c.rootPort == b.rootPort
    requires SameTimes(b, c)
    ensures Keeps(b, c)
  {
    assert DelayTimerOk(b.ports[p]);
    SameVectorsKeepSettled(b, c);
    assert forall q: nat :: q < |b.ports| ==> DelayTimerOk(b.ports[q]);
    assert forall q: nat :: c.On(q) ==> b.On(q) && c.Designated(q) == b.Designated(q);
  }

  lemma HoldPortKeepsInv(b: Bridge, p: nat, elapsed: nat)
    requires b.RootPortInRange() && Roles(b) && b.On(p)
    ensures Keeps(b, HoldPort(b, p, elapsed))
  {
    SameRolesKeep(b, HoldPort(b, p, elapsed));
  }

  lemma {:induction false} DelayPhaseKeepsInv(b: Bridge, n: nat, elapsed: nat)
    requires b.RootPortInRange() && Roles(b) && n <= |b.ports|
    ensures Keeps(b, DelayPhase(b, n, elapsed))
  {
    hide DelayPort, HoldPort, Roles, RootDuties;
    if n > 0 {
      DelayPhaseKeepsInv(b, n - 1, elapsed);
      var c := DelayPhase(b, n - 1, elapsed);
      if c.On(n - 1) {
        DelayPortKeepsInv(c, n - 1, elapsed);
        HoldPortKeepsInv(DelayPort(c, n - 1, elapsed), n - 1, elapsed);
      }
    }
  }

  lemma TickKeepsInv(b: Bridge, elapsed: nat)
    requires b.RootPortInRange() && Roles(b)
    ensures Keeps(b, Tick(b, elapsed))
  {
    HelloPhaseKeepsInv(b, elapsed);
    TcPhasesKeepInv(HelloPhase(b, elapsed), elapsed);
    AgePhaseKeepsInv(TcPhase(TcnPhase(HelloPhase(b, elapsed), elapsed), elapsed), |b.ports|, elapsed);
    DelayPhaseKeepsInv(TickFront(b, elapsed), |b.ports|, elapsed);
  }

  // ---------- Management ----------

  lemma SetBridgeIdKeepsInv(b: Bridge, id: nat)
    requires b.RootPortInRange() && Roles(b)
    ensures Keeps(b, SetBridgeId(b, id))
  {
    if id != b.id {
      var c := b.(id := id,
                  ports := seq(|b.ports|, i requires 0 <= i < |b.ports| =>
                             if b.On(i) && b.Designated(i)
                             then b.ports[i].(desig := b.ports[i].desig.(bridge := id))
                             else b.ports[i]));
      assert forall q: nat :: q < |b.ports| ==> DelayTimerOk(b.ports[q]) && c.ports[q].portId == b.ports[q].portId;
      forall q: nat | c.On(q) && !c.Designated(q)
        ensures c.ports[q].messageAge.active
      {
        assert b.On(q) && !b.Designated(q);
      }
      ReconfigureAfterLossKeeps(c, b.IsRoot());
    }
  }

  lemma EnableKeepsInv(b: Bridge, p: nat)
    requires b.RootPortInRange() && Roles(b) && b.HasPort(p)
    ensures Keeps(b, PortEnable(b, p))
  {
    if !b.On(p) {
      var c := b.SetPort(p, InitializePort(b, p, Blocking));
      assert forall q: nat :: q < |b.ports| && q != p ==> c.ports[q] == b.ports[q];
      assert c.ports[p].portId == b.ports[p].portId;
      assert c.Designated(p) && !Eligible(c, p);
      assert forall q: nat :: q < |b.ports| ==> DelayTimerOk(b.ports[q]) && Eligible(c, q) == Eligible(b, q);
      assert forall q: nat :: c.On(q) && q != p ==> b.On(q) && c.Designated(q) == b.Designated(q);
      assert SettledRoot(c);
      assert Settled(c);
      StateSelectionSelects(c);
      SelectingEstablishes(c, StateSelection(c));
    }
  }

  lemma DisableKeepsInv(b: Bridge, p: nat)
    requires b.RootPortInRange() && Roles(b) && b.HasPort(p)
    ensures Keeps(b, PortDisable(b, p))
  {
    if b.On(p) {
      var q := BecomeDesignated(b, p);
      var c := b.SetPort(p, q.(state := Disabled, tcAck := false, configPending := false,
                               messageAge := Stop(q.messageAge), forwardDelay := Stop(q.forwardDelay)));
      assert forall k: nat :: k < |b.ports| && k != p ==> c.ports[k] == b.ports[k];
      assert forall k: nat :: k < |b.ports| ==> DelayTimerOk(b.ports[k]) && c.ports[k].portId == b.ports[k].portId;
      assert forall k: nat :: c.On(k) ==> b.On(k) && c.Designated(k) == b.Designated(k);
      ReconfigureAfterLossKeeps(c, b.IsRoot());
    }
  }

  function Priced(b: Bridge, p: nat, cost: nat): Bridge
    requires b.HasPort(p)
  {
    b.SetPort(p, b.ports[p].(pathCost := cost))
  }

  /**
   Setting a path cost keeps the invariants if it is positive; the configuration is settled
   also for 0 exactly if the root port holds.
   */
  lemma SetPathCostKeepsInv(b: Bridge, p: nat, cost: nat)
    requires b.RootPortInRange() && Roles(b) && b.HasPort(p)
    ensures cost >= 1 ==> Keeps(b, SetPathCost(b, p, cost))
    ensures Settled(SetPathCost(b, p, cost)) <==> RootPortHolds(Priced(b, p, cost))
  {
    var c := Priced(b, p, cost);
    assert forall k: nat :: k < |b.ports| && k != p ==> c.ports[k] == b.ports[k];
    assert forall k: nat :: k < |b.ports| ==> c.ports[k].portId == b.ports[k].portId;
    UpdateSettlesIff(c);
    if b.ports[p].pathCost == cost {
      assert c == b;
      SettledIsFixed(b);
    } else {
      PricedDelays(b, p, cost);
      SelectedVectors(ConfigurationUpdate(c));
      if cost >= 1 {
        PositiveCostKeeps(b, p, cost);
      }
    }
  }

  lemma PricedDelays(b: Bridge, p: nat, cost: nat)
    requires Sound(b) && b.HasPort(p)
    ensures DelayTimersOk(ConfigurationUpdate(Priced(b, p, cost)))
  {
    var c := Priced(b, p, cost);
    UpdateShape(c);
    assert forall k: nat :: k < |b.ports| ==> DelayTimerOk(b.ports[k]) && c.ports[k].state == b.ports[k].state
                                              && c.ports[k].forwardDelay == b.ports[k].forwardDelay;
  }

  lemma PositiveCostKeeps(b: Bridge, p: nat, cost: nat)
    requires b.RootPortInRange() && Roles(b) && b.HasPort(p) && cost >= 1
    ensures Keeps(b, Reconfigure(Priced(b, p, cost)))
  {
    var c := Priced(b, p, cost);
    assert forall k: nat :: k < |b.ports| && k != p ==> c.ports[k] == b.ports[k];
    assert forall k: nat :: k < |b.ports| ==>
        DelayTimerOk(b.ports[k]) && c.ports[k].portId == b.ports[k].portId && Eligible(c, k) == Eligible(b, k);
    assert forall k: nat :: c.On(k) ==> b.On(k) && c.Designated(k) == b.Designated(k);
    ReconfigureEstablishes(c);
    UpdateChoosesBest(c);
    RootPortUnlessRoot(b);
    RootPortUnlessRoot(Reconfigure(c));
  }

  lemma SelectedVectors(b: Bridge)
    requires b.RootPortInRange() && DelayTimersOk(b)
    ensures SameVectors(b, StateSelection(b)) && (Settled(StateSelection(b)) <==> Settled(b))
  {
    var c := StateSelection(b);
    StateSelectionSelects(b);
    forall p: nat | p < |b.ports|
      ensures SameInfo(b.ports[p], c.ports[p])
    {
      assert DelayTimerOk(b.ports[p]);
      SelectOne(b, p);
      assert c.ports[p] == SelectState(b, p);
    }
    hide StateSelection, SelectState;
    SameVectorsKeepSettled(b, c);
    assert SameVectors(c, b);
    SameVectorsKeepSettled(c, b);
  }

  lemma RenumberedSound(b: Bridge, p: nat, q: Port)
    requires Sound(b) && b.HasPort(p) && Numbered(q.portId, p) && q.pathCost == b.ports[p].pathCost
    requires q.state == b.ports[p].state && q.forwardDelay == b.ports[p].forwardDelay && q.messageAge == b.ports[p].messageAge
    requires b.Designated(p) ==> q.desig.bridge == b.id && q.desig.port == q.portId
    ensures Sound(b.SetPort(p, q))
  {
    var c := b.SetPort(p, q);
    assert forall k: nat :: k < |b.ports| && k != p ==> c.ports[k] == b.ports[k];
    assert forall k: nat :: k < |b.ports| ==> DelayTimerOk(b.ports[k]) && Numbered(b.ports[k].portId, k);
    assert forall k: nat :: k < |b.ports| ==> Numbered(c.ports[k].portId, k);
    assert forall k: nat :: c.On(k) && !c.Designated(k) ==> b.On(k) && !b.Designated(k);
  }

  /** `c` is `b` with identifier `id` on port `p`. */
  ghost predicate Renumbered(b: Bridge, p: nat, id: nat, c: Bridge) {
    b.HasPort(p) && c == b.SetPort(p, b.ports[p].(portId := id))
  }

  lemma RenumberedRoot(b: Bridge, p: nat, id: nat, c: Bridge)
    requires b.RootPortInRange() && Renumbered(b, p, id, c) && SettledRoot(b) && b.On(p) && !b.Designated(p) && !c.Designated(p)
    ensures SettledRoot(c) <==> RootStands(b, p, id)
  {
    assert forall k: nat :: k < |b.ports| ==> Eligible(b, k) == Eligible(c, k);
    assert c.ports[p] == b.ports[p].(portId := id);
    assert forall k: nat :: k < |b.ports| && k != p ==> c.ports[k] == b.ports[k];
    assert CostVia(c.ports[p]) == CostVia(b.ports[p]);
    if b.rootPort.Some? {
      var r := b.rootPort.value;
      assert IsBestPort(b, r);
      if r == p {
        assert RootStands(b, p, id) <==> IsBestPort(c, p);
      } else {
        assert forall k: nat :: k < |b.ports| && k != r && k != p && Eligible(c, k) ==> SupersedesRoot(c.ports[k], c.ports[r]);
        assert RootStands(b, p, id) <==> IsBestPort(c, r);
      }
    }
  }

  lemma RenumberedPorts(b: Bridge, p: nat, id: nat, c: Bridge)
    requires Renumbered(b, p, id, c) && SettledPorts(b) && StatesFollowRoles(b)
    requires b.On(p) ==> !b.Designated(p) && !c.Designated(p)
    requires b.ports[p].desig.bridge == b.id ==> id > b.ports[p].desig.port
    ensures SettledPorts(c) && StatesFollowRoles(c)
  {
    assert forall k: nat :: k < |b.ports| && k != p ==> c.ports[k] == b.ports[k];
    forall k: nat | c.On(k)
      ensures if c.Designated(k) then c.ports[k].desig == c.Own(k) else BeatsOwn(c, k)
      ensures c.ports[k].state == Blocking <==> c.rootPort != Some(k) && !c.Designated(k)
    {
      assert b.On(k) && c.Designated(k) == b.Designated(k);
      assert if b.Designated(k) then b.ports[k].desig == b.Own(k) else BeatsOwn(b, k);
    }
  }

  /** A port that is off plays no role. */
  lemma OffPortIsFree(b: Bridge, p: nat, q: Port)
    requires Roles(b) && b.HasPort(p) && !b.On(p) && !q.Enabled() && Sound(b.SetPort(p, q))
    ensures Keeps(b, b.SetPort(p, q))
  {
    var c := b.SetPort(p, q);
    assert forall k: nat :: k < |b.ports| && k != p ==> c.ports[k] == b.ports[k];
    assert forall k: nat :: k < |b.ports| ==> Eligible(b, k) == Eligible(c, k);
    assert forall k: nat :: c.On(k) ==> b.On(k) && k != p;
    assert forall k: nat :: c.On(k) ==> c.Designated(k) == b.Designated(k) && BeatsOwn(c, k) == BeatsOwn(b, k);
    if b.rootPort.Some? {
      assert IsBestPort(b, b.rootPort.value);
    }
  }

  lemma PriorityOfDesignated(b: Bridge, p: nat, id: nat)
    requires b.RootPortInRange() && Roles(b) && b.HasPort(p) && b.Designated(p) && Numbered(id, p)
    ensures var q := b.ports[p]; Keeps(b, b.SetPort(p, q.(portId := id, desig := q.desig.(port := id))))
  {
    var q := b.ports[p];
    var q' := q.(portId := id, desig := q.desig.(port := id));
    var c := b.SetPort(p, q');
    RenumberedSound(b, p, q');
    assert forall k: nat :: k < |b.ports| && k != p ==> c.ports[k] == b.ports[k];
    assert c.ports[p] == q' && c.Designated(p);
    assert forall k: nat :: k < |b.ports| ==> Eligible(b, k) == Eligible(c, k);
    forall k: nat | c.On(k)
      ensures if c.Designated(k) then c.ports[k].desig == c.Own(k) else BeatsOwn(c, k)
      ensures c.ports[k].state == Blocking <==> c.rootPort != Some(k) && !c.Designated(k)
    {
      assert b.On(k) && c.Designated(k) == b.Designated(k);
      assert if b.Designated(k) then b.ports[k].desig == b.Own(k) else BeatsOwn(b, k);
    }
    if b.rootPort.Some? {
      assert IsBestPort(b, b.rootPort.value);
    }
  }

  /** No claim on the designated role: only the choice of root port is at stake. */
  lemma PriorityWithoutClaim(b: Bridge, p: nat, id: nat, c: Bridge)
    requires b.RootPortInRange() && Roles(b) && Renumbered(b, p, id, c) && !b.Designated(p) && Numbered(id, p)
    requires !(b.ports[p].desig.bridge == b.id && id < b.ports[p].desig.port)
    ensures Roles(c) <==> !b.On(p) || (!(b.ports[p].desig.bridge == b.id && id == b.ports[p].desig.port) && RootStands(b, p, id))
  {
    RenumberedSound(b, p, b.ports[p].(portId := id));
    if !b.On(p) {
      OffPortIsFree(b, p, b.ports[p].(portId := id));
    } else if c.Designated(p) {
      assert b.On(p) && c.ports[p].state == b.ports[p].state && c.rootPort == b.rootPort;
      if b.rootPort == Some(p) {
        assert !Eligible(c, p);
      }
    } else {
      RenumberedRoot(b, p, id, c);
      RenumberedPorts(b, p, id, c);
    }
  }

  /** The port takes the designated role over from another port of this bridge. */
  lemma PriorityTakesOver(b: Bridge, p: nat, id: nat, c: Bridge)
    requires b.RootPortInRange() && Roles(b) && Renumbered(b, p, id, c) && !b.Designated(p) && Numbered(id, p)
    ensures Roles(StateSelection(c.SetPort(p, BecomeDesignated(c, p)))) <==> !b.On(p) || b.rootPort != Some(p)
  {
    var q := BecomeDesignated(c, p);
    var d := c.SetPort(p, q);
    assert d == b.SetPort(p, q);
    RenumberedSound(b, p, q);
    assert d.Designated(p);
    StateSelectionSelects(d);
    var r := StateSelection(d);
    if !b.On(p) {
      OffPortIsFree(b, p, q);
      SelectingEstablishes(d, r);
    } else if b.rootPort == Some(p) {
      assert r.ports[p].desig == d.ports[p].desig && r.ports[p].portId == d.ports[p].portId by {
        assert r.ports[p] == SelectState(d, p);
      }
      assert !Eligible(r, p);
    } else {
      TakenOverSettled(b, p, q);
      SelectingEstablishes(d, r);
    }
  }

  lemma TakenOverSettled(b: Bridge, p: nat, q: Port)
    requires b.RootPortInRange() && Roles(b) && b.On(p) && !b.Designated(p) && b.rootPort != Some(p)
    requires q.desig == Vector(b.root, b.rootCost, b.id, q.portId) && q.Enabled()
    ensures Settled(b.SetPort(p, q))
  {
    var d := b.SetPort(p, q);
    assert forall k: nat :: k < |b.ports| && k != p ==> d.ports[k] == b.ports[k];
    assert d.Designated(p) && forall k: nat :: k < |b.ports| && Eligible(d, k) ==> k != p && Eligible(b, k);
    forall k: nat | d.On(k)
      ensures if d.Designated(k) then d.ports[k].desig == d.Own(k) else BeatsOwn(d, k)
    {
      if k != p {
        assert b.On(k) && d.Designated(k) == b.Designated(k);
        assert if b.Designated(k) then b.ports[k].desig == b.Own(k) else BeatsOwn(b, k);
      }
    }
    if b.rootPort.Some? {
      assert IsBestPort(b, b.rootPort.value);
      assert Eligible(d, b.rootPort.value);
    }
  }

  /** Setting a port's priority keeps the roles right exactly when the port's role stands; duties are not touched. */
  lemma SetPriorityKeepsIff(b: Bridge, p: nat, priority: nat)
    requires b.RootPortInRange() && Roles(b) && b.HasPort(p) && priority < 0x100
    ensures Roles(SetPriority(b, p, priority)) <==> RoleStands(b, p, NewId(b, p, priority))
    ensures RootDuties(SetPriority(b, p, priority)) <==> RootDuties(b)
  {
    var id, q := NewId(b, p, priority), b.ports[p];
    assert Numbered(q.portId, p) && Numbered(id, p);
    PriorityKeepsDuties(b, p, priority);
    hide Roles, StateSelection, RootStands, RootDuties;
    if q.portId != id {
      var c := b.SetPort(p, q.(portId := id));
      if b.Designated(p) {
        PriorityOfDesignated(b, p, id);
      } else if q.desig.bridge == b.id && id < q.desig.port {
        PriorityTakesOver(b, p, id, c);
      } else {
        PriorityWithoutClaim(b, p, id, c);
      }
    }
  }

  lemma PriorityKeepsDuties(b: Bridge, p: nat, priority: nat)
    requires b.RootPortInRange() && b.HasPort(p)
    ensures RootDuties(SetPriority(b, p, priority)) <==> RootDuties(b)
  {
  }

  /** Two enabled ports that heard the same information from a better bridge. */
  ghost predicate Parallel(b: Bridge) {
    && |b.ports| == 2 && b.On(0) && b.On(1)
    && b.ports[0].desig == b.ports[1].desig && b.ports[0].pathCost == b.ports[1].pathCost
    && b.ports[0].desig.root < b.id && b.ports[0].desig.bridge < b.id && b.ports[0].portId < b.ports[1].portId
  }

  lemma FirstOfTwo(b: Bridge)
    requires Parallel(b) && b.ports[0].pathCost > 0
    ensures var u := ConfigurationUpdate(b); u.rootPort == Some(0) && u.root == b.ports[0].desig.root && u.ports == b.ports
  {
    assert Eligible(b, 0) && ScanRoot(b, 0) == None && ScanRoot(b, 1) == Some(0) && ScanRoot(b, 2) == Some(0);
    var c := RootSelection(b);
    assert !TakesOver(c, 0) && !TakesOver(c, 1);
  }

  /** On two parallel links, raising the blocked port's priority above the root port's leaves the choice wrong. */
  lemma ParallelUnsettled(c: Bridge, priority: nat)
    requires Parallel(c) && Sound(c) && priority < 0x100 && NewId(c, 1, priority) < c.ports[0].portId
    ensures var b := Reconfigure(c); b.HasPort(1) && Inv(b) && !Roles(SetPriority(b, 1, priority))
  {
    var b, u := Reconfigure(c), ConfigurationUpdate(c);
    FirstOfTwo(c);
    ReconfigureEstablishes(c);
    hide Reconfigure, ConfigurationUpdate, SetPriority;
    assert SameInfo(u.ports[0], b.ports[0]) && SameInfo(u.ports[1], b.ports[1]);
    assert Inv(b);
    SetPriorityKeepsIff(b, 1, priority);
    assert Eligible(b, 1);
  }

  /** There are such links. */
  lemma PriorityUnsettles() returns (c: Bridge)
    ensures Parallel(c) && Sound(c) && NewId(c, 1, 0) < c.ports[0].portId
  {
    var v, off := Vector(3, 0, 3, 9), Timer(false, 0);
    var p := Port(0x8001, Blocking, 19, v, false, false, true, Start(0), off, off);
    c := Initial(7).(ports := [p, p.(portId := 0x8002)]);
    assert c.ports[0] == p && c.ports[1] == p.(portId := 0x8002);
  }

  // ---------- Every run ----------

  lemma StepKeepsRoles(b: Bridge, e: Event)
    requires Applies(b, e) && Managed(b, e) && Roles(b)
    ensures Roles(Step(b, e)) && Step(b, e).RootPortInRange() && |Step(b, e).ports| == |b.ports|
    ensures !(e.Receive? && e.m.Config?) ==> Keeps(b, Step(b, e))
  {
    match e
    case Elapse(ticks) => TickKeepsInv(b, ticks);
    case Receive(p, m) =>
      match m {
        case Malformed =>
        case Config(c) => ReceiveKeepsRoles(b, p, c);
        case Tcn => TcnKeepsInv(b, p);
      }
    case Enable(p) => EnableKeepsInv(b, p);
    case Disable(p) => DisableKeepsInv(b, p);
    case ChangeId(id) => SetBridgeIdKeepsInv(b, id);
    case ChangeCost(p, cost) => SetPathCostKeepsInv(b, p, cost);
    case ChangePriority(p, priority) => SetPriorityKeepsIff(b, p, priority);
    case RequestHello(_) => SameRolesKeep(b, Step(b, e));
    case RequestMaxAge(_) => SameRolesKeep(b, Step(b, e));
    case RequestForwardDelay(_) => SameRolesKeep(b, Step(b, e));
    case DetectChanges(p, on) => SameRolesKeep(b, Step(b, e));
  }

  lemma StepKeepsInv(b: Bridge, e: Event)
    requires Applies(b, e) && Orderly(b, e) && Inv(b)
    ensures Inv(Step(b, e))
  {
    StepKeepsRoles(b, e);
    if e.Receive? && e.m.Config? {
      ReceiveKeepsInv(b, e.p, e.m.c);
    }
  }

  lemma InitialInv(id: nat)
    ensures Inv(Initial(id)) && Initial(id).RootPortInRange()
  {
    var b := Initial(id);
    assert forall p: nat :: p < |b.ports| ==> b.ports[p] == InitialPort(id, p) && !b.On(p);
  }

  lemma InitialPorts(id: nat)
    ensures |Initial(id).ports| == MAX_PORTS
  {
  }

  lemma {:induction false} RunKeepsRoles(id: nat, es: seq<Event>, s: seq<Bridge>, n: nat)
    requires IsRun(Initial(id), es, s) && n <= |es|
    requires forall k: nat :: k < |es| ==> Managed(s[k], es[k])
    ensures Roles(s[n]) && s[n].RootPortInRange() && |s[n].ports| == MAX_PORTS
  {
    hide Step, Roles, Initial, RootDuties;
    if n == 0 {
      InitialInv(id);
      InitialPorts(id);
    } else {
      RunKeepsRoles(id, es, s, n - 1);
      StepKeepsRoles(s[n - 1], es[n - 1]);
    }
  }

  lemma {:induction false} RunKeepsInv(id: nat, es: seq<Event>, s: seq<Bridge>, n: nat)
    requires IsRun(Initial(id), es, s) && n <= |es|
    requires forall k: nat :: k < |es| ==> Orderly(s[k], es[k])
    ensures Inv(s[n])
  {
    hide Step, Inv, Initial;
    if n == 0 {
      InitialInv(id);
    } else {
      RunKeepsInv(id, es, s, n - 1);
      StepKeepsInv(s[n - 1], es[n - 1]);
    }
  }

  /**
   In every state that a bridge can reach, whatever messages it received: an
   enabled port blocks exactly when it is neither root port nor designated;
   there is no root port exactly when the bridge is its own root; and the
   configuration is settled, so that reconfiguring again would change nothing.
   */
  lemma EveryReachableState(id: nat, es: seq<Event>, s: seq<Bridge>, n: nat)
    requires IsRun(Initial(id), es, s) && n <= |es|
    requires forall k: nat :: k < |es| ==> Managed(s[k], es[k])
    ensures forall p: nat :: s[n].On(p) ==>
              (s[n].ports[p].state == Blocking <==> s[n].rootPort != Some(p) && !s[n].Designated(p))
    ensures s[n].rootPort.None? <==> s[n].root == s[n].id
    ensures ConfigurationUpdate(s[n]) == s[n]
  {
    hide Step, ConfigurationUpdate;
    RunKeepsRoles(id, es, s, n);
    SettledIsFixed(s[n]);
  }

  /** As root it keeps its hello timer running and its own timer values, unless a message made it root unprepared. */
  lemma EveryRootDoesItsDuties(id: nat, es: seq<Event>, s: seq<Bridge>, n: nat)
    requires IsRun(Initial(id), es, s) && n <= |es|
    requires forall k: nat :: k < |es| ==> Orderly(s[k], es[k])
    ensures s[n].root == s[n].id ==> s[n].helloTimer.active && UsesOwnTimers(s[n])
  {
    hide Step;
    RunKeepsInv(id, es, s, n);
  }
}
