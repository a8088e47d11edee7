/**
 What every entry point of the bridge keeps: the configuration stays settled,
 port states follow port roles, timers follow port states, and the root bridge
 does the root's duties.
 */
module StpInvariants {
  import opened Options
  import opened StpModel
  import opened StpSelection

  /** The low byte of a port's identifier is its number, and stays so. */
  predicate Numbered(id: nat, p: nat) {
    id % 0x100 == p + 1
  }

  ghost predicate WellFormed(b: Bridge) {
    && DistinctPortIds(b)
    && (forall p: nat :: p < |b.ports| ==> Numbered(b.ports[p].portId, p))
    && forall p: nat :: p < |b.ports| ==> b.ports[p].pathCost >= 1
  }

  /** An enabled port blocks exactly when it is neither root port nor designated. */
  ghost predicate StatesFollowRoles(b: Bridge) {
    forall p: nat :: b.On(p) ==>
      (b.ports[p].state == Blocking <==> b.rootPort != Some(p) && !b.Designated(p))
  }

  predicate DelayTimerOk(q: Port) {
    q.forwardDelay.active <==> q.state == Listening || q.state == Learning
  }

  ghost predicate DelayTimersOk(b: Bridge) {
    forall p: nat :: p < |b.ports| ==> DelayTimerOk(b.ports[p])
  }

  /** Information that came from another bridge is aging. */
  ghost predicate InfoAges(b: Bridge) {
    forall p: nat :: b.On(p) && !b.Designated(p) ==> b.ports[p].messageAge.active
  }

  predicate UsesOwnTimers(b: Bridge) {
    b.maxAge == b.ownMaxAge && b.hello == b.ownHello && b.fwd == b.ownFwd
  }

  predicate RootDuties(b: Bridge) {
    b.IsRoot() ==> b.helloTimer.active && UsesOwnTimers(b)
  }

  /** What reconfiguration needs of the state it starts from. */
  ghost predicate Sound(b: Bridge) {
    WellFormed(b) && DelayTimersOk(b) && InfoAges(b)
  }

  /** The configuration is settled and every port's state follows its role. */
  ghost predicate Roles(b: Bridge) {
    Sound(b) && Settled(b) && StatesFollowRoles(b)
  }

  ghost predicate Inv(b: Bridge) {
    Roles(b) && RootDuties(b)
  }

  /** The roles are right after a step from `b` to `c`, and the root's duties are done if they were before. */
  ghost predicate Keeps(b: Bridge, c: Bridge) {
    Roles(c) && (RootDuties(b) ==> RootDuties(c))
  }

  /** The same configuration and the same information on every port. */
  ghost predicate SameVectors(b: Bridge, c: Bridge) {
    && |c.ports| == |b.ports|
    && c.id == b.id && c.root == b.root && c.rootCost == b.rootCost && c.rootPort == b.rootPort
    && forall p: nat :: p < |b.ports| ==> SameInfo(b.ports[p], c.ports[p])
  }

  predicate SameInfo(p: Port, q: Port) {
    q.desig == p.desig && q.Enabled() == p.Enabled() && q.portId == p.portId && q.pathCost == p.pathCost
  }

  /** The same own and operating timer values, and the same hello timer. */
  predicate SameTimes(b: Bridge, c: Bridge) {
    && c.helloTimer == b.helloTimer
    && c.maxAge == b.maxAge && c.hello == b.hello && c.fwd == b.fwd
    && c.ownMaxAge == b.ownMaxAge && c.ownHello == b.ownHello && c.ownFwd == b.ownFwd
  }

  lemma SameVectorsKeepSettled(b: Bridge, c: Bridge)
    requires SameVectors(b, c)
    ensures WellFormed(b) ==> WellFormed(c)
    ensures Settled(b) ==> Settled(c)
  {
    assert forall p: nat :: p < |b.ports| ==> SameInfo(b.ports[p], c.ports[p]) && Eligible(b, p) == Eligible(c, p);
    assert forall p: nat, q: nat :: p < |b.ports| && q < |b.ports| ==>
        SupersedesRoot(b.ports[p], b.ports[q]) == SupersedesRoot(c.ports[p], c.ports[q]);
    if Settled(b) {
      forall p: nat | c.On(p)
        ensures if c.Designated(p) then c.ports[p].desig == c.Own(p) else BeatsOwn(c, p)
      {
        assert b.On(p);
      }
    }
  }

  /** The same configuration and, on every port, the same state and protocol timers. */
  ghost predicate SameRoles(b: Bridge, c: Bridge) {
    && SameVectors(b, c)
    && forall p: nat :: p < |b.ports| ==>
         && c.ports[p].state == b.ports[p].state
         && c.ports[p].forwardDelay == b.ports[p].forwardDelay
         && c.ports[p].messageAge == b.ports[p].messageAge
  }

  lemma SameRolesKeep(b: Bridge, c: Bridge)
    requires SameRoles(b, c)
    ensures Sound(b) ==> Sound(c)
    ensures Settled(b) ==> Settled(c)
    ensures StatesFollowRoles(b) ==> StatesFollowRoles(c)
    ensures Roles(b) ==> Roles(c)
  {
    SameVectorsKeepSettled(b, c);
    assert forall p: nat :: p < |b.ports| ==>
        SameInfo(b.ports[p], c.ports[p]) && b.Designated(p) == c.Designated(p) && b.On(p) == c.On(p);
  }

  // ---------- Sending changes no configuration ----------

  lemma TransmitKeepsRoles(b: Bridge, p: nat)
    requires b.HasPort(p) && b.RootPortInRange()
    ensures SameRoles(b, TransmitConfig(b, p)) && SameTimes(b, TransmitConfig(b, p))
  {
  }

  lemma {:induction false} GenerateKeepsRoles(b: Bridge, n: nat)
    requires n <= |b.ports| && b.RootPortInRange()
    ensures SameRoles(b, GenerateConfigs(b, n)) && SameTimes(b, GenerateConfigs(b, n))
  {
    hide TransmitConfig;
    if n > 0 {
      GenerateKeepsRoles(b, n - 1);
      TransmitKeepsRoles(GenerateConfigs(b, n - 1), n - 1);
    }
  }

  // ---------- Reconfiguration ----------

  lemma UpdateShape(b: Bridge)
    ensures var c := ConfigurationUpdate(b);
            && c.id == b.id && SameTimes(b, c)
            && forall p: nat :: p < |b.ports| ==> c.ports[p] == b.ports[p].(desig := c.ports[p].desig)
  {
  }

  lemma UpdateKeepsSound(b: Bridge)
    requires Sound(b)
    ensures Sound(ConfigurationUpdate(b)) && Settled(ConfigurationUpdate(b))
  {
    UpdateSettlesIff(b);
    UpdateShape(b);
    var c := RootSelection(b);
    var d := ConfigurationUpdate(b);
    forall p: nat | d.On(p) && !d.Designated(p)
      ensures d.ports[p].messageAge.active
    {
      assert b.On(p) && !TakesOver(c, p);
      assert d.ports[p] == b.ports[p];
      assert !b.Designated(p);
    }
  }

  ghost predicate SelectsStates(b: Bridge, c: Bridge) {
    && |c.ports| == |b.ports|
    && c.id == b.id && c.root == b.root && c.rootCost == b.rootCost && c.rootPort == b.rootPort
    && SameTimes(b, c)
    && forall p: nat :: p < |b.ports| ==> c.ports[p] == SelectState(b, p)
  }

  lemma StateSelectionSelects(b: Bridge)
    requires b.RootPortInRange()
    ensures SelectsStates(b, StateSelection(b))
  {
  }

  lemma SelectingEstablishes(b: Bridge, c: Bridge)
    requires Sound(b) && Settled(b) && SelectsStates(b, c)
    ensures SameVectors(b, c) && Roles(c)
  {
    forall p: nat | p < |b.ports|
      ensures SameInfo(b.ports[p], c.ports[p]) && DelayTimerOk(c.ports[p])
      ensures b.On(p) && !b.Designated(p) ==> c.ports[p].messageAge == b.ports[p].messageAge
      ensures b.On(p) ==> (c.ports[p].state == Blocking <==> b.rootPort != Some(p) && !b.Designated(p))
    {
      assert c.ports[p] == SelectState(b, p) && DelayTimerOk(b.ports[p]);
      SelectOne(b, p);
    }
    hide SelectState;
    SameVectorsKeepSettled(b, c);
    hide Settled;
    assert forall p: nat :: c.On(p) ==> b.On(p) && c.Designated(p) == b.Designated(p);
  }

  lemma SelectOne(b: Bridge, p: nat)
    requires b.HasPort(p) && DelayTimerOk(b.ports[p])
    ensures var q := SelectState(b, p);
            && SameInfo(b.ports[p], q) && DelayTimerOk(q)
            && (b.On(p) && !b.Designated(p) ==> q.messageAge == b.ports[p].messageAge)
            && (b.On(p) ==> (q.state == Blocking <==> b.rootPort != Some(p) && !b.Designated(p)))
  {
  }

  /** Reconfiguration establishes configuration and states, and leaves the timers alone. */
  lemma ReconfigureEstablishes(b: Bridge)
    requires Sound(b)
    ensures Roles(Reconfigure(b))
    ensures SameVectors(ConfigurationUpdate(b), Reconfigure(b))
    ensures SameTimes(b, Reconfigure(b)) && Reconfigure(b).id == b.id
  {
    UpdateShape(b);
    UpdateKeepsSound(b);
    StateSelectionSelects(ConfigurationUpdate(b));
    SelectingEstablishes(ConfigurationUpdate(b), Reconfigure(b));
  }

  lemma BecomeRootKeeps(b: Bridge)
    requires Roles(b) && b.IsRoot()
    ensures Inv(BecomeRoot(b)) && BecomeRoot(b).id == b.id
  {
    var c := TopologyChangeDetection(AdoptOwnTimers(b));
    var d := c.(tcnTimer := Stop(c.tcnTimer));
    GenerateKeepsRoles(d, |d.ports|);
    assert SameRoles(b, BecomeRoot(b));
    SameRolesKeep(b, BecomeRoot(b));
  }

  lemma ReconfigureAfterLossKeeps(b: Bridge, wasRoot: bool)
    requires Sound(b)
    ensures Roles(ReconfigureAfterLoss(b, wasRoot))
    ensures (wasRoot ==> b.helloTimer.active && UsesOwnTimers(b)) ==> RootDuties(ReconfigureAfterLoss(b, wasRoot))
  {
    ReconfigureEstablishes(b);
    if Reconfigure(b).IsRoot() && !wasRoot {
      BecomeRootKeeps(Reconfigure(b));
    }
  }
}
