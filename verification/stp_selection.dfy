/**
 Configuration update (root selection followed by designated port selection):
 what it chooses, that one pass suffices, and exactly when it does.
 */
module StpSelection {
  import opened Options
  import opened StpModel

  ghost predicate DistinctPortIds(b: Bridge) {
    forall p: nat, q: nat :: p < q < |b.ports| ==> b.ports[p].portId != b.ports[q].portId
  }

  /** `r` is eligible and strictly better than every other eligible port. */
  ghost predicate IsBestPort(b: Bridge, r: nat) {
    && r < |b.ports|
    && Eligible(b, r)
    && forall p: nat :: p < |b.ports| && p != r && Eligible(b, p) ==> SupersedesRoot(b.ports[p], b.ports[r])
  }

  ghost predicate SettledRoot(b: Bridge) {
    match b.rootPort
    case None =>
      && b.root == b.id
      && b.rootCost == 0
      && forall p: nat :: p < |b.ports| ==> !Eligible(b, p)
    case Some(r) =>
      && IsBestPort(b, r)
      && b.root == b.ports[r].desig.root
      && b.rootCost == CostVia(b.ports[r])
  }

  /** Strictly better than what this bridge itself would send on port `p`, with the same root. */
  ghost predicate BeatsOwn(b: Bridge, p: nat)
    requires b.HasPort(p)
  {
    var d := b.ports[p].desig;
    && d.root == b.root
    && (|| d.cost < b.rootCost
        || (d.cost == b.rootCost && d.bridge < b.id)
        || (d.cost == b.rootCost && d.bridge == b.id && d.port < b.ports[p].portId))
  }

  ghost predicate SettledPorts(b: Bridge) {
    forall p: nat :: b.On(p) ==>
      if b.Designated(p) then b.ports[p].desig == b.Own(p) else BeatsOwn(b, p)
  }

  ghost predicate Settled(b: Bridge) {
    SettledRoot(b) && SettledPorts(b)
  }

  /** The five-key order is a strict order, and total on ports with different identifiers. */
  lemma RootOrder(p: Port, q: Port, r: Port)
    ensures !SupersedesRoot(p, p)
    ensures SupersedesRoot(p, q) && SupersedesRoot(q, r) ==> SupersedesRoot(p, r)
    ensures p.portId != q.portId ==> (SupersedesRoot(p, q) <==> !SupersedesRoot(q, p))
  {
  }

  lemma {:induction false} ScanRootFindsBest(b: Bridge, n: nat)
    requires n <= |b.ports| && DistinctPortIds(b)
    ensures ScanRoot(b, n).None? <==> forall p: nat :: p < n ==> !Eligible(b, p)
    ensures ScanRoot(b, n).Some? ==>
              forall p: nat :: p < n && p != ScanRoot(b, n).value && Eligible(b, p) ==>
                SupersedesRoot(b.ports[p], b.ports[ScanRoot(b, n).value])
  {
    if n > 0 {
      ScanRootFindsBest(b, n - 1);
      var s, m := ScanRoot(b, n - 1), n - 1;
      if Eligible(b, m) && s.Some? && SupersedesRoot(b.ports[s.value], b.ports[m]) {
        forall p: nat | p < m && Eligible(b, p)
          ensures SupersedesRoot(b.ports[p], b.ports[m])
        {
          RootOrder(b.ports[p], b.ports[s.value], b.ports[m]);
        }
      }
    }
  }

  lemma RootSelectionSettles(b: Bridge)
    requires DistinctPortIds(b)
    ensures SettledRoot(RootSelection(b))
  {
    ScanRootFindsBest(b, |b.ports|);
    var c := RootSelection(b);
    assert forall p: nat :: p < |b.ports| ==> Eligible(c, p) == Eligible(b, p);
  }

  /** The port that root selection picks will not be taken over as designated. */
  predicate RootPortHolds(b: Bridge) {
    var r := ScanRoot(b, |b.ports|);
    r.Some? ==>
      var q := b.ports[r.value];
      || q.pathCost > 0
      || q.desig.bridge < b.id
      || (q.desig.bridge == b.id && q.desig.port < q.portId)
  }

  /** The best port stays the best when ports of others become designated. */
  lemma UpdateKeepsRootChoice(b: Bridge)
    requires DistinctPortIds(b) && RootPortHolds(b)
    ensures SettledRoot(ConfigurationUpdate(b))
  {
    RootSelectionSettles(b);
    var c := RootSelection(b);
    var d := DesignatedSelection(c);
    forall p: nat | p < |d.ports| && Eligible(d, p)
      ensures Eligible(c, p) && d.ports[p] == c.ports[p]
    {
      assert c.On(p) == d.On(p);
    }
    if c.rootPort.Some? {
      var r := c.rootPort.value;
      assert !TakesOver(c, r);
      assert d.ports[r] == c.ports[r];
      assert Eligible(d, r);
    }
  }

  lemma UpdateSettlesPorts(b: Bridge)
    ensures SettledPorts(ConfigurationUpdate(b))
  {
    var c := RootSelection(b);
    var d := DesignatedSelection(c);
    forall p: nat | d.On(p)
      ensures if d.Designated(p) then d.ports[p].desig == d.Own(p) else BeatsOwn(d, p)
    {
      assert c.On(p);
      assert d.ports[p] == if TakesOver(c, p) then BecomeDesignated(c, p) else c.ports[p];
    }
  }

  /** A settled configuration is a fixed point. */
  lemma SettledIsFixed(b: Bridge)
    requires DistinctPortIds(b) && Settled(b)
    ensures ConfigurationUpdate(b) == b
  {
    ScanRootFindsBest(b, |b.ports|);
    var s := ScanRoot(b, |b.ports|);
    if s.Some? && b.rootPort.Some? && s.value != b.rootPort.value {
      RootOrder(b.ports[s.value], b.ports[b.rootPort.value], b.ports[s.value]);
      assert false;
    }
    assert s == b.rootPort;
    assert RootSelection(b) == b;
    var d := DesignatedSelection(b);
    forall p: nat | p < |b.ports|
      ensures d.ports[p] == b.ports[p]
    {
      if b.On(p) && b.Designated(p) {
        assert b.ports[p].desig == b.Own(p);
      }
    }
    assert d.ports == b.ports;
  }

  /**
   The law of configuration update, from any state at all: the result is settled
   (and so a second pass changes nothing) exactly when the port that root
   selection picks is not free of charge and worse than the bridge itself.
   */
  lemma UpdateSettlesIff(b: Bridge)
    requires DistinctPortIds(b)
    ensures Settled(ConfigurationUpdate(b)) <==> RootPortHolds(b)
    ensures ConfigurationUpdate(ConfigurationUpdate(b)) == ConfigurationUpdate(b) <==> RootPortHolds(b)
  {
    var c := RootSelection(b);
    var d := ConfigurationUpdate(b);
    assert forall p: nat :: p < |b.ports| ==> d.ports[p].portId == b.ports[p].portId;
    UpdateSettlesPorts(b);
    if RootPortHolds(b) {
      UpdateKeepsRootChoice(b);
      SettledIsFixed(d);
    } else {
      var r := c.rootPort.value;
      assert c.On(r) && TakesOver(c, r);
      assert d.Designated(r);
      assert !Eligible(d, r);
    }
  }

  /** Whatever the state before, the root port is the unique best of the ports then eligible. */
  lemma UpdateChoosesBest(b: Bridge)
    requires DistinctPortIds(b)
    ensures match ConfigurationUpdate(b).rootPort
            case Some(r) => IsBestPort(b, r) && forall q: nat :: IsBestPort(b, q) ==> q == r
            case None => forall p: nat :: p < |b.ports| ==> !Eligible(b, p)
  {
    ScanRootFindsBest(b, |b.ports|);
    if ScanRoot(b, |b.ports|).Some? {
      var r := ScanRoot(b, |b.ports|).value;
      forall q: nat | IsBestPort(b, q)
        ensures q == r
      {
        RootOrder(b.ports[q], b.ports[r], b.ports[q]);
      }
    }
  }

  /** With a free path cost the chosen root port can be taken over as designated. */
  lemma FreePathCostUnsettles()
    ensures exists b: Bridge ::
              && DistinctPortIds(b)
              && !Settled(ConfigurationUpdate(b))
              && ConfigurationUpdate(b).rootPort.Some?
              && ConfigurationUpdate(b).Designated(ConfigurationUpdate(b).rootPort.value)
  {
    var b := Initial(7);
    var c := b.(ports := [b.ports[0].(state := Blocking, pathCost := 0, desig := Vector(3, 0, 9, 1))]);
    assert ScanRoot(c, 1) == Some(0) by {
      assert ScanRoot(c, 0) == None;
      assert Eligible(c, 0);
    }
    UpdateSettlesIff(c);
    var d := ConfigurationUpdate(c);
    assert TakesOver(RootSelection(c), 0);
    assert d.rootPort == Some(0) && d.Designated(0);
  }

  /** No root port, exactly on the root bridge itself. */
  lemma RootPortUnlessRoot(b: Bridge)
    requires SettledRoot(b)
    ensures b.rootPort.None? <==> b.IsRoot()
    ensures b.root <= b.id
    ensures b.rootPort.Some? ==> b.On(b.rootPort.value) && !b.Designated(b.rootPort.value)
  {
  }
}
