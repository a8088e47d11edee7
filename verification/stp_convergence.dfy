/**
 How a network comes to rest: from bridges that know nothing of each other,
 delivering what designated ports send, again and again and in any order,
 leaves a network at rest after finitely many steps.
 */
module StpConvergence {
  import opened Options
  import opened StpModel
  import opened StpSelection
  import opened StpInvariants
  import opened StpSafety
  import opened StpNetwork

  // ---------- The order of vectors ----------

  predicate Le(v: Vector, w: Vector) {
    if v.root != w.root then v.root < w.root
    else if v.cost != w.cost then v.cost < w.cost
    else if v.bridge != w.bridge then v.bridge < w.bridge
    else v.port <= w.port
  }

  /** From `n` on the sequence does not change. */
  ghost predicate Constant(f: nat -> Vector, n: nat) {
    forall k: nat :: n <= k ==> f(k) == f(n)
  }

  lemma {:induction false} LeOverTime(f: nat -> Vector, i: nat, j: nat)
    requires i <= j && forall k: nat :: Le(f(k + 1), f(k))
    ensures Le(f(j), f(i))
    decreases j - i
  {
    if i < j {
      LeOverTime(f, i, j - 1);
      assert Le(f(j - 1 + 1), f(j - 1));
    }
  }

  /** A sequence of vectors that never gets worse is constant from some time on. */
  lemma {:induction false} ComesToRest(f: nat -> Vector, i: nat) returns (n: nat)
    requires forall k: nat :: Le(f(k + 1), f(k))
    ensures i <= n && Constant(f, n)
    decreases f(i).root, f(i).cost, f(i).bridge, f(i).port
  {
    if Constant(f, i) {
      n := i;
    } else {
      var k: nat :| i <= k && f(k) != f(i);
      LeOverTime(f, i, k);
      n := ComesToRest(f, k);
    }
  }

  // ---------- One bridge ----------

  /**
   What configuration update leaves on a port that was not designated: the same, or its own
   vector, which is no worse.
   */
  lemma UpdatedPort(r: Bridge, k: nat)
    requires DistinctPortIds(r) && r.On(k) && !r.Designated(k)
    ensures var u := ConfigurationUpdate(r);
            u.ports[k].desig == r.ports[k].desig || (u.ports[k].desig == u.Own(k) && Le(u.Own(k), r.ports[k].desig))
  {
    UpdateChoosesBest(r);
    RootSelectionSettles(r);
    var c := RootSelection(r);
    var u := ConfigurationUpdate(r);
    assert u.ports[k] == if TakesOver(c, k) then BecomeDesignated(c, k) else r.ports[k];
    if TakesOver(c, k) && Eligible(r, k) && c.rootPort != Some(k) {
      assert SupersedesRoot(r.ports[k], r.ports[c.rootPort.value]);
    }
  }

  lemma OtherwiseUpdated(r: Bridge, k: nat)
    requires DistinctPortIds(r) && r.HasPort(k)
    ensures var u := ConfigurationUpdate(r);
            && u.id == r.id && |u.ports| == |r.ports| && u.On(k) == r.On(k) && u.ports[k].portId == r.ports[k].portId
            && (!r.On(k) ==> u.ports[k] == r.ports[k])
            && (r.On(k) && r.Designated(k) ==> u.ports[k].desig == u.Own(k))
  {
    if r.On(k) && r.Designated(k) {
      assert TakesOver(RootSelection(r), k);
    }
  }

  /** `u` is `b` with knowledge that is nowhere worse, on the same ports. */
  ghost predicate Improves(b: Bridge, u: Bridge) {
    && u.id == b.id && |u.ports| == |b.ports| && NoWorse(b, u)
    && forall k: nat :: k < |b.ports| ==>
         && u.ports[k].portId == b.ports[k].portId && u.ports[k].pathCost == b.ports[k].pathCost
         && u.ports[k].Enabled() == b.ports[k].Enabled() && Le(u.ports[k].desig, b.ports[k].desig)
  }

  /** What a port that is not designated afterwards knows, it knew before or has just heard. */
  ghost predicate Learned(b: Bridge, u: Bridge, p: nat, v: Vector) {
    && |u.ports| == |b.ports|
    && forall k: nat :: u.On(k) && !u.Designated(k) ==>
         u.ports[k].desig == b.ports[k].desig || (k == p && u.ports[k].desig == v)
  }

  lemma SameVectorsImprove(b: Bridge, u: Bridge, p: nat, v: Vector)
    requires SameVectors(b, u)
    ensures Improves(b, u) && Learned(b, u, p, v)
  {
    assert forall k: nat :: k < |b.ports| ==> SameInfo(b.ports[k], u.ports[k]);
  }

  /** An update after recording `v` on port `p`. */
  lemma RecordingImproves(b: Bridge, r: Bridge, p: nat, v: Vector, t: Timer)
    requires Roles(b) && b.On(p) && !ClaimsThisPort(b, p, v) && Le(v, b.ports[p].desig)
    requires r == b.SetPort(p, b.ports[p].(desig := v, messageAge := t))
    requires NoWorse(b, ConfigurationUpdate(r))
    ensures Improves(b, ConfigurationUpdate(r)) && Learned(b, ConfigurationUpdate(r), p, v)
  {
    var u := ConfigurationUpdate(r);
    UpdateShape(r);
    assert forall k: nat :: k < |b.ports| && k != p ==> r.ports[k] == b.ports[k];
    assert forall k: nat :: k < |b.ports| ==> r.ports[k].portId == b.ports[k].portId;
    forall k: nat | k < |b.ports|
      ensures Le(u.ports[k].desig, b.ports[k].desig)
      ensures u.On(k) && !u.Designated(k) ==> u.ports[k].desig == r.ports[k].desig
    {
      RecordedPort(b, r, u, p, k);
    }
  }

  lemma RecordedPort(b: Bridge, r: Bridge, u: Bridge, p: nat, k: nat)
    requires Settled(b) && k < |b.ports| == |r.ports| && r.id == b.id && DistinctPortIds(r) && r.HasPort(p)
    requires r.ports[k].portId == b.ports[k].portId && r.ports[k].Enabled() == b.ports[k].Enabled()
    requires k != p ==> r.ports[k] == b.ports[k]
    requires Le(r.ports[k].desig, b.ports[k].desig) && !r.Designated(p)
    requires u == ConfigurationUpdate(r) && NoWorse(b, u)
    ensures Le(u.ports[k].desig, b.ports[k].desig)
    ensures u.On(k) && !u.Designated(k) ==> u.ports[k].desig == r.ports[k].desig
  {
    OtherwiseUpdated(r, k);
    if r.On(k) && !r.Designated(k) {
      UpdatedPort(r, k);
    }
    hide ConfigurationUpdate;
    if r.On(k) && r.Designated(k) {
      assert b.On(k) && b.Designated(k) && b.ports[k].desig == b.Own(k);
    }
  }

  /** Receiving a message that is no worse than what the port knows improves the bridge. */
  lemma ReceivingImproves(b: Bridge, p: nat, c: ConfigMsg)
    requires b.RootPortInRange() && Roles(b) && b.On(p) && !ClaimsThisPort(b, p, c.v)
    requires SupersedesPortInfo(b, p, c.v) ==> Le(c.v, b.ports[p].desig)
    ensures var u := ReceivedConfig(b, p, c);
            Improves(b, u) && Learned(b, u, p, c.v) && Roles(u) && u.RootPortInRange()
  {
    var u := ReceivedConfig(b, p, c);
    ReceiveKeepsRoles(b, p, c);
    ReceiveNeverWorsens(b, p, c);
    if Accepted(b, p, c) {
      var r := RecordInfo(b, p, c);
      UpdateReached(b, p, c);
      RecordingImproves(b, r, p, c.v, Start(c.age));
      ImprovesAlong(b, ConfigurationUpdate(r), u, p, c.v);
    } else {
      TransmitKeepsRoles(b, p);
      SameVectorsImprove(b, b, p, c.v);
      SameVectorsImprove(b, TransmitConfig(b, p), p, c.v);
    }
  }

  lemma UpdateReached(b: Bridge, p: nat, c: ConfigMsg)
    requires b.RootPortInRange() && Roles(b) && b.HasPort(p) && Accepted(b, p, c)
    ensures SameVectors(ConfigurationUpdate(RecordInfo(b, p, c)), ReceivedConfig(b, p, c))
  {
    var r := RecordInfo(b, p, c);
    RecordKeepsSound(b, p, c);
    ReconfigureEstablishes(r);
    ReceiveReconfigures(b, p, c);
    hide Roles, ConfigurationUpdate, Reconfigure, ReceivedConfig, RecordInfo;
    VectorsAlong(ConfigurationUpdate(r), Reconfigure(r), ReceivedConfig(b, p, c));
  }

  lemma VectorsAlong(b: Bridge, c: Bridge, d: Bridge)
    requires SameVectors(b, c) && SameVectors(c, d)
    ensures SameVectors(b, d)
  {
    assert forall k: nat :: k < |b.ports| ==> SameInfo(b.ports[k], c.ports[k]) && SameInfo(c.ports[k], d.ports[k]);
  }

  lemma ImprovesAlong(b: Bridge, c: Bridge, d: Bridge, p: nat, v: Vector)
    requires Improves(b, c) && Learned(b, c, p, v) && SameVectors(c, d)
    ensures Improves(b, d) && Learned(b, d, p, v)
  {
    assert forall k: nat :: k < |b.ports| ==> SameInfo(c.ports[k], d.ports[k]);
  }

  // ---------- A network ----------

  /**
   What a port that is not designated knows came from its peer, which by now offers
   nothing worse.
   */
  ghost predicate Grounded(n: Network) {
    WellWired(n) && DistinctBridgeIds(n) && AllRight(n) && AllFromPeers(n)
  }

  ghost predicate AllRight(n: Network) {
    forall i: nat :: i < |n.bridges| ==> n.bridges[i].RootPortInRange() && Roles(n.bridges[i])
  }

  ghost predicate AllFromPeers(n: Network) {
    forall e: End :: n.IsEnd(e) && !n.Designated(e) ==> FromPeer(n, e)
  }

  ghost predicate FromPeer(n: Network, e: End)
    requires n.IsEnd(e)
  {
    && e in n.peer && n.IsEnd(n.peer[e])
    && var d, o := n.PortOf(e).desig, n.Offer(n.peer[e]);
       d.bridge == o.bridge && d.port == o.port && Le(o, d)
  }

  /** A configuration message that arrives from the far end `from` of a link. */
  datatype Delivery = Delivery(from: End, c: ConfigMsg)

  /** It is what the designated port `from` sends now, and not too old. */
  ghost predicate Sends(n: Network, d: Delivery) {
    && d.from in n.peer && n.IsEnd(d.from) && n.Designated(d.from)
    && d.c.v == n.Offer(d.from) && d.c.age < d.c.maxAge
  }

  /** There is a port for it to arrive at. */
  ghost predicate Linked(n: Network, d: Delivery) {
    d.from in n.peer && n.IsEnd(d.from) && n.IsEnd(n.peer[d.from]) && n.At(n.peer[d.from]).RootPortInRange()
  }

  /** It may have been sent some time ago: by now its sender offers nothing worse. */
  ghost predicate Arrives(n: Network, d: Delivery) {
    && Linked(n, d) && d.c.age < d.c.maxAge
    && var o := n.Offer(d.from); d.c.v.bridge == o.bridge && d.c.v.port == o.port && Le(o, d.c.v)
  }

  ghost function Deliver(n: Network, d: Delivery): Network
    requires Linked(n, d)
  {
    var t := n.peer[d.from];
    n.(bridges := n.bridges[t.node := ReceivedConfig(n.bridges[t.node], t.port, d.c)])
  }

  /** The same links, and every bridge no worse off. */
  ghost predicate Advances(n: Network, m: Network) {
    && m.peer == n.peer && |m.bridges| == |n.bridges|
    && forall i: nat :: i < |n.bridges| ==> Improves(n.bridges[i], m.bridges[i])
  }

  lemma OfferImproves(n: Network, m: Network, e: End)
    requires Advances(n, m) && n.IsEnd(e)
    ensures m.IsEnd(e)
    ensures var o, o' := n.Offer(e), m.Offer(e); o'.bridge == o.bridge && o'.port == o.port && Le(o', o)
  {
    assert Improves(n.bridges[e.node], m.bridges[e.node]);
  }

  /** A message from a peer does not claim to come from here, and is no worse than what it would replace. */
  lemma HeardFromPeer(n: Network, d: Delivery)
    requires Grounded(n) && Arrives(n, d)
    ensures var t := n.peer[d.from]; var b := n.At(t);
            && !ClaimsThisPort(b, t.port, d.c.v)
            && (SupersedesPortInfo(b, t.port, d.c.v) ==> Le(d.c.v, b.ports[t.port].desig))
  {
    var e, t := d.from, n.peer[d.from];
    var b := n.At(t);
    assert e != t && n.peer[t] == e;
    if e.node == t.node {
      assert Roles(b) && b.ports[e.port].portId != b.ports[t.port].portId;
    }
    if b.Designated(t.port) {
      assert Roles(b) && b.On(t.port);
      assert b.ports[t.port].desig == b.Own(t.port);
    } else {
      assert n.IsEnd(t) && !n.Designated(t);
      assert FromPeer(n, t);
    }
  }

  /** Only the bridge at `t` changed, and it did so by hearing `v`. */
  ghost predicate Heard(n: Network, m: Network, v: Vector, t: End) {
    && n.IsEnd(t) && m.peer == n.peer && |m.bridges| == |n.bridges|
    && (forall i: nat :: i < |n.bridges| && i != t.node ==> m.bridges[i] == n.bridges[i])
    && var u := m.bridges[t.node];
       Improves(n.At(t), u) && Learned(n.At(t), u, t.port, v) && Roles(u) && u.RootPortInRange()
  }

  lemma DeliveryIsHeard(n: Network, d: Delivery)
    requires Grounded(n) && Arrives(n, d)
    ensures Heard(n, Deliver(n, d), d.c.v, n.peer[d.from])
  {
    var t := n.peer[d.from];
    HeardFromPeer(n, d);
    assert Roles(n.At(t));
    hide Roles, ReceivedConfig, Improves, Learned, Grounded, SupersedesPortInfo, ClaimsThisPort, Le;
    ReceivingImproves(n.At(t), t.port, d.c);
    OnlyReceiverChanged(n, Deliver(n, d), d.c.v, t);
  }

  lemma OnlyReceiverChanged(n: Network, m: Network, v: Vector, t: End)
    requires n.IsEnd(t) && |m.bridges| == |n.bridges|
    requires m == n.(bridges := n.bridges[t.node := m.bridges[t.node]])
    requires var u := m.bridges[t.node];
             Improves(n.At(t), u) && Learned(n.At(t), u, t.port, v) && Roles(u) && u.RootPortInRange()
    ensures Heard(n, m, v, t)
  {
    hide Roles, Improves, Learned;
  }

  lemma HearingAdvances(n: Network, m: Network, v: Vector, t: End)
    requires Heard(n, m, v, t)
    ensures Advances(n, m)
  {
    forall i: nat | i < |n.bridges|
      ensures Improves(n.bridges[i], m.bridges[i])
    {
      if i != t.node {
        SameVectorsImprove(n.bridges[i], n.bridges[i], 0, Vector(0, 0, 0, 0));
      }
    }
  }

  /** `v` is something that the peer of `t` offered. */
  ghost predicate Offered(n: Network, v: Vector, t: End) {
    && t in n.peer && n.IsEnd(n.peer[t])
    && var o := n.Offer(n.peer[t]); v.bridge == o.bridge && v.port == o.port && Le(o, v)
  }

  lemma HearingKeepsGrounded(n: Network, m: Network, v: Vector, t: End)
    requires Grounded(n) && Heard(n, m, v, t) && Offered(n, v, t)
    ensures Grounded(m)
  {
    HearingAdvances(n, m, v, t);
    AdvancingKeepsIds(n, m);
    AdvancingKeepsWires(n, m);
    RightAfterHearing(n, m, v, t);
    FromPeersAfterHearing(n, m, v, t);
    hide Heard, Advances, AllRight, AllFromPeers, WellWired, DistinctBridgeIds;
  }

  lemma RightAfterHearing(n: Network, m: Network, v: Vector, t: End)
    requires AllRight(n) && Heard(n, m, v, t)
    ensures AllRight(m)
  {
    hide Roles, Improves, Learned;
  }

  lemma FromPeersAfterHearing(n: Network, m: Network, v: Vector, t: End)
    requires Grounded(n) && Heard(n, m, v, t) && Offered(n, v, t) && Advances(n, m)
    ensures AllFromPeers(m)
  {
    hide Heard, Grounded, Advances, FromPeer, Offered;
    forall x: End | m.IsEnd(x) && !m.Designated(x)
      ensures FromPeer(m, x)
    {
      StillFromPeer(n, m, v, t, x);
    }
  }

  lemma AdvancingKeepsWires(n: Network, m: Network)
    requires Advances(n, m) && WellWired(n)
    ensures WellWired(m)
  {
    hide Advances;
    forall e | e in n.peer
      ensures m.IsEnd(e)
    {
      SameEnds(n, m, e);
    }
    assert m.peer == n.peer by {
      AdvancingKeepsPeers(n, m);
    }
  }

  lemma AdvancingKeepsPeers(n: Network, m: Network)
    requires Advances(n, m)
    ensures m.peer == n.peer
  {
  }

  lemma AdvancingKeepsIds(n: Network, m: Network)
    requires Advances(n, m)
    ensures DistinctBridgeIds(n) ==> DistinctBridgeIds(m)
  {
    assert forall i: nat :: i < |n.bridges| ==> Improves(n.bridges[i], m.bridges[i]);
  }

  lemma DeliveryAdvances(n: Network, d: Delivery)
    requires Grounded(n) && Arrives(n, d)
    ensures Advances(n, Deliver(n, d)) && Grounded(Deliver(n, d))
  {
    hide Grounded, Heard, Deliver, Offered, Advances;
    DeliveryIsHeard(n, d);
    ArrivedWasOffered(n, d);
    HearingAdvances(n, Deliver(n, d), d.c.v, n.peer[d.from]);
    HearingKeepsGrounded(n, Deliver(n, d), d.c.v, n.peer[d.from]);
  }

  lemma ArrivedWasOffered(n: Network, d: Delivery)
    requires Grounded(n) && Arrives(n, d)
    ensures Offered(n, d.c.v, n.peer[d.from])
  {
  }

  lemma SameEnds(n: Network, m: Network, e: End)
    requires Advances(n, m)
    ensures m.IsEnd(e) <==> n.IsEnd(e)
  {
    if e.node < |n.bridges| {
      assert Improves(n.bridges[e.node], m.bridges[e.node]);
    }
  }

  /** What end `x` knows afterwards it knew before, or it is `t` and has just heard it. */
  lemma KnownBefore(n: Network, m: Network, v: Vector, t: End, x: End)
    requires Heard(n, m, v, t) && m.IsEnd(x) && !m.Designated(x)
    ensures n.IsEnd(x)
    ensures (m.PortOf(x).desig == n.PortOf(x).desig && !n.Designated(x)) || (x == t && m.PortOf(x).desig == v)
  {
    hide Roles;
    if x.node == t.node {
      assert Improves(n.At(t), m.bridges[t.node]);
    }
  }

  lemma PeerOfOld(n: Network, m: Network, x: End)
    requires Advances(n, m) && n.IsEnd(x) && m.IsEnd(x) && FromPeer(n, x) && m.PortOf(x).desig == n.PortOf(x).desig
    ensures FromPeer(m, x)
  {
    AdvancingKeepsPeers(n, m);
    OfferImproves(n, m, n.peer[x]);
    hide Advances;
  }

  lemma PeerOfNew(n: Network, m: Network, v: Vector, x: End)
    requires Advances(n, m) && Offered(n, v, x) && m.IsEnd(x) && m.PortOf(x).desig == v
    ensures FromPeer(m, x)
  {
    AdvancingKeepsPeers(n, m);
    OfferImproves(n, m, n.peer[x]);
    hide Advances;
  }

  lemma StillFromPeer(n: Network, m: Network, v: Vector, t: End, x: End)
    requires Grounded(n) && Heard(n, m, v, t) && Offered(n, v, t) && Advances(n, m)
    requires m.IsEnd(x) && !m.Designated(x)
    ensures FromPeer(m, x)
  {
    KnownBefore(n, m, v, t, x);
    assert !n.Designated(x) ==> FromPeer(n, x);
    hide Grounded, Heard, Advances, FromPeer;
    if x == t && m.PortOf(x).desig == v {
      PeerOfNew(n, m, v, x);
    } else {
      PeerOfOld(n, m, x);
    }
  }

  // ---------- Endless runs ----------

  /**
   * Deliveries without end, from a grounded network: delivery `k` was sent at time `sent(k)`, before or
   * when it arrives, by a port that was designated then.  Messages may overtake each other, be lost
   * or arrive more than once.
   */
  ghost predicate IsEndless(run: nat -> Network, ds: nat -> Delivery, sent: nat -> nat) {
    && Grounded(run(0))
    && forall k: nat ::
         sent(k) <= k && Sends(run(sent(k)), ds(k)) && Linked(run(k), ds(k)) && run(k + 1) == Deliver(run(k), ds(k))
  }

  /** Of a linked port that stays designated, something that it sends later arrives. */
  ghost predicate Fair(run: nat -> Network, ds: nat -> Delivery, sent: nat -> nat) {
    forall i: nat, e: End :: e in run(i).peer ==>
      exists k: nat :: i <= k && ((ds(k).from == e && i <= sent(k)) || !(run(k).IsEnd(e) && run(k).Designated(e)))
  }

  lemma StepOf(run: nat -> Network, ds: nat -> Delivery, sent: nat -> nat, k: nat)
    requires IsEndless(run, ds, sent)
    ensures sent(k) <= k && Sends(run(sent(k)), ds(k)) && Linked(run(k), ds(k)) && run(k + 1) == Deliver(run(k), ds(k))
  {
  }

  lemma HeardAgain(run: nat -> Network, ds: nat -> Delivery, sent: nat -> nat, i: nat, e: End) returns (k: nat)
    requires Fair(run, ds, sent) && e in run(i).peer
    ensures i <= k && ((ds(k).from == e && i <= sent(k)) || !(run(k).IsEnd(e) && run(k).Designated(e)))
  {
    k :| i <= k && ((ds(k).from == e && i <= sent(k)) || !(run(k).IsEnd(e) && run(k).Designated(e)));
  }

  lemma GroundedAtFirst(run: nat -> Network, ds: nat -> Delivery, sent: nat -> nat)
    requires IsEndless(run, ds, sent)
    ensures Grounded(run(0))
  {
  }

  lemma AdvancesSelf(n: Network)
    ensures Advances(n, n)
  {
    forall i: nat | i < |n.bridges|
      ensures Improves(n.bridges[i], n.bridges[i])
    {
      SameVectorsImprove(n.bridges[i], n.bridges[i], 0, Vector(0, 0, 0, 0));
    }
  }

  lemma ImprovesFurther(b: Bridge, c: Bridge, d: Bridge)
    requires Improves(b, c) && Improves(c, d)
    ensures Improves(b, d)
  {
  }

  lemma AdvancesFurther(n: Network, m: Network, w: Network)
    requires Advances(n, m) && Advances(m, w)
    ensures Advances(n, w)
  {
    hide Improves;
    forall i: nat | i < |n.bridges|
      ensures Improves(n.bridges[i], w.bridges[i])
    {
      ImprovesFurther(n.bridges[i], m.bridges[i], w.bridges[i]);
    }
  }

  /** What was sent some time ago may arrive now. */
  lemma SentArrives(n: Network, m: Network, d: Delivery)
    requires Advances(n, m) && Sends(n, d) && Linked(m, d)
    ensures Arrives(m, d)
  {
    OfferImproves(n, m, d.from);
  }

  lemma {:induction false} AlwaysSince(run: nat -> Network, ds: nat -> Delivery, sent: nat -> nat, i: nat, k: nat)
    requires IsEndless(run, ds, sent) && i <= k
    ensures Grounded(run(k)) && Advances(run(i), run(k))
    decreases k
  {
    hide IsEndless, Grounded, Advances, Sends, Linked, Arrives, Deliver;
    if k > 0 {
      var j := k - 1;
      StepOf(run, ds, sent, j);
      AlwaysSince(run, ds, sent, sent(j), j);
      SentArrives(run(sent(j)), run(j), ds(j));
      DeliveryAdvances(run(j), ds(j));
      if i < k {
        AlwaysSince(run, ds, sent, i, j);
        AdvancesFurther(run(i), run(j), run(k));
      } else {
        AdvancesSelf(run(k));
      }
    } else {
      GroundedAtFirst(run, ds, sent);
      AdvancesSelf(run(0));
    }
  }

  lemma AlwaysGrounded(run: nat -> Network, ds: nat -> Delivery, sent: nat -> nat, k: nat)
    requires IsEndless(run, ds, sent)
    ensures Grounded(run(k)) && Linked(run(k), ds(k)) && Arrives(run(k), ds(k))
  {
    hide IsEndless, Grounded, Advances, Sends, Linked, Arrives, Deliver;
    StepOf(run, ds, sent, k);
    AlwaysSince(run, ds, sent, sent(k), k);
    SentArrives(run(sent(k)), run(k), ds(k));
  }

  lemma AlwaysAdvances(run: nat -> Network, ds: nat -> Delivery, sent: nat -> nat, k: nat)
    requires IsEndless(run, ds, sent)
    ensures Advances(run(k), run(k + 1))
  {
    hide IsEndless, Grounded, Advances;
    AlwaysSince(run, ds, sent, k, k + 1);
  }

  /** The same bridge with the same ports. */
  ghost predicate SameFrame(b: Bridge, c: Bridge) {
    && c.id == b.id && |c.ports| == |b.ports|
    && forall k: nat :: k < |b.ports| ==>
         c.ports[k].portId == b.ports[k].portId && c.ports[k].Enabled() == b.ports[k].Enabled()
  }

  lemma {:induction false} SameShape(run: nat -> Network, ds: nat -> Delivery, sent: nat -> nat, n: nat, k: nat)
    requires IsEndless(run, ds, sent) && n <= k
    ensures run(k).peer == run(n).peer && |run(k).bridges| == |run(n).bridges|
    ensures forall i: nat :: i < |run(n).bridges| ==> SameFrame(run(n).bridges[i], run(k).bridges[i])
    decreases k - n
  {
    hide IsEndless;
    if n < k {
      SameShape(run, ds, sent, n, k - 1);
      AlwaysAdvances(run, ds, sent, k - 1);
      forall i: nat | i < |run(n).bridges|
        ensures SameFrame(run(n).bridges[i], run(k).bridges[i])
      {
        assert SameFrame(run(n).bridges[i], run(k - 1).bridges[i]);
        assert Improves(run(k - 1).bridges[i], run(k).bridges[i]);
      }
    }
  }

  /** What port `j` of bridge `i` knows. */
  ghost function Knows(n: Network, i: nat, j: nat): Vector {
    if i < |n.bridges| && j < |n.bridges[i].ports| then n.bridges[i].ports[j].desig else Vector(0, 0, 0, 0)
  }

  /** Where bridge `i` thinks the root is. */
  ghost function Believes(n: Network, i: nat): Vector {
    if i < |n.bridges| then Vector(n.bridges[i].root, n.bridges[i].rootCost, 0, 0) else Vector(0, 0, 0, 0)
  }

  ghost predicate PortRests(run: nat -> Network, i: nat, j: nat, n: nat) {
    forall k: nat :: n <= k ==> Knows(run(k), i, j) == Knows(run(n), i, j)
  }

  ghost predicate BridgeRests(run: nat -> Network, i: nat, n: nat) {
    forall k: nat :: n <= k ==> Believes(run(k), i) == Believes(run(n), i)
  }

  lemma PortComesToRest(run: nat -> Network, ds: nat -> Delivery, sent: nat -> nat, i: nat, j: nat, from: nat) returns (n: nat)
    requires IsEndless(run, ds, sent)
    ensures from <= n && PortRests(run, i, j, n)
  {
    hide IsEndless, Knows, Advances, Le;
    var f := (k: nat) => Knows(run(k), i, j);
    forall k: nat
      ensures Le(f(k + 1), f(k))
    {
      AlwaysAdvances(run, ds, sent, k);
      KnowsMore(run(k), run(k + 1), i, j);
    }
    n := ComesToRest(f, from);
    forall k: nat | n <= k
      ensures Knows(run(k), i, j) == Knows(run(n), i, j)
    {
      assert f(k) == f(n);
    }
  }

  lemma KnowsMore(n: Network, m: Network, i: nat, j: nat)
    requires Advances(n, m)
    ensures Le(Knows(m, i, j), Knows(n, i, j)) && Le(Believes(m, i), Believes(n, i))
  {
    if i < |n.bridges| {
      assert Improves(n.bridges[i], m.bridges[i]);
    }
  }

  lemma BridgeComesToRest(run: nat -> Network, ds: nat -> Delivery, sent: nat -> nat, i: nat, from: nat) returns (n: nat)
    requires IsEndless(run, ds, sent)
    ensures from <= n && BridgeRests(run, i, n)
  {
    hide IsEndless, Believes, Advances, Le;
    var f := (k: nat) => Believes(run(k), i);
    forall k: nat
      ensures Le(f(k + 1), f(k))
    {
      AlwaysAdvances(run, ds, sent, k);
      KnowsMore(run(k), run(k + 1), i, 0);
    }
    n := ComesToRest(f, from);
    forall k: nat | n <= k
      ensures Believes(run(k), i) == Believes(run(n), i)
    {
      assert f(k) == f(n);
    }
  }

  /** Ports below `j` of bridge `i` are at rest from some time on. */
  lemma {:induction false} PortsComeToRest(run: nat -> Network, ds: nat -> Delivery, sent: nat -> nat, i: nat, j: nat) returns (n: nat)
    requires IsEndless(run, ds, sent)
    ensures forall p: nat :: p < j ==> PortRests(run, i, p, n)
    decreases j
  {
    hide IsEndless, PortRests, BridgeRests;
    if j == 0 {
      n := 0;
    } else {
      var a := PortsComeToRest(run, ds, sent, i, j - 1);
      n := PortComesToRest(run, ds, sent, i, j - 1, a);
      forall p: nat | p < j
        ensures PortRests(run, i, p, n)
      {
        if p < j - 1 {
          RestsOn(run, i, p, a, n);
        }
      }
    }
  }

  lemma RestsOn(run: nat -> Network, i: nat, j: nat, a: nat, n: nat)
    requires a <= n
    ensures PortRests(run, i, j, a) ==> PortRests(run, i, j, n)
    ensures BridgeRests(run, i, a) ==> BridgeRests(run, i, n)
  {
  }

  /** Bridge `i` and all its ports know what they will ever know. */
  ghost predicate AllRests(run: nat -> Network, i: nat, n: nat)
  {
    BridgeRests(run, i, n) && forall p: nat :: PortRests(run, i, p, n)
  }

  lemma OneComesToRest(run: nat -> Network, ds: nat -> Delivery, sent: nat -> nat, i: nat) returns (n: nat)
    requires IsEndless(run, ds, sent) && i < |run(0).bridges|
    ensures AllRests(run, i, n)
  {
    hide IsEndless, BridgeRests;
    var j := |run(0).bridges[i].ports|;
    var a := PortsComeToRest(run, ds, sent, i, j);
    n := BridgeComesToRest(run, ds, sent, i, a);
    forall p: nat
      ensures PortRests(run, i, p, n)
    {
      if p < j {
        RestsOn(run, i, p, a, n);
      } else {
        forall k: nat
          ensures Knows(run(k), i, p) == Vector(0, 0, 0, 0)
        {
          SameShape(run, ds, sent, 0, k);
          assert SameFrame(run(0).bridges[i], run(k).bridges[i]);
        }
      }
    }
  }

  /** From some time on the first `i` bridges learn nothing more. */
  lemma {:induction false} FirstComeToRest(run: nat -> Network, ds: nat -> Delivery, sent: nat -> nat, i: nat) returns (n: nat)
    requires IsEndless(run, ds, sent) && i <= |run(0).bridges|
    ensures forall b: nat :: b < i ==> AllRests(run, b, n)
    decreases i
  {
    hide IsEndless, AllRests;
    if i == 0 {
      n := 0;
    } else {
      var a := FirstComeToRest(run, ds, sent, i - 1);
      var c := OneComesToRest(run, ds, sent, i - 1);
      n := if a < c then c else a;
      forall b: nat | b < i
        ensures AllRests(run, b, n)
      {
        AllRestsOn(run, b, if b < i - 1 then a else c, n);
      }
    }
  }

  lemma AllRestsOn(run: nat -> Network, i: nat, a: nat, n: nat)
    requires a <= n && AllRests(run, i, a)
    ensures AllRests(run, i, n)
  {
    forall p: nat
      ensures PortRests(run, i, p, n)
    {
      RestsOn(run, i, p, a, n);
    }
    RestsOn(run, i, 0, a, n);
  }

  // ---------- Nothing more to learn ----------

  /** The same knowledge on the same ports. */
  ghost predicate Alike(b: Bridge, c: Bridge) {
    && SameFrame(b, c) && c.root == b.root && c.rootCost == b.rootCost
    && forall k: nat :: k < |b.ports| ==> c.ports[k].desig == b.ports[k].desig
  }

  lemma AlikeLater(run: nat -> Network, ds: nat -> Delivery, sent: nat -> nat, n: nat, k: nat, i: nat)
    requires IsEndless(run, ds, sent) && n <= k && i < |run(n).bridges| && AllRests(run, i, n)
    ensures i < |run(k).bridges| && Alike(run(n).bridges[i], run(k).bridges[i])
  {
    hide IsEndless;
    SameShape(run, ds, sent, n, k);
    var b, c := run(n).bridges[i], run(k).bridges[i];
    assert SameFrame(b, c);
    assert Believes(run(k), i) == Believes(run(n), i);
    forall p: nat | p < |b.ports|
      ensures c.ports[p].desig == b.ports[p].desig
    {
      assert PortRests(run, i, p, n);
      assert Knows(run(k), i, p) == Knows(run(n), i, p);
    }
  }

  /** A message that left everything as it was brought nothing better. */
  lemma NoNews(b: Bridge, p: nat, c: ConfigMsg)
    requires b.RootPortInRange() && Roles(b) && b.On(p) && !ClaimsThisPort(b, p, c.v) && c.age < c.maxAge
    requires Alike(b, ReceivedConfig(b, p, c))
    ensures SupersedesPortInfo(b, p, c.v) ==> c.v == b.ports[p].desig
  {
    if SupersedesPortInfo(b, p, c.v) && c.v != b.ports[p].desig {
      var r := RecordInfo(b, p, c);
      UpdateReached(b, p, c);
      assert SameInfo(ConfigurationUpdate(r).ports[p], ReceivedConfig(b, p, c).ports[p]);
      BetterNewsMoves(b, r, p, c.v, Start(c.age));
    }
  }

  lemma NoNewsUnmoved(b: Bridge, p: nat, v: Vector)
    requires b.RootPortInRange() && Roles(b) && b.On(p)
    requires SupersedesPortInfo(b, p, v) ==> v == b.ports[p].desig
    ensures Unmoved(b, p, v)
  {
    if v == b.ports[p].desig {
      RefreshMovesNothing(b, p);
    } else {
      forall c: ConfigMsg | c.v == v && c.age < c.maxAge
        ensures SameVectors(b, ReceivedConfig(b, p, c))
      {
        TransmitKeepsRoles(b, p);
      }
    }
  }

  /** From `n` on no bridge learns anything. */
  ghost predicate Rests(run: nat -> Network, n: nat) {
    forall i: nat :: i < |run(n).bridges| ==> AllRests(run, i, n)
  }

  /** If a delivery leaves its receiver as it was, it brought nothing better. */
  lemma DeliveryWithoutNews(n: Network, d: Delivery)
    requires Grounded(n) && Arrives(n, d) && d.c.v == n.Offer(d.from)
    requires Alike(n.At(n.peer[d.from]), Deliver(n, d).bridges[n.peer[d.from].node])
    ensures NoUse(n, d.from)
  {
    var t := n.peer[d.from];
    HeardFromPeer(n, d);
    assert Roles(n.At(t));
    hide Grounded, Roles;
    NoNews(n.At(t), t.port, d.c);
  }

  /** What `e` offers its peer knows already or has no use for. */
  ghost predicate NoUse(n: Network, e: End)
    requires e in n.peer && n.IsEnd(e) && n.IsEnd(n.peer[e])
  {
    var t := n.peer[e];
    SupersedesPortInfo(n.At(t), t.port, n.Offer(e)) ==> n.Offer(e) == n.PortOf(t).desig
  }

  lemma AlikeEnds(n: Network, m: Network, e: End)
    requires n.IsEnd(e) && e.node < |m.bridges| && Alike(n.bridges[e.node], m.bridges[e.node])
    ensures m.IsEnd(e) && m.Offer(e) == n.Offer(e) && m.Designated(e) == n.Designated(e)
    ensures m.PortOf(e).desig == n.PortOf(e).desig && m.At(e).id == n.At(e).id
  {
  }

  /** A delivery in `m` that changed nothing, seen from a network `n` of the same knowledge. */
  lemma NoUseEarlier(n: Network, m: Network, d: Delivery, e: End)
    requires e in n.peer && n.IsEnd(e) && n.IsEnd(n.peer[e]) && n.Designated(e) && m.peer == n.peer
    requires Grounded(m) && Arrives(m, d) && ((d.from == e && d.c.v == n.Offer(e)) || !(m.IsEnd(e) && m.Designated(e)))
    requires e.node < |m.bridges| && Alike(n.bridges[e.node], m.bridges[e.node])
    requires var t := n.peer[e].node;
             t < |m.bridges| && Alike(n.bridges[t], m.bridges[t]) && Alike(n.bridges[t], Deliver(m, d).bridges[t])
    ensures NoUse(n, e)
  {
    var t := n.peer[e];
    AlikeEnds(n, m, e);
    AlikeEnds(n, m, t);
    AlikeAlong(n.bridges[t.node], m.bridges[t.node], Deliver(m, d).bridges[t.node]);
    hide Alike, Grounded;
    DeliveryWithoutNews(m, d);
  }

  lemma BothRest(run: nat -> Network, n: nat, i: nat, j: nat)
    requires Rests(run, n) && i < |run(n).bridges| && j < |run(n).bridges|
    ensures AllRests(run, i, n) && AllRests(run, j, n)
  {
  }

  /** Once nothing is learned any more, what a designated port offers is of no use. */
  lemma OfferIsNoNews(run: nat -> Network, ds: nat -> Delivery, sent: nat -> nat, n: nat, e: End)
    requires IsEndless(run, ds, sent) && Fair(run, ds, sent) && Rests(run, n)
    requires e in run(n).peer && run(n).IsEnd(e) && run(n).IsEnd(run(n).peer[e]) && run(n).Designated(e)
    ensures NoUse(run(n), e)
  {
    hide IsEndless, Fair, Rests, Grounded, Deliver, AllRests, Alike, NoUse, SameFrame, Arrives, Linked;
    var k := HeardAgain(run, ds, sent, n, e);
    var t := run(n).peer[e];
    BothRest(run, n, e.node, t.node);
    AlikeLater(run, ds, sent, n, k, e.node);
    AlikeLater(run, ds, sent, n, k, t.node);
    AlikeLater(run, ds, sent, n, k + 1, t.node);
    SameShape(run, ds, sent, n, k);
    AlwaysGrounded(run, ds, sent, k);
    StepOf(run, ds, sent, k);
    if n <= sent(k) && ds(k).from == e {
      AlikeLater(run, ds, sent, n, sent(k), e.node);
      AlikeEnds(run(n), run(sent(k)), e);
    }
    NoUseEarlier(run(n), run(k), ds(k), e);
  }

  lemma AlikeAlong(b: Bridge, c: Bridge, d: Bridge)
    requires Alike(b, c) && Alike(b, d)
    ensures Alike(c, d)
  {
  }

  predicate Lt(v: Vector, w: Vector) {
    Le(v, w) && v != w
  }

  /** The peer of a port that is not designated offers something better than the port. */
  lemma BeatenEnd(n: Network, e: End)
    requires Grounded(n) && n.IsEnd(e) && !n.Designated(e)
    ensures FromPeer(n, e) && Lt(n.Offer(n.peer[e]), n.Offer(e))
  {
    assert FromPeer(n, e);
    assert Roles(n.At(e)) && n.At(e).On(e.port);
    assert BeatsOwn(n.At(e), e.port);
  }

  /** Of two peers at least one is designated. */
  lemma SomeEndDesignated(n: Network, e: End)
    requires Grounded(n) && n.IsEnd(e) && !n.Designated(e)
    ensures FromPeer(n, e) && n.Designated(n.peer[e]) && n.peer[e] in n.peer && n.peer[n.peer[e]] == e
  {
    BeatenEnd(n, e);
    var f := n.peer[e];
    assert n.peer[f] == e;
    assert !n.Designated(f) ==> Lt(n.Offer(e), n.Offer(f)) by {
      if !n.Designated(f) {
        BeatenEnd(n, f);
      }
    }
  }

  lemma RestingEnd(run: nat -> Network, ds: nat -> Delivery, sent: nat -> nat, n: nat, e: End)
    requires IsEndless(run, ds, sent) && Fair(run, ds, sent) && Rests(run, n) && Grounded(run(n))
    requires run(n).IsEnd(e) && !run(n).Designated(e)
    ensures var w := run(n); e in w.peer && w.IsEnd(w.peer[e]) && w.PortOf(e).desig == w.Offer(w.peer[e])
  {
    hide IsEndless, Fair, Rests, Grounded;
    var w := run(n);
    SomeEndDesignated(w, e);
    OfferIsNoNews(run, ds, sent, n, w.peer[e]);
  }

  lemma RestingOffer(run: nat -> Network, ds: nat -> Delivery, sent: nat -> nat, n: nat, e: End)
    requires IsEndless(run, ds, sent) && Fair(run, ds, sent) && Rests(run, n) && Grounded(run(n))
    requires e in run(n).peer && run(n).IsEnd(e) && run(n).IsEnd(run(n).peer[e]) && run(n).Designated(e)
    ensures var w := run(n); w.At(w.peer[e]).RootPortInRange() && Unmoved(w.At(w.peer[e]), w.peer[e].port, w.Offer(e))
  {
    hide IsEndless, Fair, Rests, Roles, WellWired, DistinctBridgeIds, AllFromPeers, Unmoved;
    var w := run(n);
    OfferIsNoNews(run, ds, sent, n, e);
    NoNewsUnmoved(w.At(w.peer[e]), w.peer[e].port, w.Offer(e));
  }

  /** Once nothing is learned any more the network is at rest. */
  lemma RestIsAtRest(run: nat -> Network, ds: nat -> Delivery, sent: nat -> nat, n: nat)
    requires IsEndless(run, ds, sent) && Fair(run, ds, sent) && Rests(run, n)
    ensures AtRest(run(n))
  {
    var w := run(n);
    hide IsEndless, Fair, Rests, Roles, Unmoved, DistinctBridgeIds, WellWired, AllFromPeers;
    AlwaysGrounded(run, ds, sent, n);
    forall e: End | w.IsEnd(e) && !w.Designated(e)
      ensures e in w.peer && w.IsEnd(w.peer[e]) && w.PortOf(e).desig == w.Offer(w.peer[e])
    {
      RestingEnd(run, ds, sent, n, e);
    }
    forall e: End | e in w.peer && w.IsEnd(e) && w.IsEnd(w.peer[e]) && w.Designated(e)
      ensures Unmoved(w.At(w.peer[e]), w.peer[e].port, w.Offer(e))
    {
      RestingOffer(run, ds, sent, n, e);
    }
  }

  /**
   Convergence.  However late and in whatever order the messages of designated ports arrive,
   as long as of each linked port that stays designated something sent later arrives,
   the network is at rest from some time on.
   */
  lemma Converges(run: nat -> Network, ds: nat -> Delivery, sent: nat -> nat) returns (n: nat)
    requires IsEndless(run, ds, sent) && Fair(run, ds, sent)
    ensures forall k: nat :: n <= k ==> AtRest(run(k))
  {
    hide IsEndless, Fair, AllRests;
    n := FirstComeToRest(run, ds, sent, |run(0).bridges|);
    forall k: nat | n <= k
      ensures AtRest(run(k))
    {
      SameShape(run, ds, sent, 0, k);
      forall i: nat | i < |run(k).bridges|
        ensures AllRests(run, i, k)
      {
        AllRestsOn(run, i, n, k);
      }
      RestIsAtRest(run, ds, sent, k);
    }
  }

  lemma {:induction false} SameWalks(n: Network, m: Network, i: nat, es: seq<End>, j: nat)
    requires m.peer == n.peer && Walk(n, i, es, j)
    ensures Walk(m, i, es, j)
    decreases es
  {
    if es != [] {
      SameWalks(n, m, n.peer[es[0]].node, es[1..], j);
    }
  }

  /** In a connected network the bridges come to agree on the tree of least costs, and stay with it. */
  lemma ConvergesToTree(run: nat -> Network, ds: nat -> Delivery, sent: nat -> nat) returns (n: nat)
    requires IsEndless(run, ds, sent) && Fair(run, ds, sent) && Connected(run(0)) && |run(0).bridges| > 0
    ensures forall k: nat :: n <= k ==> IsTree(run(k))
  {
    hide IsEndless, Fair, AtRest, Connected, IsTree;
    n := Converges(run, ds, sent);
    forall k: nat | n <= k
      ensures IsTree(run(k))
    {
      SameShape(run, ds, sent, 0, k);
      SameConnections(run(0), run(k));
      TreeAtRest(run(k));
    }
  }

  lemma SameConnections(n: Network, m: Network)
    requires m.peer == n.peer && |m.bridges| == |n.bridges| && Connected(n)
    ensures Connected(m)
  {
    hide Walk;
    forall i: nat, j: nat | i < |m.bridges| && j < |m.bridges|
      ensures Reaches(m, i, j)
    {
      assert Reaches(n, i, j);
      var es :| Walk(n, i, es, j);
      SameWalks(n, m, i, es, j);
    }
  }

  lemma TreeAtRest(n: Network)
    requires AtRest(n) && Connected(n) && |n.bridges| > 0
    ensures IsTree(n)
  {
    var m := SpanningTree(n);
    hide CheapestToRoot, Quiescent;
    assert RootedAt(n, m);
  }

  ghost predicate RootedAt(n: Network, m: nat)
    requires WellWired(n) && m < |n.bridges|
  {
    forall i: nat :: i < |n.bridges| ==> CheapestToRoot(n, i, m)
  }

  /** Some bridge is the root that all others reach at least cost, and unblocked links hold no cycle. */
  ghost predicate IsTree(n: Network) {
    && WellWired(n) && (exists m: nat :: m < |n.bridges| && RootedAt(n, m))
    && forall es :: ClosedWalk(n, es) ==> exists k: nat :: k < |es| && TurnsBack(n, es, k)
  }

  // ---------- Where it starts ----------

  /** A bridge that has heard nothing: all its enabled ports are designated. */
  ghost predicate Untold(b: Bridge) {
    b.RootPortInRange() && Roles(b) && forall p: nat :: b.On(p) ==> b.Designated(p)
  }

  ghost function EnableAll(b: Bridge, ps: seq<nat>): (r: Bridge)
    requires b.RootPortInRange() && forall i: nat :: i < |ps| ==> ps[i] < |b.ports|
    ensures r.RootPortInRange() && |r.ports| == |b.ports|
  {
    if ps == [] then b else PortEnable(EnableAll(b, ps[..|ps| - 1]), ps[|ps| - 1])
  }

  /** A new bridge knows nothing, whichever ports are then enabled. */
  lemma {:induction false} NewIsUntold(id: nat, ps: seq<nat>)
    requires forall i: nat :: i < |ps| ==> ps[i] < MAX_PORTS
    ensures Initial(id).RootPortInRange() && |Initial(id).ports| == MAX_PORTS && Untold(EnableAll(Initial(id), ps))
  {
    InitialInv(id);
    InitialPorts(id);
    hide Initial;
    if ps == [] {
      InitialOff(id);
    } else {
      NewIsUntold(id, ps[..|ps| - 1]);
      EnablingTellsNothing(EnableAll(Initial(id), ps[..|ps| - 1]), ps[|ps| - 1]);
    }
  }

  lemma InitialOff(id: nat)
    ensures forall p: nat :: !Initial(id).On(p)
  {
    var b := Initial(id);
    assert forall p: nat :: p < |b.ports| ==> b.ports[p] == InitialPort(id, p);
  }

  lemma EnablingTellsNothing(b: Bridge, p: nat)
    requires Untold(b) && b.HasPort(p)
    ensures Untold(PortEnable(b, p))
  {
    EnableKeepsInv(b, p);
    if !b.On(p) {
      var c := b.SetPort(p, InitializePort(b, p, Blocking));
      StateSelectionSelects(c);
      var d := StateSelection(c);
      forall k: nat | d.On(k)
        ensures d.Designated(k)
      {
        assert d.ports[k] == SelectState(c, k);
        assert k != p ==> c.ports[k] == b.ports[k] && b.On(k);
      }
    }
  }

  /** A network of such bridges is grounded: this is where every run may start. */
  lemma UntoldIsGrounded(n: Network)
    requires WellWired(n) && DistinctBridgeIds(n) && forall i: nat :: i < |n.bridges| ==> Untold(n.bridges[i])
    ensures Grounded(n)
  {
    assert forall e: End :: n.IsEnd(e) ==> Untold(n.bridges[e.node]) && n.Designated(e);
  }

  // ---------- An endless run ----------

  ghost predicate TwoLinked(n: Network) {
    var x, y := End(0, 0), End(1, 0);
    && Grounded(n) && |n.bridges| == 2 && n.peer == map[x := y, y := x] && n.IsEnd(x) && n.IsEnd(y) && n.Designated(x)
  }

  /** Two new bridges that have not heard of each other, the first of which will be root. */
  ghost predicate Strangers(n: Network) {
    TwoLinked(n) && Untold(n.bridges[0]) && Untold(n.bridges[1]) && n.bridges[0].id < n.bridges[1].id
  }

  /** Two bridges, of which the second has heard the first. */
  ghost predicate Pair(n: Network) {
    var x, y := End(0, 0), End(1, 0);
    TwoLinked(n) && !n.Designated(y) && n.PortOf(y).desig == n.Offer(x)
  }

  ghost function Greeting(n: Network): Delivery
    requires TwoLinked(n)
  {
    Delivery(End(0, 0), ConfigMsg(n.Offer(End(0, 0)), 0, 1, 0, 0, false, false))
  }

  lemma GreetingArrives(n: Network)
    requires TwoLinked(n)
    ensures var d := Greeting(n); Sends(n, d) && Linked(n, d) && Arrives(n, d)
    ensures Roles(n.bridges[0]) && Roles(n.bridges[1]) && n.bridges[1].RootPortInRange()
  {
    hide Roles, DistinctBridgeIds, AllFromPeers, WellWired;
  }

  lemma GreetingRefreshes(n: Network)
    requires Pair(n)
    ensures Linked(n, Greeting(n)) && Pair(Deliver(n, Greeting(n)))
  {
    hide Roles, ReceivedConfig, Advances;
    var d, y := Greeting(n), End(1, 0);
    GreetingArrives(n);
    DeliveryAdvances(n, d);
    RefreshMovesNothing(n.At(y), 0);
    GreetingMovesNothing(n, Deliver(n, d), ReceivedConfig(n.At(y), 0, d.c));
  }

  lemma GreetingMovesNothing(n: Network, m: Network, c: Bridge)
    requires Pair(n) && Grounded(m) && SameVectors(n.bridges[1], c) && m == n.(bridges := n.bridges[1 := c])
    ensures Pair(m)
  {
    hide Grounded;
    assert SameInfo(n.PortOf(End(1, 0)), c.ports[0]);
  }

  /** A bridge that was told nothing is its own root. */
  lemma UntoldIsRoot(b: Bridge)
    requires Untold(b)
    ensures b.root == b.id && b.rootCost == 0 && b.rootPort.None?
  {
    RootPortUnlessRoot(b);
  }

  /** It believes the first bridge that it hears of a lower identifier. */
  lemma FirstNews(b: Bridge, p: nat, c: ConfigMsg)
    requires Untold(b) && b.On(p) && c.v.root == c.v.bridge < b.id && c.v.cost == 0 && c.age < c.maxAge
    ensures var u := ReceivedConfig(b, p, c); p < |u.ports| && u.ports[p].desig == c.v && u.id == b.id
  {
    UntoldIsRoot(b);
    var r := RecordInfo(b, p, c);
    assert b.ports[p].desig == b.Own(p);
    UpdateReached(b, p, c);
    NewsIsKept(b, r, p, c.v, Start(c.age));
    assert SameInfo(ConfigurationUpdate(r).ports[p], ReceivedConfig(b, p, c).ports[p]);
  }

  lemma NewsIsKept(b: Bridge, r: Bridge, p: nat, v: Vector, t: Timer)
    requires Untold(b) && b.On(p) && v.root == v.bridge < b.id && v.cost == 0 && b.root == b.id
    requires r == b.SetPort(p, b.ports[p].(desig := v, messageAge := t))
    ensures DistinctPortIds(r) && ConfigurationUpdate(r).ports[p].desig == v
  {
    var u := ConfigurationUpdate(r);
    assert forall k: nat :: k < |b.ports| ==> r.ports[k].portId == b.ports[k].portId;
    UpdateChoosesBest(r);
    UpdatedPort(r, p);
    if u.rootPort.Some? {
      var k := u.rootPort.value;
      assert k != p ==> r.ports[k] == b.ports[k] && b.On(k);
    }
  }

  lemma StrangersMeet(n: Network)
    requires Strangers(n)
    ensures Linked(n, Greeting(n)) && Pair(Deliver(n, Greeting(n)))
  {
    var d := Greeting(n);
    GreetingArrives(n);
    UntoldIsRoot(n.bridges[0]);
    FirstNews(n.bridges[1], 0, d.c);
    DeliveryAdvances(n, d);
    SameEnds(n, Deliver(n, d), End(1, 0));
    hide Grounded, Advances, Roles, ReceivedConfig;
  }

  ghost function Greeted(n: Network, k: nat): (m: Network)
    requires Strangers(n)
    ensures if k == 0 then m == n else Pair(m)
  {
    if k == 0 then n
    else
      var w := Greeted(n, k - 1);
      if k == 1 then
        StrangersMeet(w);
        Deliver(w, Greeting(w))
      else
        GreetingRefreshes(w);
        Deliver(w, Greeting(w))
  }

  lemma FirstPortOn(id: nat)
    ensures Initial(id).RootPortInRange() && |Initial(id).ports| == MAX_PORTS
    ensures var b := EnableAll(Initial(id), [0]); Untold(b) && b.id == id && b.On(0)
  {
    NewIsUntold(id, [0]);
    var b := Initial(id);
    InitialOff(id);
    assert [0][..0] == [];
    assert EnableAll(b, []) == b;
    assert EnableAll(b, [0]) == PortEnable(b, 0);
    var c := b.SetPort(0, InitializePort(b, 0, Blocking));
    StateSelectionSelects(c);
    hide Roles, Initial;
    assert StateSelection(c).ports[0] == SelectState(c, 0);
  }

  lemma StrangersExist() returns (n: Network)
    ensures Strangers(n) && Connected(n)
  {
    hide Roles, Untold, Initial, EnableAll, Connected;
    FirstPortOn(1);
    FirstPortOn(2);
    var a, b := EnableAll(Initial(1), [0]), EnableAll(Initial(2), [0]);
    n := Network([a, b], map[End(0, 0) := End(1, 0), End(1, 0) := End(0, 0)]);
    TwoConnected(n);
    UntoldDesignates(a, 0);
    UntoldIsGrounded(n);
  }

  lemma UntoldDesignates(b: Bridge, p: nat)
    requires Untold(b) && b.On(p)
    ensures b.Designated(p)
  {
  }

  lemma GreetedStep(n: Network, k: nat)
    requires Strangers(n)
    ensures TwoLinked(Greeted(n, k)) && TwoLinked(Greeted(n, k + 1))
    ensures var d := Greeting(Greeted(n, k));
            && Sends(Greeted(n, k), d) && Linked(Greeted(n, k), d) && Greeted(n, k + 1) == Deliver(Greeted(n, k), d)
  {
    hide Grounded, Untold, Deliver;
    GreetingArrives(Greeted(n, k));
  }

  lemma GreetedFairly(n: Network, k: nat, e: End)
    requires Strangers(n) && TwoLinked(Greeted(n, k)) && e in Greeted(n, k).peer && k > 0
    ensures Greeting(Greeted(n, k)).from == e || !(Greeted(n, k).IsEnd(e) && Greeted(n, k).Designated(e))
  {
    hide Grounded;
  }

  lemma SamePeers(n: Network, k: nat)
    requires Strangers(n)
    ensures Greeted(n, k).peer == n.peer && Grounded(n) && Greeted(n, 0) == n
  {
    hide Grounded, Untold;
  }

  /** There are endless fair runs, from new bridges that have not heard of each other. */
  lemma EndlessRunExists() returns (run: nat -> Network, ds: nat -> Delivery, sent: nat -> nat)
    ensures IsEndless(run, ds, sent) && Fair(run, ds, sent) && Connected(run(0)) && Strangers(run(0))
  {
    hide Strangers, TwoLinked, Grounded, Sends, Linked, Deliver, Greeted, Greeting, Connected;
    var n := StrangersExist();
    forall k: nat
      ensures TwoLinked(Greeted(n, k))
    {
      GreetedStep(n, k);
    }
    run := (k: nat) => Greeted(n, k);
    ds := (k: nat) => Greeting(Greeted(n, k));
    sent := (k: nat) => k;
    SamePeers(n, 0);
    forall k: nat
      ensures Sends(run(k), ds(k)) && Linked(run(k), ds(k)) && run(k + 1) == Deliver(run(k), ds(k))
    {
      GreetedStep(n, k);
    }
    GreetedForever(n, run, ds, sent);
  }

  lemma GreetedForever(n: Network, run: nat -> Network, ds: nat -> Delivery, sent: nat -> nat)
    requires Strangers(n) && Grounded(run(0))
    requires forall k: nat :: TwoLinked(Greeted(n, k)) && run(k) == Greeted(n, k) && ds(k) == Greeting(run(k)) && sent(k) == k
    requires forall k: nat :: Sends(run(k), ds(k)) && Linked(run(k), ds(k)) && run(k + 1) == Deliver(run(k), ds(k))
    ensures IsEndless(run, ds, sent) && Fair(run, ds, sent)
  {
    hide Strangers, TwoLinked, Grounded, Sends, Linked, Deliver, Greeted, Greeting;
    forall i: nat, e: End | e in run(i).peer
      ensures exists k: nat :: i <= k && ((ds(k).from == e && i <= sent(k)) || !(run(k).IsEnd(e) && run(k).Designated(e)))
    {
      var k := i + 1;
      SamePeers(n, i);
      SamePeers(n, k);
      GreetedFairly(n, k, e);
      assert (ds(k).from == e && i <= sent(k)) || !(run(k).IsEnd(e) && run(k).Designated(e));
    }
  }
}
