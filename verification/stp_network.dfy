/**
 A whole network of bridges at rest: the root, the costs, and the tree.
 */
module StpNetwork {
  import opened Options
  import opened StpModel
  import opened StpSelection
  import opened StpInvariants
  import opened StpSafety

  /** One end of a link: a port of a bridge. */
  datatype End = End(node: nat, port: nat)

  /** Bridges and the point-to-point links between their ports. */
  datatype Network = Network(bridges: seq<Bridge>, peer: map<End, End>)
  {
    predicate IsEnd(e: End) {
      e.node < |bridges| && bridges[e.node].On(e.port)
    }

    function At(e: End): Bridge
      requires IsEnd(e)
    {
      bridges[e.node]
    }

    function PortOf(e: End): Port
      requires IsEnd(e)
    {
      bridges[e.node].ports[e.port]
    }

    predicate Designated(e: End)
      requires IsEnd(e)
    {
      At(e).Designated(e.port)
    }

    function Offer(e: End): Vector
      requires IsEnd(e)
    {
      At(e).Own(e.port)
    }

    predicate IsRootPort(e: End)
      requires IsEnd(e)
    {
      At(e).rootPort == Some(e.port)
    }
  }

  ghost predicate WellWired(n: Network) {
    forall e :: e in n.peer ==> n.IsEnd(e) && n.peer[e] in n.peer && n.peer[n.peer[e]] == e && n.peer[e] != e
  }

  ghost predicate DistinctBridgeIds(n: Network) {
    forall i: nat, j: nat :: i < j < |n.bridges| ==> n.bridges[i].id != n.bridges[j].id
  }

  /** Hearing `v` on port `p` changes neither the bridge's choice nor what any port knows. */
  ghost predicate Unmoved(b: Bridge, p: nat, v: Vector)
    requires b.On(p) && b.RootPortInRange()
  {
    forall c: ConfigMsg :: c.v == v && c.age < c.maxAge ==> SameVectors(b, ReceivedConfig(b, p, c))
  }

  /**
   Nothing is left to learn: a port that is not designated holds what its peer
   would send now, and what a designated port sends moves nobody.
   */
  ghost predicate Quiescent(n: Network) {
    && (forall i: nat :: i < |n.bridges| ==> n.bridges[i].RootPortInRange() && Roles(n.bridges[i]))
    && (forall e: End :: n.IsEnd(e) && !n.Designated(e) ==>
          e in n.peer && n.IsEnd(n.peer[e]) && n.PortOf(e).desig == n.Offer(n.peer[e]))
    && (forall e: End :: e in n.peer && n.IsEnd(e) && n.IsEnd(n.peer[e]) && n.Designated(e) ==>
          Unmoved(n.At(n.peer[e]), n.peer[e].port, n.Offer(e)))
  }

  ghost predicate AtRest(n: Network) {
    WellWired(n) && DistinctBridgeIds(n) && Quiescent(n)
  }

  // ---------- Walks ----------

  /** `es` lists the ends by which a walk from `i` to `j` leaves each bridge. */
  ghost predicate Walk(n: Network, i: nat, es: seq<End>, j: nat)
    decreases es
  {
    if es == [] then i == j
    else es[0] in n.peer && es[0].node == i && Walk(n, n.peer[es[0]].node, es[1..], j)
  }

  /** The path costs of the ports by which the walk leaves each bridge. */
  ghost function WalkCost(n: Network, es: seq<End>): nat
    requires forall e :: e in es ==> n.IsEnd(e)
  {
    if es == [] then 0 else n.PortOf(es[0]).pathCost + WalkCost(n, es[1..])
  }

  ghost predicate Connected(n: Network) {
    forall i: nat, j: nat :: i < |n.bridges| && j < |n.bridges| ==> Reaches(n, i, j)
  }

  ghost predicate Reaches(n: Network, i: nat, j: nat) {
    exists es :: Walk(n, i, es, j)
  }

  lemma {:induction false} WalkEnds(n: Network, i: nat, es: seq<End>, j: nat)
    requires WellWired(n) && Walk(n, i, es, j)
    ensures forall e :: e in es ==> e in n.peer && n.IsEnd(e)
    ensures i < |n.bridges| ==> j < |n.bridges|
    decreases es
  {
    if es != [] {
      WalkEnds(n, n.peer[es[0]].node, es[1..], j);
      assert forall e :: e in es ==> e == es[0] || e in es[1..];
    }
  }

  // ---------- One link ----------

  /** If hearing a message from elsewhere moves nothing, it is no better than what the port holds. */
  lemma UnmovedMeansNoBetter(b: Bridge, p: nat, v: Vector)
    requires b.RootPortInRange() && Roles(b) && b.On(p) && !ClaimsThisPort(b, p, v) && Unmoved(b, p, v)
    ensures SupersedesPortInfo(b, p, v) ==> v == b.ports[p].desig
  {
    if SupersedesPortInfo(b, p, v) && v != b.ports[p].desig {
      var c := ConfigMsg(v, 0, 1, 0, 0, false, false);
      var r, u := RecordInfo(b, p, c), ReceivedConfig(b, p, c);
      assert SameVectors(b, u) && SameInfo(b.ports[p], u.ports[p]);
      RecordKeepsSound(b, p, c);
      ReconfigureEstablishes(r);
      ReceiveReconfigures(b, p, c);
      RecordedUpdate(b, p, c);
      assert SameInfo(ConfigurationUpdate(r).ports[p], u.ports[p]) by {
        assert SameInfo(ConfigurationUpdate(r).ports[p], Reconfigure(r).ports[p]);
        assert SameInfo(Reconfigure(r).ports[p], u.ports[p]);
      }
      BetterNewsMoves(b, r, p, v, Start(0));
    }
  }

  lemma RefreshKeepsVectors(b: Bridge, p: nat, c: ConfigMsg)
    requires b.RootPortInRange() && Roles(b) && b.On(p) && Accepted(b, p, c) && c.v == b.ports[p].desig
    ensures SameVectors(b, ReceivedConfig(b, p, c))
  {
    var r := RecordInfo(b, p, c);
    assert SameVectors(b, r);
    RecordKeepsSound(b, p, c);
    ReceiveReconfigures(b, p, c);
    SameVectorsKeepSettled(b, r);
    hide RecordInfo, ReceivedConfig, Accepted;
    SettledIsFixed(r);
    ReconfigureEstablishes(r);
    hide Roles, Reconfigure;
  }

  /** Hearing again what a port already knows moves nothing. */
  lemma RefreshMovesNothing(b: Bridge, p: nat)
    requires b.RootPortInRange() && Roles(b) && b.On(p)
    ensures Unmoved(b, p, b.ports[p].desig)
  {
    forall c: ConfigMsg | c.v == b.ports[p].desig && c.age < c.maxAge
      ensures SameVectors(b, ReceivedConfig(b, p, c))
    {
      if Accepted(b, p, c) {
        RefreshKeepsVectors(b, p, c);
      } else {
        TransmitKeepsRoles(b, p);
      }
    }
  }

  /** Whatever better news a port records, the update that follows moves the bridge or the port. */
  lemma BetterNewsMoves(b: Bridge, r: Bridge, p: nat, v: Vector, t: Timer)
    requires Roles(b) && b.On(p) && !ClaimsThisPort(b, p, v)
    requires SupersedesPortInfo(b, p, v) && v != b.ports[p].desig
    requires r == b.SetPort(p, b.ports[p].(desig := v, messageAge := t))
    ensures var u := ConfigurationUpdate(r);
            u.ports[p].desig != b.ports[p].desig || u.root != b.root || u.rootCost != b.rootCost
  {
    var c := RootSelection(r);
    RootPortUnlessRoot(b);
    if v.root < b.root {
      assert Eligible(r, p);
      UpdateChoosesBest(r);
    } else if !TakesOver(c, p) {
      assert ConfigurationUpdate(r).ports[p].desig == v;
    } else if b.Designated(p) {
      assert b.ports[p].desig == b.Own(p);
    }
  }

  lemma NotBothDesignated(n: Network, e: End)
    requires AtRest(n) && e in n.peer
    ensures !(n.Designated(e) && n.Designated(n.peer[e]))
  {
    var f := n.peer[e];
    assert n.IsEnd(e) && n.IsEnd(f);
    hide Unmoved, StatesFollowRoles;
    if n.Designated(e) && n.Designated(f) {
      assert n.PortOf(e).desig == n.Offer(e) && n.PortOf(f).desig == n.Offer(f);
      if e.node == f.node {
        assert e.port != f.port;
      }
      assert !(n.At(e).id == n.At(f).id && n.PortOf(e).portId == n.PortOf(f).portId);
      UnmovedMeansNoBetter(n.At(f), f.port, n.Offer(e));
      assert n.peer[f] == e;
      UnmovedMeansNoBetter(n.At(e), e.port, n.Offer(f));
    }
  }

  /** Of the two ends of a link exactly one is designated; both agree on the root. */
  lemma LinkRoles(n: Network, e: End)
    requires AtRest(n) && e in n.peer
    ensures n.IsEnd(e) && n.IsEnd(n.peer[e])
    ensures n.Designated(e) <==> !n.Designated(n.peer[e])
    ensures n.At(e).root == n.At(n.peer[e]).root
    ensures n.Designated(e) ==> n.At(e).rootCost <= n.At(n.peer[e]).rootCost
    ensures !n.Designated(e) ==> n.PortOf(e).desig == n.Offer(n.peer[e])
  {
    var f := n.peer[e];
    NotBothDesignated(n, e);
    hide Unmoved, StatesFollowRoles;
    assert n.IsEnd(e) && n.IsEnd(f) && n.peer[f] == e;
    if !n.Designated(e) {
      assert BeatsOwn(n.At(e), e.port);
    }
    if !n.Designated(f) {
      assert BeatsOwn(n.At(f), f.port);
    }
  }

  /** Leaving through port `e` costs no less than what the bridge already pays. */
  lemma LinkCost(n: Network, e: End)
    requires AtRest(n) && e in n.peer
    ensures n.IsEnd(e) && n.IsEnd(n.peer[e])
    ensures n.At(e).rootCost <= n.At(n.peer[e]).rootCost + n.PortOf(e).pathCost
  {
    LinkRoles(n, e);
    if !n.Designated(e) {
      var b := n.At(e);
      assert Roles(b);
      RootPortUnlessRoot(b);
      if b.rootPort.Some? && !n.IsRootPort(e) {
        assert Eligible(b, e.port);
        assert SupersedesRoot(b.ports[e.port], b.ports[b.rootPort.value]);
      }
    }
  }

  /** The root port leads to a designated port, one step closer to the same root. */
  lemma RootPortStep(n: Network, e: End)
    requires AtRest(n) && n.IsEnd(e) && n.IsRootPort(e)
    ensures !n.Designated(e) && e in n.peer && n.IsEnd(n.peer[e]) && n.Designated(n.peer[e])
    ensures n.At(n.peer[e]).root == n.At(e).root
    ensures n.At(e).rootCost == n.At(n.peer[e]).rootCost + n.PortOf(e).pathCost
    ensures n.PortOf(e).pathCost >= 1
  {
    assert Roles(n.At(e));
    RootPortUnlessRoot(n.At(e));
    LinkRoles(n, e);
  }

  // ---------- The whole network ----------

  lemma {:induction false} WalkAgrees(n: Network, i: nat, es: seq<End>, j: nat)
    requires AtRest(n) && i < |n.bridges| && Walk(n, i, es, j)
    ensures j < |n.bridges| && forall e :: e in es ==> n.IsEnd(e)
    ensures n.bridges[i].root == n.bridges[j].root
    ensures n.bridges[i].rootCost <= n.bridges[j].rootCost + WalkCost(n, es)
    decreases es
  {
    hide Quiescent, Inv;
    WalkEnds(n, i, es, j);
    if es != [] {
      LinkRoles(n, es[0]);
      LinkCost(n, es[0]);
      WalkAgrees(n, n.peer[es[0]].node, es[1..], j);
    }
  }

  lemma RootsSettled(n: Network, i: nat)
    requires AtRest(n) && i < |n.bridges|
    ensures SettledRoot(n.bridges[i])
  {
    assert Roles(n.bridges[i]);
  }

  /** Following root ports from `i` ends at a bridge that is its own root, after exactly the root path cost. */
  lemma {:induction false} FollowRootPorts(n: Network, i: nat) returns (es: seq<End>, m: nat)
    requires AtRest(n) && i < |n.bridges|
    ensures Walk(n, i, es, m) && m < |n.bridges|
    ensures forall e :: e in es ==> n.IsEnd(e) && n.IsRootPort(e)
    ensures n.bridges[m].root == n.bridges[m].id == n.bridges[i].root
    ensures WalkCost(n, es) == n.bridges[i].rootCost
    decreases n.bridges[i].rootCost
  {
    hide Quiescent, SettledPorts, StatesFollowRoles, Sound;
    var b := n.bridges[i];
    RootsSettled(n, i);
    RootPortUnlessRoot(b);
    if b.rootPort.None? {
      es, m := [], i;
    } else {
      var e := End(i, b.rootPort.value);
      RootPortStep(n, e);
      var rest, k := FollowRootPorts(n, n.peer[e].node);
      es, m := [e] + rest, k;
      assert es[1..] == rest;
    }
  }

  /** Neither end of the link at `e` blocks. */
  ghost predicate Active(n: Network, e: End) {
    && e in n.peer && n.IsEnd(e) && n.IsEnd(n.peer[e])
    && n.PortOf(e).state != Blocking && n.PortOf(n.peer[e]).state != Blocking
  }

  /**
   A link is active exactly if one of its ends, and only one, is a root port; that end's bridge
   is farther from the root.
   */
  lemma ActiveLinks(n: Network, e: End)
    requires AtRest(n) && e in n.peer
    ensures n.IsEnd(e) && n.IsEnd(n.peer[e])
    ensures Active(n, e) <==> n.IsRootPort(e) || n.IsRootPort(n.peer[e])
    ensures n.IsRootPort(e) ==> !n.IsRootPort(n.peer[e]) && n.At(n.peer[e]).rootCost < n.At(e).rootCost
  {
    var f := n.peer[e];
    LinkRoles(n, e);
    assert n.peer[f] == e;
    assert Roles(n.At(e)) && Roles(n.At(f));
    if n.IsRootPort(e) { RootPortStep(n, e); }
    if n.IsRootPort(f) { RootPortStep(n, f); }
  }

  /** The step after step `k` of a closed walk of `l` steps. */
  function Next(k: nat, l: nat): nat {
    if k + 1 == l then 0 else k + 1
  }

  /** A closed walk over active links. */
  ghost predicate ClosedWalk(n: Network, es: seq<End>) {
    && |es| > 0
    && forall k: nat :: k < |es| ==> Active(n, es[k]) && n.peer[es[k]].node == es[Next(k, |es|)].node
  }

  /** After step `k` the walk goes back over the link it came by. */
  ghost predicate TurnsBack(n: Network, es: seq<End>, k: nat)
    requires k < |es| && es[k] in n.peer
  {
    es[Next(k, |es|)] == n.peer[es[k]]
  }

  /** The active links hold no cycle: every closed walk over them turns back, where it is farthest from the root. */
  lemma NoCycle(n: Network, es: seq<End>)
    requires AtRest(n) && WellWired(n) && ClosedWalk(n, es)
    ensures exists k: nat :: k < |es| && TurnsBack(n, es, k)
  {
    hide AtRest;
    var l := |es|;
    var k := Farthest(n, es);
    var j: nat := if k == 0 then l - 1 else k - 1;
    assert Next(j, l) == k;
    assert Active(n, es[j]) && Active(n, es[k]);
    FarSideIsRootPort(n, es[k]);
    FarSideIsRootPort(n, n.peer[es[j]]);
    assert TurnsBack(n, es, j);
  }

  /** On an active link, the end that is not nearer to the root is its bridge's root port. */
  lemma FarSideIsRootPort(n: Network, e: End)
    requires AtRest(n) && e in n.peer && n.peer[e] in n.peer && Active(n, e)
    requires n.At(n.peer[e]).rootCost <= n.At(e).rootCost
    ensures n.IsRootPort(e)
  {
    ActiveLinks(n, e);
    ActiveLinks(n, n.peer[e]);
  }

  lemma Farthest(n: Network, es: seq<End>) returns (k: nat)
    requires |es| > 0 && forall e :: e in es ==> n.IsEnd(e)
    ensures k < |es|
    ensures forall j: nat :: j < |es| ==> n.At(es[j]).rootCost <= n.At(es[k]).rootCost
  {
    k := 0;
    for i := 1 to |es|
      invariant k < |es|
      invariant forall j: nat :: j < i ==> n.At(es[j]).rootCost <= n.At(es[k]).rootCost
    {
      if n.At(es[i]).rootCost > n.At(es[k]).rootCost {
        k := i;
      }
    }
  }

  /** `m` is the bridge that the network must choose, and bridge `i` knows its least cost to it. */
  ghost predicate CheapestToRoot(n: Network, i: nat, m: nat)
    requires i < |n.bridges| && m < |n.bridges| && WellWired(n)
  {
    && n.bridges[m].id <= n.bridges[i].id
    && n.bridges[i].root == n.bridges[m].id
    && (forall es :: Walk(n, i, es, m) ==>
          (forall e :: e in es ==> n.IsEnd(e)) && n.bridges[i].rootCost <= WalkCost(n, es))
    && (exists es :: && Walk(n, i, es, m)
                     && (forall e :: e in es ==> n.IsEnd(e) && n.IsRootPort(e) && Active(n, e))
                     && n.bridges[i].rootCost == WalkCost(n, es))
  }

  lemma EachKnowsTheWay(n: Network, i: nat, m: nat)
    requires AtRest(n) && i < |n.bridges| && m < |n.bridges| && n.bridges[m].IsRoot() && Reaches(n, i, m)
    ensures CheapestToRoot(n, i, m)
  {
    hide Roles, Active, Walk, WalkCost;
    var across :| Walk(n, i, across, m);
    assert n.bridges[i].root == n.bridges[m].root by { WalkAgrees(n, i, across, m); }
    RootsAreLeast(n, i);
    forall es | Walk(n, i, es, m)
      ensures (forall e :: e in es ==> n.IsEnd(e)) && n.bridges[i].rootCost <= WalkCost(n, es)
    {
      WalkAgrees(n, i, es, m);
      RootsAreLeast(n, m);
    }
    var es, j := FollowRootPorts(n, i);
    assert j == m;
    WalkEnds(n, i, es, j);
    forall e | e in es
      ensures Active(n, e)
    {
      ActiveLinks(n, e);
    }
  }

  lemma RootsAreLeast(n: Network, i: nat)
    requires AtRest(n) && i < |n.bridges|
    ensures n.bridges[i].root <= n.bridges[i].id
    ensures n.bridges[i].IsRoot() ==> n.bridges[i].rootCost == 0
  {
    RootsSettled(n, i);
    RootPortUnlessRoot(n.bridges[i]);
  }

  /**
   The spanning tree theorem.  In every connected network at rest all bridges
   agree on the bridge with the least identifier as root, each knows the least
   path cost to it, following root ports over unblocked links reaches it at
   that cost, and the links unblocked at both ends contain no cycle.
   */
  lemma SpanningTree(n: Network) returns (m: nat)
    requires AtRest(n) && Connected(n) && |n.bridges| > 0
    ensures m < |n.bridges|
    ensures forall i: nat :: i < |n.bridges| ==> CheapestToRoot(n, i, m)
    ensures forall es :: ClosedWalk(n, es) ==> exists k: nat :: k < |es| && TurnsBack(n, es, k)
  {
    hide Roles, Quiescent, CheapestToRoot;
    var _, k := FollowRootPorts(n, 0);
    m := k;
    forall i: nat | i < |n.bridges|
      ensures CheapestToRoot(n, i, m)
    {
      assert Reaches(n, i, m);
      EachKnowsTheWay(n, i, m);
    }
    forall es | ClosedWalk(n, es)
      ensures exists k: nat :: k < |es| && TurnsBack(n, es, k)
    {
      NoCycle(n, es);
    }
  }

  /** A root bridge with one port, and a bridge that hears it on its one port. */
  lemma RootAndLeaf() returns (a: Bridge, b: Bridge)
    ensures |a.ports| == 1 && a.On(0) && a.RootPortInRange() && Roles(a) && a.Designated(0) && a.id == 1
    ensures |b.ports| == 1 && b.On(0) && b.RootPortInRange() && Roles(b) && !b.Designated(0) && b.id == 2
    ensures b.ports[0].desig == a.Own(0)
  {
    var v, off := Vector(1, 0, 1, 0x8001), Timer(false, 0);
    var p := Port(0x8001, Forwarding, 19, v, false, false, true, off, off, off);
    a := Initial(1).(ports := [p]);
    b := Initial(2).(ports := [p.(messageAge := Start(0))], root := 1, rootCost := 19, rootPort := Some(0));
    assert Eligible(b, 0) && BeatsOwn(b, 0) && IsBestPort(b, 0);
  }

  lemma OneStep(n: Network, e: End)
    requires e in n.peer
    ensures Walk(n, e.node, [e], n.peer[e].node)
  {
    assert [e][1..] == [];
  }

  /** There are networks at rest. */
  lemma TwoBridges() returns (n: Network)
    ensures AtRest(n) && Connected(n) && |n.bridges| == 2
    ensures n.peer == map[End(0, 0) := End(1, 0), End(1, 0) := End(0, 0)]
    ensures n.IsEnd(End(0, 0)) && n.IsEnd(End(1, 0)) && n.Designated(End(0, 0)) && !n.Designated(End(1, 0))
  {
    var a, b := RootAndLeaf();
    var x, y := End(0, 0), End(1, 0);
    n := Network([a, b], map[x := y, y := x]);
    hide Roles;
    TwoAtRest(n, a, b);
    TwoConnected(n);
  }

  lemma TwoAtRest(n: Network, a: Bridge, b: Bridge)
    requires n == Network([a, b], map[End(0, 0) := End(1, 0), End(1, 0) := End(0, 0)])
    requires |a.ports| == 1 && a.On(0) && a.RootPortInRange() && Roles(a) && a.Designated(0)
    requires |b.ports| == 1 && b.On(0) && b.RootPortInRange() && Roles(b) && !b.Designated(0)
    requires a.id != b.id && b.ports[0].desig == a.Own(0)
    ensures AtRest(n)
  {
    RefreshMovesNothing(b, 0);
    hide Roles, Unmoved;
    TwoQuiescent(n, a, b);
    assert WellWired(n);
    hide WellWired, Quiescent;
    assert n.bridges[0].id != n.bridges[1].id;
  }

  lemma TwoQuiescent(n: Network, a: Bridge, b: Bridge)
    requires n == Network([a, b], map[End(0, 0) := End(1, 0), End(1, 0) := End(0, 0)])
    requires |a.ports| == 1 && a.On(0) && a.RootPortInRange() && Roles(a) && a.Designated(0)
    requires |b.ports| == 1 && b.On(0) && b.RootPortInRange() && Roles(b) && !b.Designated(0)
    requires b.ports[0].desig == a.Own(0) && Unmoved(b, 0, a.Own(0))
    ensures Quiescent(n)
  {
    hide Roles, Unmoved;
    forall e: End | n.IsEnd(e)
      ensures e == End(0, 0) || e == End(1, 0)
    {
      assert e.node == 0 || e.node == 1;
    }
  }

  lemma TwoConnected(n: Network)
    requires |n.bridges| == 2 && n.peer == map[End(0, 0) := End(1, 0), End(1, 0) := End(0, 0)]
    ensures Connected(n)
  {
    OneStep(n, End(0, 0));
    OneStep(n, End(1, 0));
    forall i: nat, j: nat | i < 2 && j < 2
      ensures Reaches(n, i, j)
    {
      assert Walk(n, i, [], i);
    }
  }
}
