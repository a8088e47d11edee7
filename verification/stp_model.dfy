/**
 The IEEE 802.1D-1998 bridge of lib/stp.c as values: the state of one bridge
 and, for every procedure of the source, the function from state to state that
 the procedure computes.  The class in stp_bridge.dfy performs the same
 procedures in place and is proved against these functions; every theorem
 about the protocol is a theorem about them.

 Frames handed to the send callback are appended to `log`.
 */
module StpModel {
  import opened Options

  const MAX_PORTS: nat := 255
  const HOLD_TICKS: nat := 256           // one second in timer ticks
  const MESSAGE_AGE_INCREMENT: nat := 1

  datatype PortState = Disabled | Listening | Learning | Forwarding | Blocking

  datatype Timer = Timer(active: bool, value: nat)

  /** What a port knows about the best bridge on its segment (8.5.5.4 to 8.5.5.7). */
  datatype Vector = Vector(root: nat, cost: nat, bridge: nat, port: nat)

  datatype Port = Port(
    portId: nat,
    state: PortState,
    pathCost: nat,
    desig: Vector,
    tcAck: bool,
    configPending: bool,
    changeDetection: bool,
    messageAge: Timer,
    forwardDelay: Timer,
    hold: Timer)
  {
    predicate Enabled() {
      state != Disabled
    }
  }

  datatype Frame =
    | ConfigFrame(p: nat, v: Vector, age: nat, maxAge: nat, hello: nat, fwd: nat)
    | TcnFrame(p: nat)

  /** A received configuration message; `tc` and `ack` are its two flag tests. */
  datatype ConfigMsg = ConfigMsg(v: Vector, age: nat, maxAge: nat, hello: nat, fwd: nat, tc: bool, ack: bool)

  datatype Bpdu = Config(c: ConfigMsg) | Tcn | Malformed

  datatype Bridge = Bridge(
    id: nat,
    maxAge: nat, hello: nat, fwd: nat,
    ownMaxAge: nat, ownHello: nat, ownFwd: nat,
    rqMaxAge: int, rqHello: int, rqFwd: int,
    root: nat, rootCost: nat, rootPort: Option<nat>,
    tcDetected: bool, tc: bool,
    helloTimer: Timer, tcnTimer: Timer, tcTimer: Timer,
    ports: seq<Port>,
    log: seq<Frame>)
  {
    predicate IsRoot() {
      id == root
    }

    predicate HasPort(p: nat) {
      p < |ports|
    }

    predicate On(p: nat) {
      p < |ports| && ports[p].Enabled()
    }

    /** This bridge is the designated bridge through port `p` itself. */
    predicate Designated(p: nat)
      requires HasPort(p)
    {
      ports[p].desig.bridge == id && ports[p].desig.port == ports[p].portId
    }

    /** The vector this bridge sends on port `p`. */
    function Own(p: nat): Vector
      requires HasPort(p)
    {
      Vector(root, rootCost, id, ports[p].portId)
    }

    predicate RootPortInRange() {
      rootPort.Some? ==> rootPort.value < |ports|
    }

    function SetPort(p: nat, port: Port): Bridge
      requires HasPort(p)
    {
      this.(ports := ports[p := port])
    }
  }

  // ---------- Timers ----------

  function Start(value: nat): Timer {
    Timer(true, value)
  }

  function Stop(t: Timer): Timer {
    t.(active := false)
  }

  /** `t` after `elapsed` more ticks; it switches itself off when it reaches `timeout`. */
  function Advance(t: Timer, elapsed: nat, timeout: nat): Timer {
    if !t.active then t
    else Timer(t.value + elapsed < timeout, t.value + elapsed)
  }

  predicate Expires(t: Timer, elapsed: nat, timeout: nat) {
    t.active && t.value + elapsed >= timeout
  }

  function MsToTimer(ms: nat): nat {
    ms * 0x100 / 1000
  }

  function Clamp(x: int, min: nat, max: nat): nat {
    if x < min then min else if x > max then max else x
  }

  function UpdateBridgeTimers(b: Bridge): Bridge {
    var ht := Clamp(b.rqHello, 1000, 10000);
    var ma := Clamp(b.rqMaxAge, if 2 * (ht + 1000) > 6000 then 2 * (ht + 1000) else 6000, 40000);
    var fd := Clamp(b.rqFwd, ma / 2 + 1000, 30000);
    var b1 := b.(ownHello := MsToTimer(ht), ownMaxAge := MsToTimer(ma), ownFwd := MsToTimer(fd));
    if b1.IsRoot() then AdoptOwnTimers(b1) else b1
  }

  function AdoptOwnTimers(b: Bridge): Bridge {
    b.(maxAge := b.ownMaxAge, hello := b.ownHello, fwd := b.ownFwd)
  }

  // ---------- Sending ----------

  predicate CanSpeak(b: Bridge) {
    b.IsRoot() || b.rootPort.Some?
  }

  /** The 16-bit message age field of a configuration message sent now. */
  function AgeField(b: Bridge): nat
    requires b.RootPortInRange()
  {
    if b.IsRoot() || b.rootPort.None? then 0
    else (b.ports[b.rootPort.value].messageAge.value + MESSAGE_AGE_INCREMENT) % 0x1_0000
  }

  function TransmitConfig(b: Bridge, p: nat): (r: Bridge)
    requires b.HasPort(p) && b.RootPortInRange()
    ensures |r.ports| == |b.ports| && r.RootPortInRange()
  {
    if !CanSpeak(b) then b
    else if b.ports[p].hold.active then b.SetPort(p, b.ports[p].(configPending := true))
    else if AgeField(b) < b.maxAge then
      b.SetPort(p, b.ports[p].(tcAck := false, configPending := false, hold := Start(0)))
      .(log := b.log + [ConfigFrame(p, b.Own(p), AgeField(b), b.maxAge, b.hello, b.fwd)])
    else b
  }

  /** Transmission on the designated ports among the first `n`. */
  function GenerateConfigs(b: Bridge, n: nat): (r: Bridge)
    requires n <= |b.ports| && b.RootPortInRange()
    ensures |r.ports| == |b.ports| && r.RootPortInRange()
  {
    if n == 0 then b
    else
      var c := GenerateConfigs(b, n - 1);
      if c.On(n - 1) && c.Designated(n - 1) then TransmitConfig(c, n - 1) else c
  }

  function ConfigGeneration(b: Bridge): (r: Bridge)
    requires b.RootPortInRange()
    ensures |r.ports| == |b.ports| && r.RootPortInRange()
  {
    GenerateConfigs(b, |b.ports|)
  }

  function TransmitTcn(b: Bridge): Bridge {
    if b.rootPort.None? then b else b.(log := b.log + [TcnFrame(b.rootPort.value)])
  }

  function TopologyChangeDetection(b: Bridge): Bridge {
    if b.IsRoot() then b.(tc := true, tcTimer := Start(0), tcDetected := true)
    else if b.tcDetected then b
    else TransmitTcn(b).(tcnTimer := Start(0), tcDetected := true)
  }

  // ---------- Root, designated port and state selection ----------

  predicate SupersedesPortInfo(b: Bridge, p: nat, v: Vector)
    requires b.HasPort(p)
  {
    var d := b.ports[p].desig;
    if v.root != d.root then v.root < d.root
    else if v.cost != d.cost then v.cost < d.cost
    else if v.bridge != d.bridge then v.bridge < d.bridge
    else v.bridge != b.id || v.port <= d.port
  }

  function CostVia(p: Port): nat {
    p.desig.cost + p.pathCost
  }

  /** Port `p` is a strictly better way to the root than port `r`. */
  predicate SupersedesRoot(r: Port, p: Port) {
    if p.desig.root != r.desig.root then p.desig.root < r.desig.root
    else if CostVia(p) != CostVia(r) then CostVia(p) < CostVia(r)
    else if p.desig.bridge != r.desig.bridge then p.desig.bridge < r.desig.bridge
    else if p.desig.port != r.desig.port then p.desig.port < r.desig.port
    else p.portId < r.portId
  }

  predicate Eligible(b: Bridge, p: nat)
    requires b.HasPort(p)
  {
    b.On(p) && !b.Designated(p) && b.ports[p].desig.root < b.id
  }

  /** The scan of root selection over the first `n` ports. */
  function ScanRoot(b: Bridge, n: nat): (r: Option<nat>)
    requires n <= |b.ports|
    ensures r.Some? ==> r.value < n && Eligible(b, r.value)
  {
    if n == 0 then None
    else
      var r := ScanRoot(b, n - 1);
      if !Eligible(b, n - 1) then r
      else if r.Some? && !SupersedesRoot(b.ports[r.value], b.ports[n - 1]) then r
      else Some(n - 1)
  }

  function RootSelection(b: Bridge): Bridge {
    var r := ScanRoot(b, |b.ports|);
    if r.None? then b.(rootPort := None, root := b.id, rootCost := 0)
    else b.(rootPort := r, root := b.ports[r.value].desig.root, rootCost := CostVia(b.ports[r.value]))
  }

  predicate TakesOver(b: Bridge, p: nat)
    requires b.HasPort(p)
  {
    var d := b.ports[p].desig;
    || b.Designated(p)
    || d.root != b.root
    || b.rootCost < d.cost
    || (b.rootCost == d.cost
        && (b.id < d.bridge || (b.id == d.bridge && b.ports[p].portId <= d.port)))
  }

  function BecomeDesignated(b: Bridge, p: nat): Port
    requires b.HasPort(p)
  {
    b.ports[p].(desig := b.Own(p))
  }

  function DesignatedSelection(b: Bridge): (r: Bridge) {
    b.(ports := seq(|b.ports|, i requires 0 <= i < |b.ports| =>
                      if b.On(i) && TakesOver(b, i) then BecomeDesignated(b, i) else b.ports[i]))
  }

  function ConfigurationUpdate(b: Bridge): (r: Bridge)
    ensures |r.ports| == |b.ports| && r.RootPortInRange()
  {
    DesignatedSelection(RootSelection(b))
  }

  function MakeForwarding(p: Port): Port {
    if p.state == Blocking then p.(state := Listening, forwardDelay := Start(0)) else p
  }

  function MakeBlocking(p: Port): Port {
    if p.state == Disabled || p.state == Blocking then p
    else p.(state := Blocking, forwardDelay := Stop(p.forwardDelay))
  }

  function SelectState(b: Bridge, p: nat): Port
    requires b.HasPort(p)
  {
    var q := b.ports[p];
    if !q.Enabled() then q
    else if b.rootPort == Some(p) then MakeForwarding(q.(configPending := false, tcAck := false))
    else if b.Designated(p) then MakeForwarding(q.(messageAge := Stop(q.messageAge)))
    else MakeBlocking(q.(configPending := false, tcAck := false))
  }

  /** Port `p` is about to stop learning or forwarding while it watches for topology changes. */
  predicate Loses(b: Bridge, p: nat)
    requires b.HasPort(p)
  {
    && b.rootPort != Some(p)
    && !b.Designated(p)
    && (b.ports[p].state == Forwarding || b.ports[p].state == Learning)
    && b.ports[p].changeDetection
  }

  /** One topology change is reported however many ports lose their place. */
  function StateSelection(b: Bridge): (r: Bridge)
    requires b.RootPortInRange()
    ensures |r.ports| == |b.ports| && r.RootPortInRange()
  {
    (if exists p :: 0 <= p < |b.ports| && Loses(b, p) then TopologyChangeDetection(b) else b)
    .(ports := seq(|b.ports|, i requires 0 <= i < |b.ports| => SelectState(b, i)))
  }

  function Reconfigure(b: Bridge): (r: Bridge)
    ensures |r.ports| == |b.ports| && r.RootPortInRange()
  {
    StateSelection(ConfigurationUpdate(b))
  }

  function BecomeRoot(b: Bridge): (r: Bridge)
    requires b.RootPortInRange()
    ensures |r.ports| == |b.ports| && r.RootPortInRange()
  {
    var c := TopologyChangeDetection(AdoptOwnTimers(b));
    ConfigGeneration(c.(tcnTimer := Stop(c.tcnTimer))).(helloTimer := Start(0))
  }

  /** Reconfigure, and take up the duties of the root bridge if that is new. */
  function ReconfigureAfterLoss(b: Bridge, wasRoot: bool): (r: Bridge)
    ensures |r.ports| == |b.ports| && r.RootPortInRange()
  {
    var c := Reconfigure(b);
    if c.IsRoot() && !wasRoot then BecomeRoot(c) else c
  }

  // ---------- Received messages ----------

  function RecordInfo(b: Bridge, p: nat, c: ConfigMsg): Bridge
    requires b.HasPort(p)
  {
    b.SetPort(p, b.ports[p].(desig := c.v, messageAge := Start(c.age)))
  }

  /** What happens when the bridge has just stopped being the root. */
  function StepDown(b: Bridge): (r: Bridge)
    ensures r.ports == b.ports && r.rootPort == b.rootPort
  {
    var c := b.(helloTimer := Stop(b.helloTimer));
    if !c.tcDetected then c
    else TransmitTcn(c.(tcTimer := Stop(c.tcTimer))).(tcnTimer := Start(0))
  }

  function RecordTimeouts(b: Bridge, c: ConfigMsg): Bridge {
    b.(maxAge := c.maxAge, hello := c.hello, fwd := c.fwd, tc := c.tc)
  }

  function ChangeAcknowledged(b: Bridge): Bridge {
    b.(tcDetected := false, tcnTimer := Stop(b.tcnTimer))
  }

  /** Record better information and reconfigure; give up being the root if that follows. */
  function TakeNews(b: Bridge, p: nat, c: ConfigMsg): (r: Bridge)
    requires b.HasPort(p)
    ensures |r.ports| == |b.ports| && r.RootPortInRange()
  {
    var b1 := Reconfigure(RecordInfo(b, p, c));
    if !b1.IsRoot() && b.IsRoot() then StepDown(b1) else b1
  }

  /** Pass on what the root says if it was heard on the root port. */
  function PassOnNews(b: Bridge, p: nat, c: ConfigMsg): (r: Bridge)
    requires b.RootPortInRange()
    ensures |r.ports| == |b.ports| && r.RootPortInRange()
  {
    if b.rootPort != Some(p) then b
    else
      var b1 := ConfigGeneration(RecordTimeouts(b, c));
      if c.ack then ChangeAcknowledged(b1) else b1
  }

  function ReceivedConfig(b: Bridge, p: nat, c: ConfigMsg): (r: Bridge)
    requires b.HasPort(p) && b.RootPortInRange()
    ensures |r.ports| == |b.ports| && r.RootPortInRange()
  {
    if c.age >= c.maxAge || !b.On(p) then b
    else if SupersedesPortInfo(b, p, c.v) then PassOnNews(TakeNews(b, p, c), p, c)
    else if b.Designated(p) then TransmitConfig(b, p)
    else b
  }

  function ReceivedTcn(b: Bridge, p: nat): (r: Bridge)
    requires b.HasPort(p) && b.RootPortInRange()
    ensures |r.ports| == |b.ports| && r.RootPortInRange()
  {
    if b.On(p) && b.Designated(p) then
      var c := TopologyChangeDetection(b);
      TransmitConfig(c.SetPort(p, c.ports[p].(tcAck := true)), p)
    else b
  }

  function ReceivedBpdu(b: Bridge, p: nat, m: Bpdu): (r: Bridge)
    requires b.HasPort(p) && b.RootPortInRange()
    ensures |r.ports| == |b.ports| && r.RootPortInRange()
  {
    match m
    case Malformed => b
    case Config(c) => ReceivedConfig(b, p, c)
    case Tcn => ReceivedTcn(b, p)
  }

  // ---------- The clock ----------

  function HelloPhase(b: Bridge, elapsed: nat): (r: Bridge)
    requires b.RootPortInRange()
    ensures |r.ports| == |b.ports| && r.RootPortInRange()
  {
    var c := b.(helloTimer := Advance(b.helloTimer, elapsed, b.hello));
    if Expires(b.helloTimer, elapsed, b.hello) then ConfigGeneration(c).(helloTimer := Start(0)) else c
  }

  function TcnPhase(b: Bridge, elapsed: nat): (r: Bridge)
    ensures r.ports == b.ports && r.rootPort == b.rootPort
  {
    var c := b.(tcnTimer := Advance(b.tcnTimer, elapsed, b.ownHello));
    if Expires(b.tcnTimer, elapsed, b.ownHello) then TransmitTcn(c).(tcnTimer := Start(0)) else c
  }

  function TcPhase(b: Bridge, elapsed: nat): (r: Bridge)
    ensures r.ports == b.ports && r.rootPort == b.rootPort
  {
    var c := b.(tcTimer := Advance(b.tcTimer, elapsed, b.maxAge + b.fwd));
    if Expires(b.tcTimer, elapsed, b.maxAge + b.fwd) then c.(tcDetected := false, tc := false) else c
  }

  function MessageAgeExpiry(b: Bridge, p: nat): (r: Bridge)
    requires b.HasPort(p)
    ensures |r.ports| == |b.ports| && r.RootPortInRange()
  {
    ReconfigureAfterLoss(b.SetPort(p, BecomeDesignated(b, p)), b.IsRoot())
  }

  function AgePort(b: Bridge, p: nat, elapsed: nat): (r: Bridge)
    requires b.HasPort(p) && b.RootPortInRange()
    ensures |r.ports| == |b.ports| && r.RootPortInRange()
  {
    if !b.On(p) then b
    else
      var t := b.ports[p].messageAge;
      var c := b.SetPort(p, b.ports[p].(messageAge := Advance(t, elapsed, b.maxAge)));
      if Expires(t, elapsed, b.maxAge) then MessageAgeExpiry(c, p) else c
  }

  /** Aging of the first `n` ports. */
  function AgePhase(b: Bridge, n: nat, elapsed: nat): (r: Bridge)
    requires n <= |b.ports| && b.RootPortInRange()
    ensures |r.ports| == |b.ports| && r.RootPortInRange()
  {
    if n == 0 then b else AgePort(AgePhase(b, n - 1, elapsed), n - 1, elapsed)
  }

  predicate DesignatedSomewhere(b: Bridge) {
    exists p :: 0 <= p < |b.ports| && b.On(p) && b.ports[p].desig.bridge == b.id
  }

  function ForwardDelayExpiry(b: Bridge, p: nat): (r: Bridge)
    requires b.HasPort(p)
    ensures |r.ports| == |b.ports| && r.rootPort == b.rootPort
  {
    var q := b.ports[p];
    if q.state == Listening then b.SetPort(p, q.(state := Learning, forwardDelay := Start(0)))
    else if q.state == Learning then
      var c := b.SetPort(p, q.(state := Forwarding));
      if DesignatedSomewhere(c) && q.changeDetection then TopologyChangeDetection(c) else c
    else b
  }

  function DelayPort(b: Bridge, p: nat, elapsed: nat): (r: Bridge)
    requires b.HasPort(p)
    ensures |r.ports| == |b.ports| && r.rootPort == b.rootPort
  {
    var t := b.ports[p].forwardDelay;
    var c := b.SetPort(p, b.ports[p].(forwardDelay := Advance(t, elapsed, b.fwd)));
    if Expires(t, elapsed, b.fwd) then ForwardDelayExpiry(c, p) else c
  }

  function HoldPort(b: Bridge, p: nat, elapsed: nat): (r: Bridge)
    requires b.HasPort(p) && b.RootPortInRange()
    ensures |r.ports| == |b.ports| && r.rootPort == b.rootPort
  {
    var t := b.ports[p].hold;
    var c := b.SetPort(p, b.ports[p].(hold := Advance(t, elapsed, HOLD_TICKS)));
    if Expires(t, elapsed, HOLD_TICKS) && c.ports[p].configPending then TransmitConfig(c, p) else c
  }

  /** Forward delay and hold timers of the first `n` ports. */
  function DelayPhase(b: Bridge, n: nat, elapsed: nat): (r: Bridge)
    requires n <= |b.ports| && b.RootPortInRange()
    ensures |r.ports| == |b.ports| && r.rootPort == b.rootPort
  {
    if n == 0 then b
    else
      var c := DelayPhase(b, n - 1, elapsed);
      if !c.On(n - 1) then c else HoldPort(DelayPort(c, n - 1, elapsed), n - 1, elapsed)
  }

  /** Everything a tick does before the forward delay and hold timers. */
  function TickFront(b: Bridge, elapsed: nat): (r: Bridge)
    requires b.RootPortInRange()
    ensures |r.ports| == |b.ports| && r.RootPortInRange()
  {
    AgePhase(TcPhase(TcnPhase(HelloPhase(b, elapsed), elapsed), elapsed), |b.ports|, elapsed)
  }

  /** `stp_tick` once the milliseconds have become ticks. */
  function Tick(b: Bridge, elapsed: nat): (r: Bridge)
    requires b.RootPortInRange()
    ensures |r.ports| == |b.ports| && r.RootPortInRange()
  {
    if elapsed == 0 then b else DelayPhase(TickFront(b, elapsed), |b.ports|, elapsed)
  }

  // ---------- Management ----------

  function SetBridgeId(b: Bridge, newId: nat): (r: Bridge)
    requires b.RootPortInRange()
    ensures |r.ports| == |b.ports| && r.RootPortInRange()
  {
    if newId == b.id then b
    else
      var c := b.(id := newId,
                  ports := seq(|b.ports|, i requires 0 <= i < |b.ports| =>
                             if b.On(i) && b.Designated(i)
                             then b.ports[i].(desig := b.ports[i].desig.(bridge := newId))
                             else b.ports[i]));
      ReconfigureAfterLoss(c, b.IsRoot())
  }

  function InitializePort(b: Bridge, p: nat, state: PortState): Port
    requires b.HasPort(p)
  {
    var q := BecomeDesignated(b, p);
    q.(state := state, tcAck := false, configPending := false, changeDetection := true,
       messageAge := Stop(q.messageAge), forwardDelay := Stop(q.forwardDelay), hold := Stop(q.hold))
  }

  function PortEnable(b: Bridge, p: nat): (r: Bridge)
    requires b.HasPort(p) && b.RootPortInRange()
    ensures |r.ports| == |b.ports| && r.RootPortInRange()
  {
    if b.On(p) then b else StateSelection(b.SetPort(p, InitializePort(b, p, Blocking)))
  }

  function PortDisable(b: Bridge, p: nat): (r: Bridge)
    requires b.HasPort(p) && b.RootPortInRange()
    ensures |r.ports| == |b.ports| && r.RootPortInRange()
  {
    if !b.On(p) then b
    else
      var q := BecomeDesignated(b, p);
      ReconfigureAfterLoss(
        b.SetPort(p, q.(state := Disabled, tcAck := false, configPending := false,
                        messageAge := Stop(q.messageAge), forwardDelay := Stop(q.forwardDelay))),
        b.IsRoot())
  }

  function SetPriority(b: Bridge, p: nat, priority: nat): (r: Bridge)
    requires b.HasPort(p) && b.RootPortInRange()
    ensures |r.ports| == |b.ports| && r.RootPortInRange()
  {
    var newId := b.ports[p].portId % 0x100 + priority * 0x100;
    if b.ports[p].portId == newId then b
    else
      var q := if b.Designated(p) then b.ports[p].(desig := b.ports[p].desig.(port := newId)) else b.ports[p];
      var c := b.SetPort(p, q.(portId := newId));
      if c.id == c.ports[p].desig.bridge && newId < c.ports[p].desig.port
      then StateSelection(c.SetPort(p, BecomeDesignated(c, p)))
      else c
  }

  function SetPathCost(b: Bridge, p: nat, cost: nat): (r: Bridge)
    requires b.HasPort(p) && b.RootPortInRange()
    ensures |r.ports| == |b.ports| && r.RootPortInRange()
  {
    if b.ports[p].pathCost == cost then b
    else Reconfigure(b.SetPort(p, b.ports[p].(pathCost := cost)))
  }

  // ---------- Creation ----------

  function InitialPort(id: nat, i: nat): Port {
    var off := Timer(false, 0);
    Port((i + 1) + 128 * 0x100, Disabled, 19, Vector(id, 0, id, (i + 1) + 128 * 0x100),
         false, false, true, off, off, off)
  }

  function Initial(id: nat): Bridge {
    AdoptOwnTimers(UpdateBridgeTimers(
      Bridge(id, 0, 0, 0, 0, 0, 0, 6000, 2000, 4000, id, 0, None, false, false,
             Start(0), Timer(false, 0), Timer(false, 0),
             seq(MAX_PORTS, i requires 0 <= i < MAX_PORTS => InitialPort(id, i)), [])))
  }
}
