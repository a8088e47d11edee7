/**
 * The DHCP client's lease (lib/dhcp-client.c).  The clock, the replies that
 * arrive and the random numbers drawn are parameters.
 */
module DhcpClientModel {
  import opened Options
  import opened SatMath

  const MIN_ACCEPTABLE_LEASE := 15

  datatype State = Init | InitReboot | Rebooting | Selecting | Requesting | Bound | Renewing | Rebinding | Released

  /** What an acknowledgment configures: addresses, and a number for the other options that are compared. */
  datatype Config = Config(ip: nat, netmask: nat, router: Option<nat>, other: nat)

  /** `binding` is the acknowledgment last bound to; times are in seconds. */
  datatype Client = Client(state: State, entered: nat, binding: Option<Config>, changed: bool,
                           ipaddr: nat, netmask: nat, router: nat, serverIp: nat, initDelay: nat,
                           leaseExpiration: nat, boundTimeout: nat, renewingTimeout: nat, rebindingTimeout: nat)

  /**
   * What asking for a message gives: nothing acceptable, a refusal, an offer, or an
   * acknowledgment with the given times (0 stands for an absent T1 or T2).  `f1`
   * and `f2` are the random numbers its handling draws.
   */
  datatype Reply = Nothing | Nak | Offer(server: nat, ip: nat) | Ack(config: Config, lease: nat, t1: nat, t2: nat, f1: int, f2: int)

  /** One trip around the loop of a run: the reply, and the random number for the initial delay. */
  datatype Input = Input(reply: Reply, draw: int)

  predicate ProperReply(r: Reply) {
    r.Ack? ==> r.lease <= UINT_MAX && r.t1 <= UINT_MAX && r.t2 <= UINT_MAX && -10 <= r.f1 <= 10 && -10 <= r.f2 <= 10
  }

  predicate Proper(i: Input) {
    ProperReply(i.reply) && -1 <= i.draw <= 1
  }

  /** Unsigned subtraction wraps around. */
  function Minus(x: nat, y: nat): nat
    requires x <= UINT_MAX && y <= UINT_MAX
  {
    if x >= y then x - y else UINT_MAX + 1 - (y - x)
  }

  predicate IsBound(s: State) {
    s == Bound || s == Renewing || s == Rebinding
  }

  /** Enters state `s`, even from `s`; leaving the bound states drops the binding. */
  function Enter(c: Client, s: State, now: nat): Client {
    var moved := IsBound(c.state) != IsBound(s);
    c.(state := s, entered := now, changed := c.changed || moved,
    binding := if moved && !IsBound(s) then None else c.binding)
  }

  predicate TimedOut(c: Client, secs: nat, now: nat) {
    now >= SatAdd(c.entered, secs)
  }

  // ---- Lease times ----

  function Fuzz(x: nat, f: int): nat {
    if x + f < 0 then 0 else if x + f > UINT_MAX then UINT_MAX else x + f
  }

  function Clamp(x: nat, min: nat, max: nat): nat {
    if x < min then min else if x > max then max else x
  }

  function CalcT2(lease: nat, f: int): nat {
    var base := lease * 7 / 8;
    if lease >= 60 then Clamp(Fuzz(base, f), 0, lease - 1) else base
  }

  function CalcT1(lease: nat, t2: nat, f: int): nat
    requires 0 < t2
  {
    var base := lease / 2;
    if lease >= 60 then Clamp(Fuzz(base, f), 0, t2 - 1) else base
  }

  function T2Of(a: Reply): (t2: nat)
    requires a.Ack? && a.lease >= MIN_ACCEPTABLE_LEASE && ProperReply(a)
    ensures 0 < t2 < a.lease
  {
    if a.t2 == 0 || a.t2 >= a.lease then CalcT2(a.lease, a.f2) else a.t2
  }

  function T1Of(a: Reply): (t1: nat)
    requires a.Ack? && a.lease >= MIN_ACCEPTABLE_LEASE && ProperReply(a)
    ensures t1 < a.lease
  {
    if a.t1 == 0 || a.t1 >= T2Of(a) then CalcT1(a.lease, T2Of(a), a.f1) else a.t1
  }

  /** A lease under a minute whose T2 lies in the first half, with no T1 before it. */
  predicate ShortWithEarlyT2(a: Reply)
    requires a.Ack?
  {
    a.lease < 60 && 0 < a.t2 < a.lease / 2 && (a.t1 == 0 || a.t1 >= a.t2)
  }

  function RouterOf(g: Config): nat {
    if g.router.Some? then g.router.value else 0
  }

  function Bind(c: Client, a: Reply, now: nat): Client
    requires a.Ack? && a.lease >= MIN_ACCEPTABLE_LEASE && ProperReply(a)
  {
    var other := c.binding.Some? && c.binding != Some(a.config);
    Enter(c.(binding := Some(a.config), changed := c.changed || other,
    ipaddr := a.config.ip, netmask := a.config.netmask, router := RouterOf(a.config), leaseExpiration := SatAdd(now, a.lease),
    boundTimeout := T1Of(a), renewingTimeout := Minus(T2Of(a), T1Of(a)), rebindingTimeout := a.lease - T2Of(a)), Bound, now)
  }

  // ---- One trip around the loop, and a run ----

  predicate AwaitsAck(s: State) {
    s == Rebooting || s == Requesting || s == Renewing || s == Rebinding
  }

  predicate Accepts(c: Client, r: Reply) {
    AwaitsAck(c.state) && r.Ack? && r.lease >= MIN_ACCEPTABLE_LEASE
  }

  /** Handles a reply while one is awaited, or gives up after `secs` and enters `next`. */
  function Await(c: Client, r: Reply, secs: nat, next: State, now: nat): Client
    requires ProperReply(r)
  {
    if r.Nak? then Enter(c, Init, now)
    else if r.Ack? && r.lease >= MIN_ACCEPTABLE_LEASE then Bind(c, r, now)
    else if TimedOut(c, secs, now) then Enter(c, next, now)
    else c
  }

  function Wait(c: Client, draw: int, next: State, now: nat): Client {
    var d := if c.initDelay == 0 then c.(initDelay := Fuzz(2, draw)) else c;
    if TimedOut(d, d.initDelay, now) then Enter(d, next, now) else d
  }

  function Select(c: Client, r: Reply, now: nat): Client {
    var d := if c.serverIp != 0 && TimedOut(c, 60, now) then Enter(c.(serverIp := 0), Init, now) else c;
    if r.Offer? then Enter(d.(serverIp := r.server, ipaddr := r.ip), Requesting, now) else d
  }

  function Pass(c: Client, i: Input, now: nat): Client
    requires Proper(i)
  {
    match c.state
    case Init => Wait(c, i.draw, Selecting, now)
    case InitReboot => Wait(c, i.draw, Rebooting, now)
    case Rebooting => Await(c, i.reply, 60, Init, now)
    case Selecting => Select(c, i.reply, now)
    case Requesting => Await(c, i.reply, 60, Init, now)
    case Bound => if TimedOut(c, c.boundTimeout, now) then Enter(c, Renewing, now) else c
    case Renewing => Await(c, i.reply, c.renewingTimeout, Rebinding, now)
    case Rebinding => Await(c, i.reply, c.rebindingTimeout, Init, now)
    case Released => c
  }

  /** An upper bound on the trips that change state without a reply. */
  function Rank(c: Client, now: nat): nat {
    match c.state
    case Bound => 5
    case Renewing => 4
    case Rebinding => 3
    case Released => 0
    case Init => if c.entered < now then 2 else 0
    case InitReboot => if c.entered < now then 2 else 0
    case _ => if c.entered < now then 2 else 1
  }

  ghost predicate AllProper(script: seq<Input>) {
    forall i :: i in script ==> Proper(i)
  }

  function Head(script: seq<Input>): (i: Input)
    requires AllProper(script)
    ensures Proper(i)
  {
    if script == [] then Input(Nothing, 0) else script[0]
  }

  function Tail(script: seq<Input>): seq<Input> {
    if script == [] then [] else script[1..]
  }

  /** Time has not gone back since the state was entered. */
  predicate Sane(c: Client, now: nat) {
    c.entered <= now <= UINT_MAX
  }

  /** Without replies, a trip either leaves the state alone or lowers the rank. */
  lemma RankFalls(c: Client, draw: int, now: nat)
    requires Sane(c, now) && now < UINT_MAX && -1 <= draw <= 1
    ensures var d := Pass(c, Input(Nothing, draw), now);
            Sane(d, now) && (d.state != c.state ==> Rank(d, now) < Rank(c, now))
  {
  }

  lemma PassStaysSane(c: Client, i: Input, now: nat)
    requires Sane(c, now) && Proper(i)
    ensures Sane(Pass(c, i, now), now)
  {
  }

  /** A call to run: goes around until the state no longer changes; `script` tells what arrives on each trip. */
  function Run(c: Client, script: seq<Input>, now: nat): Client
    requires Sane(c, now) && now < UINT_MAX && AllProper(script)
    decreases |script|, Rank(c, now)
  {
    var d := Pass(c, Head(script), now);
    PassStaysSane(c, Head(script), now);
    if d.state == c.state then d
    else
      assert script == [] ==> Rank(d, now) < Rank(c, now) by { RankFalls(c, 0, now); }
      Run(d, Tail(script), now)
  }

  // ---- The other calls ----

  function Restart(c: Client, requestedIp: nat, now: nat): Client {
    Enter(c, if requestedIp != 0 then InitReboot else Init, now).(ipaddr := requestedIp, initDelay := 0)
  }

  function Release(c: Client, now: nat): Client {
    Enter(c, Released, now)
  }

  const INT_MAX := 0x7fff_ffff

  /** A deadline is an int, compared with the unsigned time left: a negative one counts as far off. */
  function AsUnsigned(deadline: int): nat
    requires -INT_MAX - 1 <= deadline <= INT_MAX
  {
    if deadline < 0 then deadline + UINT_MAX + 1 else deadline
  }

  /** The seconds the client gives itself to renew. */
  function Granted(c: Client, deadline: int, now: nat): nat
    requires -INT_MAX - 1 <= deadline <= INT_MAX
  {
    var left := SatSub(c.leaseExpiration, now);
    if left <= AsUnsigned(deadline) then left else AsUnsigned(deadline)
  }

  /** The renewal under way ends soon enough as it is. */
  predicate LeftAlone(c: Client, deadline: int, now: nat)
    requires -INT_MAX - 1 <= deadline <= INT_MAX
  {
    (c.state == Renewing || c.state == Rebinding) && SatSub(c.leaseExpiration, now) <= AsUnsigned(deadline)
  }

  function ForceBound(c: Client, deadline: int, now: nat): Client
    requires -INT_MAX - 1 <= deadline <= INT_MAX
  {
    var left := Granted(c, deadline, now);
    if LeftAlone(c, deadline, now) then c
    else if c.state == Bound || c.state == Renewing then
      Enter(c, Renewing, now).(renewingTimeout := left * 3 / 4, rebindingTimeout := left * 1 / 4)
    else Enter(c, Rebinding, now).(rebindingTimeout := left)
  }

  function ForceRenew(c: Client, deadline: int, now: nat): Client
    requires -INT_MAX - 1 <= deadline <= INT_MAX
  {
    if IsBound(c.state) then ForceBound(c, deadline, now)
    else if c.state == Released then Restart(c, 0, now)
    else c
  }

  /** The time granted for a renewal, an int, can be multiplied by 3. */
  predicate Multiplies(c: Client, deadline: int, now: nat)
    requires -INT_MAX - 1 <= deadline <= INT_MAX
  {
    (c.state == Bound || c.state == Renewing) && !LeftAlone(c, deadline, now) ==> Granted(c, deadline, now) * 3 <= INT_MAX
  }
}
