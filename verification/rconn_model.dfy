/**
 The reliable connection of lib/rconn.c as values.  What the underlying vconn
 answers is an input of every step.  Two logs that the source does not keep say
 what became of the packets: `accepted`, all packets that were taken for
 sending, and `fate`, those that have left the queue again and how.
 */
module RconnModel {
  import opened MinMax
  import opened Options
  import opened SatMath

  const TIME_MAX: int := 0x7fff_ffff_ffff_ffff
  const TIME_MIN: int := -0x8000_0000_0000_0000

  datatype State = Void | Backoff | Connecting | Active | Idle

  /** A message, and the counter that its sender asked to be kept. */
  datatype Packet = Packet(data: nat, xid: nat, counter: Option<nat>)

  datatype Fate = Sent(p: Packet) | Flushed(p: Packet)

  datatype Rconn = Rconn(
    state: State,
    entered: nat,
    vconn: bool,
    reliable: bool,
    queue: seq<Packet>,
    backoff: nat,
    maxBackoff: nat,
    deadline: int,
    lastReceived: nat,
    lastConnected: nat,
    packetsSent: nat,
    seqno: nat,
    probe: nat,
    echoXid: nat,
    counters: map<nat, int>,
    accepted: seq<Packet>,
    fate: seq<Fate>)

  datatype OpenResult = Opened(reconnectable: bool) | Refused
  datatype ConnectResult = Connected | Pending | ConnectFailed
  datatype SendResult = Taken | Again | SendFailed
  datatype RecvResult = Received(echoReply: bool, xid: nat) | Nothing | RecvFailed

  /** What the vconn answers during one pass of `rconn_run`. */
  datatype Answers = Answers(open: OpenResult, connect: ConnectResult, sends: seq<SendResult>, echo: nat)

  predicate IsConnected(s: State) {
    s == Active || s == Idle
  }

  predicate HasVconn(s: State) {
    s == Connecting || s == Active || s == Idle
  }

  // ---------- Counters ----------

  function Counter(m: map<nat, int>, c: nat): int {
    if c in m then m[c] else 0
  }

  function Bump(m: map<nat, int>, p: Packet, d: int): map<nat, int> {
    if p.counter.None? then m else m[p.counter.value := Counter(m, p.counter.value) + d]
  }

  // ---------- States ----------

  function Transition(rc: Rconn, s: State, now: nat): Rconn {
    rc.(seqno := if (rc.state == Active) != (s == Active) then (rc.seqno + 1) % 0x1_0000_0000 else rc.seqno,
        state := s, entered := now)
  }

  function DropVconn(rc: Rconn): Rconn {
    rc.(vconn := false)
  }

  /** `rconn_disconnect`, which keeps the queue. */
  function GiveUp(rc: Rconn, now: nat): Rconn {
    if rc.state == Void then rc
    else Transition(DropVconn(rc).(reliable := false, backoff := 0, deadline := TIME_MIN), Void, now)
  }

  /** The head of the queue leaves it, sent or flushed. */
  function Pop(rc: Rconn, sent: bool): Rconn
    requires rc.queue != []
  {
    var p := rc.queue[0];
    rc.(queue := rc.queue[1..], counters := Bump(rc.counters, p, -1),
        fate := rc.fate + [if sent then Sent(p) else Flushed(p)])
  }

  function FlushQueue(rc: Rconn): Rconn
    decreases |rc.queue|
  {
    if rc.queue == [] then rc else FlushQueue(Pop(rc, false))
  }

  function Disconnect(rc: Rconn, now: nat): Rconn {
    if !rc.reliable then GiveUp(rc, now)
    else
      var r := if HasVconn(rc.state) then FlushQueue(DropVconn(rc)) else rc;
      var b := if now >= r.deadline then 1 else Min(r.maxBackoff, Max(1, 2 * r.backoff));
      Transition(r.(backoff := if b >= 0 then b else 0, deadline := now + b), Backoff, now)
  }

  function Reconnect(rc: Rconn, now: nat, open: OpenResult): Rconn {
    match open
    case Opened(reconnectable) =>
      Transition(rc.(vconn := true, reliable := rc.reliable && reconnectable, deadline := now + rc.backoff), Connecting, now)
    case Refused => Disconnect(rc.(deadline := TIME_MAX), now)
  }

  // ---------- Sending ----------

  function TrySend(rc: Rconn, now: nat, answer: SendResult): Rconn
    requires rc.queue != []
  {
    match answer
    case Taken => Pop(rc, true).(echoXid := rc.queue[0].xid, packetsSent := rc.packetsSent + 1)
    case Again => rc.(echoXid := 0)
    case SendFailed => Disconnect(rc.(echoXid := 0), now)
  }

  function Accept(rc: Rconn, p: Packet): Rconn {
    rc.(queue := rc.queue + [p], counters := Bump(rc.counters, p, 1), accepted := rc.accepted + [p])
  }

  /** `rconn_send`; the packet is refused unless the connection is up. */
  function Send(rc: Rconn, p: Packet, now: nat, answer: SendResult): Rconn {
    if !IsConnected(rc.state) then rc
    else
      var r := Accept(rc, p);
      if |r.queue| == 1 then TrySend(r, now, answer) else r
  }

  /** Sends until the vconn balks; when its answers run out it is busy. */
  function TxWork(rc: Rconn, now: nat, answers: seq<SendResult>): Rconn
    decreases |answers|
  {
    if rc.queue == [] then rc
    else if answers == [] then TrySend(rc, now, Again)
    else if answers[0] == Taken then TxWork(TrySend(rc, now, Taken), now, answers[1..])
    else TrySend(rc, now, answers[0])
  }

  // ---------- Running ----------

  function Timeout(rc: Rconn): nat {
    match rc.state
    case Void => UINT_MAX
    case Backoff => rc.backoff
    case Connecting => Max(1, rc.backoff)
    case Active => if rc.probe > 0 then Max(rc.lastReceived, rc.entered) + rc.probe - rc.entered else UINT_MAX
    case Idle => rc.probe
  }

  predicate TimedOut(rc: Rconn, now: nat) {
    now >= SatAdd(rc.entered, Timeout(rc))
  }

  function FirstAnswer(a: Answers): SendResult {
    if a.sends == [] then Again else a.sends[0]
  }

  /** One pass of the loop of `rconn_run`. */
  function Pass(rc: Rconn, now: nat, a: Answers): Rconn {
    match rc.state
    case Void => rc
    case Backoff => if TimedOut(rc, now) then Reconnect(rc, now, a.open) else rc
    case Connecting =>
      (match a.connect
       case Connected => var r := Transition(rc, Active, now); r.(lastConnected := r.entered)
       case ConnectFailed => Disconnect(rc, now)
       case Pending => if TimedOut(rc, now) then Disconnect(rc.(deadline := TIME_MAX), now) else rc)
    case Active =>
      if TimedOut(rc, now)
      then Send(Transition(rc, Idle, now), Packet(0, a.echo, None), now, FirstAnswer(a))
      else TxWork(rc, now, a.sends)
    case Idle => if TimedOut(rc, now) then Disconnect(rc, now) else TxWork(rc, now, a.sends)
  }

  /** How many more times a run at time `now` can still change state. */
  function Rank(rc: Rconn, now: nat): nat {
    match rc.state
    case Void => 0
    case Backoff => if TimedOut(rc, now) then 3 else 0
    case Connecting => 2
    case Active => if TimedOut(rc, now) then 2 else 1
    case Idle => 1
  }

  /** `rconn_run`: passes until one leaves the state as it is, one set of answers for each. */
  function Run(rc: Rconn, now: nat, answers: seq<Answers>): Rconn
    decreases |answers|
  {
    if answers == [] then rc
    else
      var r := Pass(rc, now, answers[0]);
      if r.state == rc.state then r else Run(r, now, answers[1..])
  }

  /** The passes that `Run` takes. */
  function Passes(rc: Rconn, now: nat, answers: seq<Answers>): nat
    decreases |answers|
  {
    if answers == [] then 0
    else
      var r := Pass(rc, now, answers[0]);
      1 + if r.state == rc.state then 0 else Passes(r, now, answers[1..])
  }

  // ---------- The other entry points ----------

  function Create(probe: nat, maxBackoff: nat, now: nat): Rconn {
    Rconn(Void, now, false, false, [], 0, if maxBackoff == 0 then 60 else maxBackoff, TIME_MIN, now, now, 0, 0, probe, 0,
          map[], [], [])
  }

  function Connect(rc: Rconn, now: nat, open: OpenResult): Rconn {
    Reconnect(GiveUp(rc, now).(reliable := true), now, open)
  }

  function ConnectUnreliably(rc: Rconn, now: nat): Rconn {
    Transition(GiveUp(rc, now).(reliable := false, vconn := true, lastConnected := now), Active, now)
  }

  function Recv(rc: Rconn, now: nat, answer: RecvResult): Rconn {
    if !IsConnected(rc.state) then rc
    else match answer
      case Nothing => rc
      case RecvFailed => Disconnect(rc, now)
      case Received(echoReply, xid) =>
        var r := rc.(lastReceived := now);
        if r.state != Idle then r
        else if !echoReply || r.echoXid == 0 then Transition(r, Active, now)
        else (if r.echoXid == xid then Transition(r, Active, now) else r).(echoXid := 0)
  }

  datatype Call =
    | ConnectCall(open: OpenResult)
    | ConnectUnreliablyCall
    | DisconnectCall
    | RunCall(answers: seq<Answers>)
    | RecvCall(received: RecvResult)
    | SendCall(p: Packet, taken: SendResult)

  function Step(rc: Rconn, now: nat, c: Call): Rconn {
    match c
    case ConnectCall(open) => Connect(rc, now, open)
    case ConnectUnreliablyCall => ConnectUnreliably(rc, now)
    case DisconnectCall => GiveUp(rc, now)
    case RunCall(answers) => Run(rc, now, answers)
    case RecvCall(r) => Recv(rc, now, r)
    case SendCall(p, r) => Send(rc, p, now, r)
  }

  function StepAll(rc: Rconn, calls: seq<(nat, Call)>): Rconn {
    if calls == [] then rc
    else
      var (now, c) := calls[|calls| - 1];
      Step(StepAll(rc, calls[..|calls| - 1]), now, c)
  }
}
