/**
 The packet queue of lib/queue.c and the reliable connection of lib/rconn.c in
 place.  Each method is proved to compute the function of RconnModel that the
 run theorems are about.
 */
module PacketQueue {
  import opened RconnModel

  class OfpBuf {
    const packet: Packet
    var next: OfpBuf?

    constructor (packet: Packet)
      ensures this.packet == packet
    {
      this.packet := packet;
      next := null;
    }
  }

  ghost function PacketsIn(bufs: seq<OfpBuf>): seq<Packet> {
    seq(|bufs|, i requires 0 <= i < |bufs| => bufs[i].packet)
  }

  class OfpQueue {
    var n: nat
    var head: OfpBuf?
    var tail: OfpBuf?
    ghost var bufs: seq<OfpBuf>          // the buffers in the queue, first to last

    ghost predicate Valid()
      reads this, bufs
    {
      && n == |bufs|
      && (if bufs == [] then head == null && tail == null else head == bufs[0] && tail == bufs[|bufs| - 1])
      && (forall i: nat, j: nat :: i < j < |bufs| ==> bufs[i] != bufs[j])
      && (forall i: nat {:trigger bufs[i].next} :: i < |bufs| - 1 ==> bufs[i].next == bufs[i + 1])
      && (bufs != [] ==> bufs[|bufs| - 1].next == null)
    }

    ghost function Packets(): seq<Packet>
      reads this
    {
      PacketsIn(bufs)
    }

    constructor ()
      ensures Valid() && bufs == []
    {
      n, head, tail, bufs := 0, null, null, [];
    }

    method PushTail(b: OfpBuf)
      requires Valid() && b !in bufs
      modifies this, b, bufs
      ensures Valid() && bufs == old(bufs) + [b]
      ensures Packets() == old(Packets()) + [b.packet]
    {
      b.next := null;
      if n > 0 {
        tail.next := b;
      } else {
        head := b;
      }
      n := n + 1;
      tail := b;
      bufs := bufs + [b];
    }

    /** Drops the first buffer, whose successor is `next`. */
    method AdvanceHead(next: OfpBuf?)
      requires Valid() && bufs != [] && next == bufs[0].next
      modifies this
      ensures Valid() && bufs == old(bufs)[1..]
      ensures Packets() == old(Packets())[1..]
    {
      ghost var q := bufs;
      head := next;
      if head == null {
        tail := null;
      }
      n := n - 1;
      bufs := bufs[1..];
      assert forall i: nat :: i < |bufs| ==> bufs[i] == q[i + 1];
    }

    method PopHead() returns (b: OfpBuf)
      requires Valid() && bufs != []
      modifies this
      ensures Valid() && b == old(bufs)[0] && bufs == old(bufs)[1..]
      ensures Packets() == old(Packets())[1..] && b.packet == old(Packets())[0]
    {
      b := head;
      AdvanceHead(b.next);
    }
  }
}

module ReliableConnection {
  import opened MinMax
  import opened Options
  import opened SatMath
  import opened RconnModel
  import M = RconnModel
  import S = RconnSafety
  import opened PacketQueue

  class Connection {
    var state: State
    var entered: nat
    var vconn: bool
    var reliable: bool
    const txq: OfpQueue
    var backoff: nat
    const maxBackoff: nat
    var deadline: int
    var lastReceived: nat
    var lastConnected: nat
    var packetsSent: nat
    var seqno: nat
    const probe: nat
    var echoXid: nat
    var counters: map<nat, int>          // the callers' counters
    ghost var accepted: seq<Packet>
    ghost var fate: seq<Fate>

    ghost function View(): Rconn
      reads this, txq
    {
      Rconn(state, entered, vconn, reliable, txq.Packets(), backoff, maxBackoff, deadline, lastReceived, lastConnected,
            packetsSent, seqno, probe, echoXid, counters, accepted, fate)
    }

    ghost predicate Valid()
      reads this, txq, txq.bufs
    {
      txq.Valid()
    }

    constructor (probe: nat, maxBackoff: nat, now: nat)
      ensures Valid() && fresh(txq) && View() == Create(probe, maxBackoff, now)
    {
      state, entered, vconn, reliable := Void, now, false, false;
      txq := new OfpQueue();
      backoff, deadline := 0, TIME_MIN;
      this.maxBackoff := if maxBackoff == 0 then 60 else maxBackoff;
      lastReceived, lastConnected, packetsSent, seqno, echoXid := now, now, 0, 0, 0;
      this.probe := probe;
      counters, accepted, fate := map[], [], [];
    }

    method StateTransition(s: State, now: nat)
      requires Valid()
      modifies this
      ensures Valid() && View() == Transition(old(View()), s, now)
    {
      if (state == Active) != (s == Active) {
        seqno := (seqno + 1) % 0x1_0000_0000;
      }
      state, entered := s, now;
    }

    method RconnDisconnect(now: nat)
      requires Valid()
      modifies this
      ensures Valid() && View() == GiveUp(old(View()), now)
    {
      hide M.Transition;
      if state != Void {
        if vconn {
          vconn := false;
        }
        reliable := false;
        backoff, deadline := 0, TIME_MIN;
        StateTransition(Void, now);
      }
    }

    method FlushQueue()
      requires Valid()
      modifies this`counters, this`fate, txq
      ensures Valid() && View() == M.FlushQueue(old(View()))
      ensures forall b :: b in txq.bufs ==> b in old(txq.bufs)
    {
      while txq.n > 0
        invariant Valid() && M.FlushQueue(View()) == M.FlushQueue(old(View()))
        invariant forall b :: b in txq.bufs ==> b in old(txq.bufs)
        invariant unchanged(this`state, this`entered, this`vconn, this`reliable, this`backoff, this`deadline,
                            this`lastReceived, this`lastConnected, this`packetsSent, this`seqno, this`echoXid, this`accepted)
        decreases txq.n
      {
        ghost var v := View();
        var b := txq.PopHead();
        if b.packet.counter.Some? {
          var c := b.packet.counter.value;
          counters := counters[c := Counter(counters, c) - 1];
        }
        fate := fate + [Flushed(b.packet)];
        assert View() == Pop(v, false);
      }
    }

    /** Doubles the time to wait, or resets it when the deadline has passed. */
    method BackOff(now: nat)
      modifies this`backoff, this`deadline
      ensures var b := if now >= old(deadline) then 1 else Min(maxBackoff, Max(1, 2 * old(backoff)));
              backoff == (if b >= 0 then b else 0) && deadline == now + b
    {
      if now >= deadline {
        backoff := 1;
      } else {
        backoff := Min(maxBackoff, Max(1, 2 * backoff));
      }
      deadline := now + backoff;
    }

    method Disconnect(now: nat)
      requires Valid()
      modifies this, txq
      ensures Valid() && View() == M.Disconnect(old(View()), now)
      ensures forall b :: b in txq.bufs ==> b in old(txq.bufs)
    {
      hide M.Transition, M.FlushQueue;
      if reliable {
        if HasVconn(state) {
          vconn := false;
          FlushQueue();
        }
        BackOff(now);
        StateTransition(Backoff, now);
      } else {
        RconnDisconnect(now);
      }
    }

    method Reconnect(now: nat, open: OpenResult)
      requires Valid()
      modifies this, txq
      ensures Valid() && View() == M.Reconnect(old(View()), now, open)
      ensures forall b :: b in txq.bufs ==> b in old(txq.bufs)
    {
      hide M.Transition, M.Disconnect;
      match open
      case Opened(reconnectable) =>
        vconn := true;
        if !reconnectable {
          reliable := false;
        }
        deadline := now + backoff;
        StateTransition(Connecting, now);
      case Refused =>
        deadline := TIME_MAX;
        Disconnect(now);
    }

    method Connect(now: nat, open: OpenResult)
      requires Valid()
      modifies this, txq
      ensures Valid() && View() == M.Connect(old(View()), now, open)
    {
      hide M.GiveUp, M.Reconnect;
      RconnDisconnect(now);
      reliable := true;
      Reconnect(now, open);
    }

    method ConnectUnreliably(now: nat)
      requires Valid()
      modifies this
      ensures Valid() && View() == M.ConnectUnreliably(old(View()), now)
    {
      hide M.GiveUp, M.Transition;
      RconnDisconnect(now);
      reliable, vconn, lastConnected := false, true, now;
      StateTransition(Active, now);
    }

    /** The first packet has gone out. */
    method SentFirst()
      requires Valid() && txq.bufs != []
      modifies this`packetsSent, this`counters, this`fate, txq
      ensures Valid() && View() == Pop(old(View()), true).(packetsSent := old(packetsSent) + 1)
      ensures forall b :: b in txq.bufs ==> b in old(txq.bufs)
    {
      var first := txq.head;
      var next := first.next;
      packetsSent := packetsSent + 1;
      if first.packet.counter.Some? {
        var c := first.packet.counter.value;
        counters := counters[c := Counter(counters, c) - 1];
      }
      txq.AdvanceHead(next);
      fate := fate + [Sent(first.packet)];
    }

    method TrySend(now: nat, answer: SendResult)
      requires Valid() && txq.bufs != []
      modifies this, txq
      ensures Valid() && View() == M.TrySend(old(View()), now, answer)
      ensures forall b :: b in txq.bufs ==> b in old(txq.bufs)
    {
      hide M.Disconnect;
      echoXid := txq.head.packet.xid;
      match answer
      case Taken => SentFirst();
      case Again => echoXid := 0;
      case SendFailed =>
        echoXid := 0;
        Disconnect(now);
    }

    method Send(p: Packet, now: nat, answer: SendResult) returns (ok: bool)
      requires Valid()
      modifies this, txq, set b | b in txq.bufs
      ensures Valid() && ok == IsConnected(old(state))
      ensures View() == M.Send(old(View()), p, now, answer)
      ensures forall b :: b in txq.bufs ==> b in old(txq.bufs) || fresh(b)
    {
      hide M.TrySend;
      if !IsConnected(state) {
        return false;
      }
      var b := new OfpBuf(p);
      if p.counter.Some? {
        counters := counters[p.counter.value := Counter(counters, p.counter.value) + 1];
      }
      txq.PushTail(b);
      accepted := accepted + [p];
      assert View() == Accept(old(View()), p);
      if txq.n == 1 {
        TrySend(now, answer);
      }
      return true;
    }

    method DoTxWork(now: nat, answers: seq<SendResult>)
      requires Valid()
      modifies this, txq
      ensures Valid() && View() == TxWork(old(View()), now, answers)
      ensures forall b :: b in txq.bufs ==> b in old(txq.bufs)
    {
      hide M.TrySend;
      var i := 0;
      while txq.n > 0
        invariant Valid() && i <= |answers|
        invariant forall b :: b in txq.bufs ==> b in old(txq.bufs)
        invariant TxWork(View(), now, answers[i..]) == TxWork(old(View()), now, answers)
        decreases |answers| - i
      {
        assert |View().queue| == txq.n;
        if i == |answers| {
          TrySend(now, Again);
          return;
        }
        TrySend(now, answers[i]);
        assert answers[i..][0] == answers[i] && answers[i..][1..] == answers[i + 1..];
        if answers[i] != Taken {
          return;
        }
        i := i + 1;
      }
      assert |View().queue| == 0;
    }

    predicate IsTimedOut(now: nat)
      reads this
    {
      var t := match state
        case Void => UINT_MAX
        case Backoff => backoff
        case Connecting => Max(1, backoff)
        case Active => if probe > 0 then Max(lastReceived, entered) + probe - entered else UINT_MAX
        case Idle => probe;
      now >= SatAdd(entered, t)
    }

    method RunOnce(now: nat, a: Answers)
      requires Valid()
      modifies this, txq, set b | b in txq.bufs
      ensures Valid() && View() == Pass(old(View()), now, a)
      ensures forall b :: b in txq.bufs ==> b in old(txq.bufs) || fresh(b)
    {
      hide M.Transition, M.Disconnect, M.Reconnect, M.TxWork, M.Send;
      match state
      case Void =>
      case Backoff =>
        if IsTimedOut(now) {
          Reconnect(now, a.open);
        }
      case Connecting =>
        match a.connect {
          case Connected =>
            StateTransition(Active, now);
            lastConnected := entered;
          case ConnectFailed => Disconnect(now);
          case Pending =>
            if IsTimedOut(now) {
              deadline := TIME_MAX;
              Disconnect(now);
            }
        }
      case Active =>
        if IsTimedOut(now) {
          StateTransition(Idle, now);
          var _ := Send(Packet(0, a.echo, None), now, FirstAnswer(a));
        } else {
          DoTxWork(now, a.sends);
        }
      case Idle =>
        if IsTimedOut(now) {
          Disconnect(now);
        } else {
          DoTxWork(now, a.sends);
        }
    }

    /** `rconn_run`: no more than four passes are ever needed. */
    method Run(now: nat, answers: seq<Answers>) returns (passes: nat)
      requires Valid() && S.Inv(View()) && now < UINT_MAX && |answers| >= 4
      modifies this, txq, set b | b in txq.bufs
      ensures Valid() && S.Inv(View())
      ensures View() == M.Run(old(View()), now, answers) && passes == Passes(old(View()), now, answers) <= 4
      ensures forall b :: b in txq.bufs ==> b in old(txq.bufs) || fresh(b)
    {
      hide S.Inv, Pass, Rank;
      ghost var v0 := View();
      passes := 0;
      S.RunTakesFourPasses(v0, now, answers);
      S.RunWithinRank(v0, now, answers);
      var changed := true;
      while changed
        invariant Valid() && passes <= |answers|
        invariant forall b :: b in txq.bufs ==> b in old(txq.bufs) || fresh(b)
        invariant changed ==> S.RunEnds(View(), now, answers[passes..])
        invariant M.Run(v0, now, answers) == if changed then M.Run(View(), now, answers[passes..]) else View()
        invariant Passes(v0, now, answers) == passes + if changed then Passes(View(), now, answers[passes..]) else 0
        decreases |answers| - passes, changed
      {
        var before := state;
        assert answers[passes..][0] == answers[passes] && answers[passes..][1..] == answers[passes + 1..];
        RunOnce(now, answers[passes]);
        passes := passes + 1;
        changed := state != before;
      }
    }

    method RconnRecv(now: nat, answer: RecvResult)
      requires Valid()
      modifies this, txq
      ensures Valid() && View() == Recv(old(View()), now, answer)
      ensures forall b :: b in txq.bufs ==> b in old(txq.bufs)
    {
      hide M.Transition, M.Disconnect;
      if IsConnected(state) {
        match answer
        case Nothing =>
        case RecvFailed => Disconnect(now);
        case Received(echoReply, xid) =>
          lastReceived := now;
          if state == Idle {
            if echoReply {
              if echoXid == 0 {
                StateTransition(Active, now);
              } else {
                if echoXid == xid {
                  StateTransition(Active, now);
                }
                echoXid := 0;
              }
            } else {
              StateTransition(Active, now);
            }
          }
      }
    }
  }
}
