/**
 What holds over every run of a connection, whatever the vconn answers.
 */
module RconnSafety {
  import opened SatMath
  import Bits
  import opened MinMax
  import opened Options
  import opened RconnModel

  function PacketsOf(fate: seq<Fate>): seq<Packet> {
    seq(|fate|, i requires 0 <= i < |fate| => fate[i].p)
  }

  /** Packets in `q` that name counter `c`. */
  function Naming(q: seq<Packet>, c: nat): nat {
    if q == [] then 0 else (if q[0].counter == Some(c) then 1 else 0) + Naming(q[1..], c)
  }

  lemma {:induction false} NamingAppend(q: seq<Packet>, p: Packet, c: nat)
    ensures Naming(q + [p], c) == Naming(q, c) + if p.counter == Some(c) then 1 else 0
  {
    if q != [] {
      NamingAppend(q[1..], p, c);
      assert (q + [p])[1..] == q[1..] + [p];
    }
  }

  function SentCount(fate: seq<Fate>): nat {
    if fate == [] then 0
    else SentCount(fate[..|fate| - 1]) + if fate[|fate| - 1].Sent? then 1 else 0
  }

  /** Packets that were sent, in the order in which the vconn took them. */
  function SentOf(fate: seq<Fate>): seq<Packet> {
    if fate == [] then []
    else SentOf(fate[..|fate| - 1]) + if fate[|fate| - 1].Sent? then [fate[|fate| - 1].p] else []
  }

  /** Nothing is lost, duplicated or reordered, and every counter counts what is queued for it. */
  ghost predicate Conserved(rc: Rconn) {
    && PacketsOf(rc.fate) + rc.queue == rc.accepted
    && rc.packetsSent == SentCount(rc.fate)
    && forall c: nat :: Counter(rc.counters, c) == Naming(rc.queue, c)
  }

  predicate Consistent(rc: Rconn) {
    && (rc.vconn <==> HasVconn(rc.state))
    && (rc.seqno % 2 == 1 <==> rc.state == Active)
    && rc.maxBackoff >= 1
    && (rc.state == Backoff ==> rc.reliable && rc.backoff >= 1)
  }

  ghost predicate Inv(rc: Rconn) {
    Conserved(rc) && Consistent(rc)
  }

  /** Only the logs, the queue and the counters say what became of packets. */
  ghost predicate SameTraffic(r: Rconn, s: Rconn) {
    && s.queue == r.queue && s.counters == r.counters && s.accepted == r.accepted && s.fate == r.fate
    && s.packetsSent == r.packetsSent
  }

  lemma PopConserves(rc: Rconn, sent: bool)
    requires Conserved(rc) && rc.queue != []
    ensures Conserved(Pop(rc, sent).(packetsSent := rc.packetsSent + if sent then 1 else 0))
  {
    var r := Pop(rc, sent);
    var f := r.fate[|rc.fate|];
    assert r.fate[..|rc.fate|] == rc.fate;
    assert PacketsOf(r.fate) == PacketsOf(rc.fate) + [rc.queue[0]];
    assert rc.queue == [rc.queue[0]] + r.queue;
    forall c: nat ensures Counter(r.counters, c) == Naming(r.queue, c) {
      assert Counter(rc.counters, c) == Naming(rc.queue, c);
    }
  }

  lemma AcceptConserves(rc: Rconn, p: Packet)
    requires Conserved(rc)
    ensures Conserved(Accept(rc, p))
  {
    var r := Accept(rc, p);
    forall c: nat ensures Counter(r.counters, c) == Naming(r.queue, c) {
      assert Counter(rc.counters, c) == Naming(rc.queue, c);
      NamingAppend(rc.queue, p, c);
    }
  }

  lemma {:induction false} FlushConserves(rc: Rconn)
    requires Conserved(rc)
    ensures Conserved(FlushQueue(rc)) && FlushQueue(rc).queue == []
    ensures var r := FlushQueue(rc);
            r == rc.(queue := r.queue, counters := r.counters, fate := r.fate)
    decreases |rc.queue|
  {
    hide Conserved;
    if rc.queue != [] {
      PopConserves(rc, false);
      FlushConserves(Pop(rc, false));
    }
  }

  lemma SameTrafficConserves(r: Rconn, s: Rconn)
    requires SameTraffic(r, s) && Conserved(r)
    ensures Conserved(s)
  {
  }

  lemma TransitionParity(rc: Rconn, s: State, now: nat)
    requires rc.seqno % 2 == 1 <==> rc.state == Active
    ensures Transition(rc, s, now).seqno % 2 == 1 <==> s == Active
  {
  }

  lemma GiveUpKeepsInv(rc: Rconn, now: nat)
    requires Inv(rc)
    ensures Inv(GiveUp(rc, now)) && GiveUp(rc, now).state == Void
  {
    hide Transition;
    TransitionShape(DropVconn(rc).(reliable := false, backoff := 0, deadline := TIME_MIN), Void, now);
    SameTrafficConserves(rc, GiveUp(rc, now));
  }

  lemma TransitionShape(rc: Rconn, s: State, now: nat)
    ensures var r := Transition(rc, s, now); r == rc.(seqno := r.seqno, state := s, entered := now)
    ensures (rc.seqno % 2 == 1 <==> rc.state == Active) ==>
              (Transition(rc, s, now).seqno % 2 == 1 <==> s == Active)
  {
    if rc.seqno % 2 == 1 <==> rc.state == Active {
      TransitionParity(rc, s, now);
    }
  }

  /** A connection that drops waits, or is given up; the wait is never over at once. */
  lemma DisconnectKeepsInv(rc: Rconn, now: nat)
    requires Conserved(rc) && rc.maxBackoff >= 1 && (rc.seqno % 2 == 1 <==> rc.state == Active)
    requires rc.vconn <==> HasVconn(rc.state)
    requires now < UINT_MAX
    ensures var r := Disconnect(rc, now);
            && Inv(r)
            && r.state == (if rc.reliable then Backoff else Void)
            && r.maxBackoff == rc.maxBackoff
            && Rank(r, now) == 0
  {
    hide Transition, Conserved;
    if rc.reliable {
      FlushConserves(DropVconn(rc)) by { SameTrafficConserves(rc, DropVconn(rc)); }
      var r := if HasVconn(rc.state) then FlushQueue(DropVconn(rc)) else rc;
      var b := if now >= r.deadline then 1 else Min(r.maxBackoff, Max(1, 2 * r.backoff));
      var s := r.(backoff := b, deadline := now + b);
      TransitionShape(s, Backoff, now);
      SameTrafficConserves(r, Disconnect(rc, now));
    } else {
      var s := DropVconn(rc).(reliable := false, backoff := 0, deadline := TIME_MIN);
      TransitionShape(s, Void, now);
      SameTrafficConserves(rc, Disconnect(rc, now));
    }
  }

  // ---------- Every entry point ----------

  lemma TrySendKeepsInv(rc: Rconn, now: nat, answer: SendResult)
    requires Inv(rc) && rc.queue != [] && now < UINT_MAX
    ensures var r := TrySend(rc, now, answer);
            && Inv(r) && r.maxBackoff == rc.maxBackoff
            && if answer == SendFailed then Rank(r, now) == 0 && (r.state == Backoff || r.state == Void)
               else r.state == rc.state && r.entered == rc.entered && r.probe == rc.probe
                    && r.lastReceived == rc.lastReceived && r.backoff == rc.backoff
  {
    hide Conserved, Disconnect;
    match answer
    case Taken =>
      PopConserves(rc, true);
      SameTrafficConserves(Pop(rc, true).(packetsSent := rc.packetsSent + 1), TrySend(rc, now, answer));
    case Again => SameTrafficConserves(rc, rc.(echoXid := 0));
    case SendFailed =>
      SameTrafficConserves(rc, rc.(echoXid := 0));
      DisconnectKeepsInv(rc.(echoXid := 0), now);
  }

  lemma {:induction false} TxWorkKeepsInv(rc: Rconn, now: nat, answers: seq<SendResult>)
    requires Inv(rc) && now < UINT_MAX
    ensures var r := TxWork(rc, now, answers);
            && Inv(r) && r.maxBackoff == rc.maxBackoff
            && (r.state != rc.state ==> Rank(r, now) == 0 && (r.state == Backoff || r.state == Void))
    decreases |answers|
  {
    hide Inv, TrySend;
    if rc.queue != [] {
      var a := if answers == [] then Again else answers[0];
      TrySendKeepsInv(rc, now, a);
      if a == Taken {
        TxWorkKeepsInv(TrySend(rc, now, Taken), now, answers[1..]);
      }
    }
  }

  lemma SendKeepsInv(rc: Rconn, p: Packet, now: nat, answer: SendResult)
    requires Inv(rc) && now < UINT_MAX
    ensures var r := Send(rc, p, now, answer);
            && Inv(r) && r.maxBackoff == rc.maxBackoff
            && (r.state != rc.state ==> Rank(r, now) == 0 && (r.state == Backoff || r.state == Void))
  {
    hide Conserved, TrySend;
    if IsConnected(rc.state) {
      AcceptConserves(rc, p);
      if |Accept(rc, p).queue| == 1 {
        TrySendKeepsInv(Accept(rc, p), now, answer);
      }
    }
  }

  lemma ReconnectKeepsInv(rc: Rconn, now: nat, open: OpenResult)
    requires Inv(rc) && !HasVconn(rc.state) && now < UINT_MAX
    ensures var r := Reconnect(rc, now, open);
            Inv(r) && r.maxBackoff == rc.maxBackoff && (r.state == Connecting || Rank(r, now) == 0)
  {
    hide Conserved, Transition, Disconnect;
    match open
    case Opened(reconnectable) =>
      var s := rc.(vconn := true, reliable := rc.reliable && reconnectable, deadline := now + rc.backoff);
      TransitionShape(s, Connecting, now);
      SameTrafficConserves(rc, Reconnect(rc, now, open));
    case Refused =>
      SameTrafficConserves(rc, rc.(deadline := TIME_MAX));
      DisconnectKeepsInv(rc.(deadline := TIME_MAX), now);
  }

  /** A pass keeps the invariant, and changes the state only by using up rank. */
  lemma PassKeepsInv(rc: Rconn, now: nat, a: Answers)
    requires Inv(rc) && now < UINT_MAX
    ensures Inv(Pass(rc, now, a)) && Pass(rc, now, a).maxBackoff == rc.maxBackoff
    ensures Pass(rc, now, a).state != rc.state ==> Rank(Pass(rc, now, a), now) < Rank(rc, now)
  {
    hide Conserved, Transition, Disconnect, Reconnect, TxWork, Send;
    match rc.state
    case Void =>
    case Backoff => if TimedOut(rc, now) { ReconnectKeepsInv(rc, now, a.open); }
    case Connecting =>
      TransitionShape(rc, Active, now);
      SameTrafficConserves(rc, Transition(rc, Active, now).(lastConnected := now));
      DisconnectKeepsInv(rc, now);
      SameTrafficConserves(rc, rc.(deadline := TIME_MAX));
      DisconnectKeepsInv(rc.(deadline := TIME_MAX), now);
    case Active =>
      if TimedOut(rc, now) {
        var r := Transition(rc, Idle, now);
        TransitionShape(rc, Idle, now);
        SameTrafficConserves(rc, r);
        SendKeepsInv(r, Packet(0, a.echo, None), now, FirstAnswer(a));
      } else {
        TxWorkKeepsInv(rc, now, a.sends);
      }
    case Idle =>
      DisconnectKeepsInv(rc, now);
      TxWorkKeepsInv(rc, now, a.sends);
  }

  /** The run ends because a pass left the state alone, not for want of answers. */
  predicate RunEnds(rc: Rconn, now: nat, answers: seq<Answers>)
    decreases |answers|
  {
    answers != [] &&
    (Pass(rc, now, answers[0]).state == rc.state || RunEnds(Pass(rc, now, answers[0]), now, answers[1..]))
  }

  lemma {:induction false} RunWithinRank(rc: Rconn, now: nat, answers: seq<Answers>)
    requires Inv(rc) && now < UINT_MAX
    ensures Inv(Run(rc, now, answers))
    ensures |answers| > Rank(rc, now) ==> RunEnds(rc, now, answers) && Passes(rc, now, answers) <= Rank(rc, now) + 1
    decreases |answers|
  {
    hide Inv, Pass, Rank;
    if answers != [] {
      PassKeepsInv(rc, now, answers[0]);
      var r := Pass(rc, now, answers[0]);
      if r.state != rc.state {
        RunWithinRank(r, now, answers[1..]);
      }
    }
  }

  /** With the clock standing still, whatever the vconn answers, a run ends within four passes. */
  lemma RunTakesFourPasses(rc: Rconn, now: nat, answers: seq<Answers>)
    requires Inv(rc) && now < UINT_MAX && |answers| >= 4
    ensures RunEnds(rc, now, answers) && Passes(rc, now, answers) <= 4
  {
    RunWithinRank(rc, now, answers);
  }

  lemma RecvKeepsInv(rc: Rconn, now: nat, answer: RecvResult)
    requires Inv(rc) && now < UINT_MAX
    ensures Inv(Recv(rc, now, answer))
  {
    hide Conserved, Transition, Disconnect;
    DisconnectKeepsInv(rc, now);
    TransitionShape(rc.(lastReceived := now), Active, now);
    SameTrafficConserves(rc, rc.(lastReceived := now));
    if IsConnected(rc.state) && answer.Received? {
      SameTrafficConserves(rc, Recv(rc, now, answer));
    }
  }

  lemma StepKeepsInv(rc: Rconn, now: nat, c: Call)
    requires Inv(rc) && now < UINT_MAX
    ensures Inv(Step(rc, now, c))
  {
    hide Conserved, Transition, GiveUp, Reconnect;
    match c
    case ConnectCall(open) =>
      GiveUpKeepsInv(rc, now);
      var g := GiveUp(rc, now);
      SameTrafficConserves(g, g.(reliable := true));
      ReconnectKeepsInv(g.(reliable := true), now, open);
    case ConnectUnreliablyCall =>
      GiveUpKeepsInv(rc, now);
      var g := GiveUp(rc, now).(reliable := false, vconn := true, lastConnected := now);
      TransitionShape(g, Active, now);
      SameTrafficConserves(GiveUp(rc, now), ConnectUnreliably(rc, now));
    case DisconnectCall => GiveUpKeepsInv(rc, now);
    case RunCall(answers) => RunWithinRank(rc, now, answers);
    case RecvCall(r) => RecvKeepsInv(rc, now, r);
    case SendCall(p, r) => SendKeepsInv(rc, p, now, r);
  }

  lemma {:induction false} StepAllKeepsInv(rc: Rconn, calls: seq<(nat, Call)>)
    requires Inv(rc) && forall i: nat :: i < |calls| ==> calls[i].0 < UINT_MAX
    ensures Inv(StepAll(rc, calls))
  {
    hide Inv, Step;
    if calls != [] {
      var last := |calls| - 1;
      StepAllKeepsInv(rc, calls[..last]);
      StepKeepsInv(StepAll(rc, calls[..last]), calls[last].0, calls[last].1);
    }
  }

  /** Where in `fate` the sent packets are. */
  function SentAt(fate: seq<Fate>): seq<nat> {
    if fate == [] then []
    else SentAt(fate[..|fate| - 1]) + if fate[|fate| - 1].Sent? then [|fate| - 1] else []
  }

  lemma {:induction false} SentAtAscends(fate: seq<Fate>)
    ensures |SentAt(fate)| == |SentOf(fate)| == SentCount(fate)
    ensures forall i: nat :: i < |SentAt(fate)| ==> SentAt(fate)[i] < |fate| && SentOf(fate)[i] == fate[SentAt(fate)[i]].p
    ensures forall i: nat, j: nat :: i < j < |SentAt(fate)| ==> SentAt(fate)[i] < SentAt(fate)[j]
  {
    if fate != [] {
      SentAtAscends(fate[..|fate| - 1]);
    }
  }

  /**
   The promise to senders, over every run from creation and whatever the vconn
   answers: each counter equals the packets queued for it, every accepted packet
   is sent, flushed or still queued, once and in order, the vconn took packets
   in the order of acceptance, it exists exactly while connecting or connected,
   and the sequence number is odd exactly while the connection is active.
   */
  lemma EveryRun(probe: nat, maxBackoff: nat, start: nat, calls: seq<(nat, Call)>)
    requires forall i: nat :: i < |calls| ==> calls[i].0 < UINT_MAX
    ensures var rc := StepAll(Create(probe, maxBackoff, start), calls);
            && (forall c: nat :: Counter(rc.counters, c) == Naming(rc.queue, c))
            && PacketsOf(rc.fate) + rc.queue == rc.accepted
            && |SentOf(rc.fate)| == rc.packetsSent
            && (exists at: seq<nat> :: InOrder(SentOf(rc.fate), rc.accepted, at))
            && (rc.vconn <==> rc.state == Connecting || rc.state == Active || rc.state == Idle)
            && (rc.seqno % 2 == 1 <==> rc.state == Active)
  {
    var rc := StepAll(Create(probe, maxBackoff, start), calls);
    StepAllKeepsInv(Create(probe, maxBackoff, start), calls);
    SentAtAscends(rc.fate);
    assert InOrder(SentOf(rc.fate), rc.accepted, SentAt(rc.fate));
  }

  /** `at` gives ascending positions of the elements of `s` in `t`. */
  ghost predicate InOrder(s: seq<Packet>, t: seq<Packet>, at: seq<nat>) {
    && |at| == |s|
    && (forall i: nat :: i < |s| ==> at[i] < |t| && s[i] == t[at[i]])
    && (forall i: nat, j: nat :: i < j < |s| ==> at[i] < at[j])
  }

  // ---------- Backing off ----------

  /** The backoff after `k` failures in a row. */
  function BackoffAfter(k: nat, maxBackoff: nat): nat {
    if k == 0 then 0 else Min(maxBackoff, Bits.Pow2(k - 1))
  }

  /**
   This pass finds that opening fails, that connecting takes too long, or that it is refused
   before the deadline.
   */
  predicate Fails(rc: Rconn, now: nat, a: Answers) {
    || (rc.state == Backoff && TimedOut(rc, now) && a.open == Refused)
    || (rc.state == Connecting && a.connect == Pending && TimedOut(rc, now))
    || (rc.state == Connecting && a.connect == ConnectFailed && now < rc.deadline)
  }

  /** Connecting is refused only after the deadline, a whole backoff after it was tried. */
  predicate FailsLate(rc: Rconn, now: nat, a: Answers) {
    rc.state == Connecting && a.connect == ConnectFailed && now >= rc.deadline
  }

  /** The failures in a row after `passes`, given `k` before them; a late one starts the count again. */
  function Streak(rc: Rconn, passes: seq<(nat, Answers)>, k: nat): nat
    decreases |passes|
  {
    if passes == [] then k
    else
      var (now, a) := passes[0];
      Streak(Pass(rc, now, a), passes[1..], if Fails(rc, now, a) then k + 1 else if FailsLate(rc, now, a) then 1 else k)
  }

  function PassAll(rc: Rconn, passes: seq<(nat, Answers)>): Rconn
    decreases |passes|
  {
    if passes == [] then rc
    else
      var (now, a) := passes[0];
      PassAll(Pass(rc, now, a), passes[1..])
  }

  /** Passes during which the connection never comes up, each with its time; what opens is reconnectable. */
  ghost predicate NeverComesUp(passes: seq<(nat, Answers)>) {
    forall i: nat :: i < |passes| ==>
      && passes[i].0 < TIME_MAX && passes[i].1.connect != Connected && passes[i].1.open != Opened(false)
  }

  lemma FlushKeepsRest(rc: Rconn)
    ensures var r := FlushQueue(rc); r == rc.(queue := r.queue, counters := r.counters, fate := r.fate)
    decreases |rc.queue|
  {
  }

  /**
   While the connection is down a failure doubles the backoff up to the maximum, a late one
   resets it, and nothing else changes it.
   */
  lemma PassBacksOff(rc: Rconn, now: nat, a: Answers)
    requires rc.reliable && (rc.state == Backoff || rc.state == Connecting) && rc.maxBackoff >= 1
    requires now < TIME_MAX && a.connect != Connected && a.open != Opened(false)
    ensures var r := Pass(rc, now, a);
            && r.reliable && (r.state == Backoff || r.state == Connecting) && r.maxBackoff == rc.maxBackoff
            && r.backoff == if Fails(rc, now, a) then Min(rc.maxBackoff, Max(1, 2 * rc.backoff))
                            else if FailsLate(rc, now, a) then 1 else rc.backoff
  {
    FlushKeepsRest(DropVconn(rc.(deadline := TIME_MAX)));
    FlushKeepsRest(DropVconn(rc));
  }

  lemma BackoffNext(k: nat, maxBackoff: nat)
    requires maxBackoff >= 1
    ensures Min(maxBackoff, Max(1, 2 * BackoffAfter(k, maxBackoff))) == BackoffAfter(k + 1, maxBackoff)
    ensures BackoffAfter(1, maxBackoff) == 1
  {
    assert Bits.Pow2(k) == if k == 0 then 1 else 2 * Bits.Pow2(k - 1);
    assert Bits.Pow2(0) == 1;
  }

  /**
   After `k` failures in a row, however long the waits between them, the backoff is 2^(k-1), at
   most the maximum.
   */
  lemma {:induction false} BackoffDoubles(rc: Rconn, passes: seq<(nat, Answers)>, k: nat)
    requires rc.reliable && (rc.state == Backoff || rc.state == Connecting) && rc.maxBackoff >= 1
    requires rc.backoff == BackoffAfter(k, rc.maxBackoff) && NeverComesUp(passes)
    ensures PassAll(rc, passes).backoff == BackoffAfter(Streak(rc, passes, k), rc.maxBackoff)
    decreases |passes|
  {
    hide Pass, Fails, FailsLate;
    if passes != [] {
      var (now, a) := passes[0];
      assert now < TIME_MAX && a.connect != Connected && a.open != Opened(false);
      PassBacksOff(rc, now, a);
      BackoffNext(k, rc.maxBackoff);
      var k1 := if Fails(rc, now, a) then k + 1 else if FailsLate(rc, now, a) then 1 else k;
      assert forall i: nat :: i < |passes| - 1 ==> passes[1..][i] == passes[i + 1];
      BackoffDoubles(Pass(rc, now, a), passes[1..], k1);
    }
  }
}
