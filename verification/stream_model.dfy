/**
 * Message framing over a byte stream (lib/vconn-stream.c).  The kernel's answers
 * to read() and write() are parameters, so every short read and every short
 * write is covered.
 */
module StreamModel {
  import opened Options
  import opened Bytes
  import opened MinMax

  const HEADER := 8

  /** The length field of a message header, sent big-endian. */
  function Length(m: seq<Byte>): nat
    requires |m| >= HEADER
  {
    256 * (m[2] as nat) + m[3] as nat
  }

  /** What vconn_send() asserts of a message. */
  predicate Whole(m: seq<Byte>) {
    |m| >= HEADER && Length(m) == |m|
  }

  /** What write() answers; at most the bytes offered are taken. */
  datatype Write = Wrote(n: nat) | WriteBlocked | WriteFailed

  /** What read() answers; at most the bytes asked for, and those there are, are given. */
  datatype Read = Got(n: nat) | End | ReadFailed(errno: int)

  datatype Received = Message(m: seq<Byte>) | Again | Broken | Closed | Error(errno: int)

  /** After a call to receive: the partial message, the bytes not yet read, and the result. */
  datatype Rx = Rx(buf: seq<Byte>, avail: seq<Byte>, got: Received)

  /** After a call to transmit: what is still pending, what went out, and whether it succeeded. */
  datatype Tx = Tx(pending: Option<seq<Byte>>, out: seq<Byte>, ok: bool)

  function Send(pending: Option<seq<Byte>>, m: seq<Byte>, w: Write): Tx {
    if pending.Some? then Tx(pending, [], false)
    else match w
      case Wrote(n) => if n >= |m| then Tx(None, m, true) else Tx(Some(m[n..]), m[..n], true)
      case WriteBlocked => Tx(Some(m), [], true)
      case WriteFailed => Tx(None, [], false)
  }

  function Drain(p: seq<Byte>, w: Write): Tx {
    match w
    case Wrote(n) => if n >= |p| then Tx(None, p, true) else Tx(Some(p[n..]), p[..n], true)
    case WriteBlocked => Tx(Some(p), [], true)
    case WriteFailed => Tx(None, [], false)
  }

  /** How many of the `want` bytes asked for a read delivers. */
  function Amount(avail: seq<Byte>, want: nat, r: Read): nat {
    match r
    case Got(n) => Min(n, Min(want, |avail|))
    case End => 0
    case ReadFailed(_) => 0
  }

  /** What receiving answers when a read does not deliver all it was asked for. */
  function Short(buf: seq<Byte>, r: Read): Received {
    match r
    case Got(_) => Again
    case End => if buf == [] then Closed else Broken
    case ReadFailed(e) => Error(e)
  }

  /** Receiving once the header is there. */
  function RecvBody(buf: seq<Byte>, avail: seq<Byte>, r: Read): Rx
    requires |buf| >= HEADER && (Length(buf) < HEADER || |buf| <= Length(buf))
  {
    if Length(buf) < HEADER then Rx(buf, avail, Broken)
    else if Length(buf) == |buf| then Rx([], avail, Message(buf))
    else
      var want := Length(buf) - |buf|;
      var n := Amount(avail, want, r);
      if n == want then Rx([], avail[n..], Message(buf + avail[..n]))
      else Rx(buf + avail[..n], avail[n..], Short(buf, r))
  }

  /** A call to receive: reads up to the header's end, then up to the message's. */
  function Recv(buf: seq<Byte>, avail: seq<Byte>, r1: Read, r2: Read): Rx
    requires Partial(buf)
  {
    if |buf| >= HEADER then RecvBody(buf, avail, r1)
    else
      var want := HEADER - |buf|;
      var n := Amount(avail, want, r1);
      if n == want then RecvBody(buf + avail[..n], avail[n..], r2)
      else Rx(buf + avail[..n], avail[n..], Short(buf, r1))
  }

  /** A header whose length field is less than the header itself. */
  predicate Stuck(buf: seq<Byte>) {
    |buf| == HEADER && Length(buf) < HEADER
  }

  /** What a receive buffer can hold between calls. */
  predicate Partial(buf: seq<Byte>) {
    |buf| < HEADER || Stuck(buf) || |buf| < Length(buf)
  }
}

/**
 * A sender and a receiver joined by a connection that delivers the bytes
 * written in order, and every run of the two.
 */
module StreamLink {
  import opened Options
  import opened Bytes
  import opened StreamModel

  /**
   * `wire` is all that was ever written, of which the first `read` bytes have been
   * read; `lost` counts the bytes of accepted messages thrown away; `accepted` and
   * `delivered` are the messages that sending took and receiving gave out.
   */
  datatype Link = Link(pending: Option<seq<Byte>>, wire: seq<Byte>, lost: nat, accepted: seq<seq<Byte>>,
                       read: nat, buf: seq<Byte>, delivered: seq<seq<Byte>>)

  datatype Event = DoSend(m: seq<Byte>, w: Write) | DoDrain(w: Write) | DoRecv(r1: Read, r2: Read)

  const IDLE := Link(None, [], 0, [], 0, [], [])

  function Unsent(l: Link): seq<Byte> {
    if l.pending.Some? then l.pending.value else []
  }

  predicate Applies(l: Link, e: Event) {
    match e
    case DoSend(m, _) => Whole(m)
    case DoDrain(_) => l.pending.Some?
    case DoRecv(_, _) => true
  }

  predicate Inv(l: Link) {
    l.read <= |l.wire| && Partial(l.buf) && (l.pending.Some? ==> l.pending.value != [])
  }

  /** What event `e` does.  Every link a run reaches satisfies `Inv`, see `RunKeepsBooks`; others are left alone. */
  function Step(l: Link, e: Event): Link
    requires Applies(l, e)
  {
    match e
    case DoSend(m, w) =>
      var t := Send(l.pending, m, w);
      l.(pending := t.pending, wire := l.wire + t.out, accepted := if t.ok then l.accepted + [m] else l.accepted)
    case DoDrain(w) =>
      var t := Drain(l.pending.value, w);
      l.(pending := t.pending, wire := l.wire + t.out, lost := if t.ok then l.lost else l.lost + |l.pending.value|)
    case DoRecv(r1, r2) =>
      if !Inv(l) then l else
      var r := Recv(l.buf, l.wire[l.read..], r1, r2);
      l.(read := |l.wire| - |r.avail|, buf := r.buf,
      delivered := if r.got.Message? then l.delivered + [r.got.m] else l.delivered)
  }

  ghost predicate IsRun(links: seq<Link>, events: seq<Event>) {
    |links| == |events| + 1 && links[0] == IDLE &&
    forall i: nat :: i < |events| ==> Applies(links[i], events[i]) && links[i + 1] == Step(links[i], events[i])
  }

  /** Some pending message was thrown away because a later write failed. */
  ghost predicate Dropped(events: seq<Event>) {
    exists i: nat :: i < |events| && events[i] == DoDrain(WriteFailed)
  }

  /** The receiver's books: what was read is what was delivered and what it still holds. */
  predicate Tallied(l: Link) {
    Inv(l) && l.wire[..l.read] == Concat(l.delivered) + l.buf && forall m :: m in l.delivered ==> Whole(m)
  }

  /** The sender's books: what was accepted went out, is pending or was lost. */
  predicate Conserved(l: Link) {
    (forall m :: m in l.accepted ==> Whole(m)) && |l.wire| + |Unsent(l)| + l.lost == |Concat(l.accepted)| &&
    (l.lost == 0 ==> l.wire + Unsent(l) == Concat(l.accepted))
  }

  /** `x` took bytes off the front of `avail` and put them in the buffer or the message given out. */
  predicate Moved(buf: seq<Byte>, avail: seq<Byte>, x: Rx) {
    && |x.avail| <= |avail| && x.avail == avail[|avail| - |x.avail|..]
    && buf + avail[..|avail| - |x.avail|] == (if x.got.Message? then x.got.m else []) + x.buf
    && Partial(x.buf) && (x.got.Message? ==> Whole(x.got.m) && x.buf == [])
  }

  /**
   Every call to receive moves bytes; it reports a broken stream only for a bad length or an
   end inside a message.
   */
  lemma RecvMoves(buf: seq<Byte>, avail: seq<Byte>, r1: Read, r2: Read)
    requires Partial(buf)
    ensures var x := Recv(buf, avail, r1, r2);
            Moved(buf, avail, x) && (x.got == Broken ==> Stuck(x.buf) || (x.buf != [] && (r1 == End || r2 == End)))
  {
    hide RecvBody, Moved;
    if |buf| < HEADER {
      var want := HEADER - |buf|;
      var n := Amount(avail, want, r1);
      if n == want {
        BodyMoves(buf + avail[..n], avail[n..], r2);
        MovedFurther(buf, avail, n, RecvBody(buf + avail[..n], avail[n..], r2));
      } else {
        ShortMoves(buf, avail, n, Short(buf, r1));
      }
    } else {
      BodyMoves(buf, avail, r1);
    }
  }

  lemma ShortMoves(buf: seq<Byte>, avail: seq<Byte>, n: nat, got: Received)
    requires n <= |avail| && Partial(buf + avail[..n]) && !got.Message?
    ensures Moved(buf, avail, Rx(buf + avail[..n], avail[n..], got))
  {
  }

  lemma MovedFurther(buf: seq<Byte>, avail: seq<Byte>, n: nat, x: Rx)
    requires n <= |avail| && Moved(buf + avail[..n], avail[n..], x)
    ensures Moved(buf, avail, x)
  {
    hide Partial, Whole;
    var k := |avail[n..]| - |x.avail|;
    assert avail[n..][k..] == avail[n + k..];
    assert avail[..n + k] == avail[..n] + avail[n..][..k];
    assert buf + avail[..n + k] == (buf + avail[..n]) + avail[n..][..k];
  }

  lemma BodyMoves(buf: seq<Byte>, avail: seq<Byte>, r: Read)
    requires |buf| >= HEADER && (Stuck(buf) || |buf| <= Length(buf))
    ensures var x := RecvBody(buf, avail, r);
            Moved(buf, avail, x) && (x.got == Broken ==> Stuck(x.buf) || (x.buf != [] && r == End))
  {
  }

  lemma StepKeepsBooks(l: Link, e: Event)
    requires Tallied(l) && Conserved(l) && Applies(l, e)
    ensures Tallied(Step(l, e)) && Conserved(Step(l, e))
    ensures Step(l, e).lost > 0 <==> l.lost > 0 || e == DoDrain(WriteFailed)
  {
    assert Inv(l);
    hide Tallied, Conserved, Recv, Concat;
    match e
    case DoSend(m, w) =>
      SendKeepsBooks(l, m, w);
    case DoDrain(w) =>
      DrainKeepsBooks(l, w);
    case DoRecv(r1, r2) =>
      RecvKeepsBooks(l, r1, r2);
  }

  lemma DrainKeepsBooks(l: Link, w: Write)
    requires Tallied(l) && Conserved(l) && l.pending.Some?
    ensures Tallied(Step(l, DoDrain(w))) && Conserved(Step(l, DoDrain(w)))
  {
    hide Concat, Whole, Partial;
    var n := Step(l, DoDrain(w));
    var t := Drain(l.pending.value, w);
    WritingKeepsTally(l, n, t.out);
    hide Tallied;
    if t.ok {
      Accepted(l.wire, t.out, Unsent(n), Unsent(l));
    } else {
      assert l.wire + t.out == l.wire;
    }
  }

  lemma SendSplits(pending: Option<seq<Byte>>, m: seq<Byte>, w: Write)
    ensures var t := Send(pending, m, w);
            if t.ok then pending == None && t.out + (if t.pending.Some? then t.pending.value else []) == m
            else t.pending == pending && t.out == []
    ensures var t := Send(pending, m, w); t.pending.Some? && pending == None && m != [] ==> t.pending.value != []
  {
  }

  /** Writing more does not touch the receiver's books. */
  lemma WritingKeepsTally(l: Link, n: Link, out: seq<Byte>)
    requires Tallied(l) && n.wire == l.wire + out && n.read == l.read && n.buf == l.buf && n.delivered == l.delivered
    requires n.pending.Some? ==> n.pending.value != []
    ensures Tallied(n)
  {
    hide Concat, Partial, Whole;
    assert n.wire[..n.read] == l.wire[..l.read];
  }

  lemma SendKeepsBooks(l: Link, m: seq<Byte>, w: Write)
    requires Tallied(l) && Conserved(l) && Whole(m)
    ensures Tallied(Step(l, DoSend(m, w))) && Conserved(Step(l, DoSend(m, w)))
  {
    var n := Step(l, DoSend(m, w));
    var t := Send(l.pending, m, w);
    ConcatPush(l.accepted, m);
    SendSplits(l.pending, m, w);
    assert m != [];
    hide Concat, Partial, Whole, Send;
    assert Inv(l);
    WritingKeepsTally(l, n, t.out);
    hide Tallied, Inv;
    if t.ok {
      Accepted(l.wire, t.out, Unsent(n), m);
    } else {
      assert l.wire + t.out == l.wire;
    }
  }

  lemma Accepted(wire: seq<Byte>, out: seq<Byte>, rest: seq<Byte>, m: seq<Byte>)
    requires out + rest == m
    ensures (wire + out) + rest == wire + m && |wire + out| + |rest| == |wire| + |m|
  {
    assert |m| == |out| + |rest|;
  }

  lemma ReadOn(wire: seq<Byte>, read: nat, done: seq<Byte>, buf: seq<Byte>, x: Rx)
    requires read <= |wire| && wire[..read] == done + buf && Moved(buf, wire[read..], x)
    ensures |x.avail| <= |wire|
    ensures wire[..|wire| - |x.avail|] == (done + if x.got.Message? then x.got.m else []) + x.buf
  {
    hide Partial, Whole;
    var k := |wire[read..]| - |x.avail|;
    assert wire[..read + k] == wire[..read] + wire[read..][..k];
    assert (done + buf) + wire[read..][..k] == done + (buf + wire[read..][..k]);
  }

  lemma SameSender(l: Link, n: Link)
    requires Conserved(l) && n.accepted == l.accepted && n.wire == l.wire && n.pending == l.pending && n.lost == l.lost
    ensures Conserved(n)
  {
  }

  lemma RecvKeepsBooks(l: Link, r1: Read, r2: Read)
    requires Tallied(l) && Conserved(l)
    ensures Tallied(Step(l, DoRecv(r1, r2))) && Conserved(Step(l, DoRecv(r1, r2)))
  {
    var x := Recv(l.buf, l.wire[l.read..], r1, r2);
    RecvMoves(l.buf, l.wire[l.read..], r1, r2);
    ReadOn(l.wire, l.read, Concat(l.delivered), l.buf, x);
    hide Recv, Concat, Partial, Whole, Unsent, Conserved;
    var n := Step(l, DoRecv(r1, r2));
    SameSender(l, n);
    if x.got.Message? {
      ConcatPush(l.delivered, x.got.m);
    } else {
      assert Concat(l.delivered) + [] == Concat(l.delivered);
    }
  }

  /** The books balance after every run, and bytes are lost exactly when a pending message was dropped. */
  lemma {:induction false} RunKeepsBooks(links: seq<Link>, events: seq<Event>)
    requires IsRun(links, events)
    ensures var l := links[|events|]; Tallied(l) && Conserved(l) && (l.lost > 0 <==> Dropped(events))
    decreases |events|
  {
    hide Step, Tallied, Conserved;
    if events != [] {
      var k := |events| - 1;
      RunKeepsBooks(links[..k + 1], events[..k]);
      StepKeepsBooks(links[k], events[k]);
      DroppedSoFar(events[..k], events[k]);
      assert events == events[..k] + [events[k]];
    } else {
      IdleBooks();
    }
  }

  lemma IdleBooks()
    ensures Tallied(IDLE) && Conserved(IDLE)
  {
  }

  lemma DroppedSoFar(before: seq<Event>, e: Event)
    ensures Dropped(before + [e]) <==> Dropped(before) || e == DoDrain(WriteFailed)
  {
    var all := before + [e];
    assert all[|before|] == e;
    if Dropped(before) {
      var i: nat :| i < |before| && before[i] == DoDrain(WriteFailed);
      assert all[i] == before[i];
    }
    if Dropped(all) {
      var i: nat :| i < |all| && all[i] == DoDrain(WriteFailed);
      assert i < |before| ==> before[i] == all[i];
    }
  }

  /** Two streams that begin alike and with whole messages begin with the same message. */
  lemma SameFirst(g: seq<Byte>, x: seq<Byte>, s: seq<Byte>, y: seq<Byte>)
    requires Whole(g) && Whole(s) && g + x <= s + y
    ensures g == s && x <= y
  {
    var all := s + y;
    assert all[..|g|] == (g + x)[..|g|] == g && all[..|s|] == s;
    assert g[2] == all[2] == s[2] && g[3] == all[3] == s[3];
    assert (g + x)[|g|..] == x && all[|g|..] == y;
  }

  /**
   * A stream of whole messages splits into whole messages in one way only: what a
   * receiver cut from the front of it is its first messages, and what it holds
   * back begins the next.
   */
  lemma {:induction false} OneWayToSplit(sent: seq<seq<Byte>>, got: seq<seq<Byte>>, buf: seq<Byte>)
    requires forall m :: m in sent + got ==> Whole(m)
    requires Partial(buf) && Concat(got) + buf <= Concat(sent)
    ensures |got| <= |sent| && got == sent[..|got|] && !Stuck(buf)
    ensures buf <= Concat(sent[|got|..])
    ensures |got| == |sent| ==> buf == []
    ensures |got| < |sent| ==> buf < sent[|got|]
  {
    if got == [] {
      HeldBack(sent, buf);
    } else {
      var g := got[0];
      assert g in sent + got;
      assert Concat(got) + buf == g + (Concat(got[1..]) + buf);
      assert |Concat(sent)| > 0;
      var s := sent[0];
      assert s in sent + got;
      SameFirst(g, Concat(got[1..]) + buf, s, Concat(sent[1..]));
      hide Whole, Partial, Stuck;
      forall m | m in sent[1..] + got[1..]
        ensures Whole(m)
      {
        assert m in sent + got;
      }
      OneWayToSplit(sent[1..], got[1..], buf);
      assert sent[1..][|got| - 1..] == sent[|got|..];
      assert got == [g] + got[1..] && sent[..|got|] == [s] + sent[1..][..|got| - 1];
    }
  }

  lemma HeldBack(sent: seq<seq<Byte>>, buf: seq<Byte>)
    requires forall m :: m in sent ==> Whole(m)
    requires Partial(buf) && buf <= Concat(sent)
    ensures !Stuck(buf) && (sent == [] ==> buf == []) && (sent != [] ==> buf < sent[0])
  {
    if sent != [] {
      var s, all := sent[0], Concat(sent);
      assert s in sent && all[..|s|] == s;
      if |buf| >= HEADER {
        assert buf[2] == all[2] == s[2] && buf[3] == all[3] == s[3];
        assert Length(buf) == |s|;
      }
      assert buf == all[..|buf|] == s[..|buf|];
    }
  }

  /**
   * For every run: as long as no pending message was dropped, and only then, the
   * bytes written and pending are the accepted messages end to end; then the
   * messages delivered are the first ones accepted, in order and unchanged, the
   * receiver holds the start of the next one, and it is never stuck.  Once all
   * is written and read, every accepted message has been delivered.
   */
  lemma DeliveredInOrder(links: seq<Link>, events: seq<Event>)
    requires IsRun(links, events)
    ensures var l := links[|events|];
            && (l.wire + Unsent(l) == Concat(l.accepted) <==> !Dropped(events))
            && (!Dropped(events) ==>
                  && |l.delivered| <= |l.accepted| && l.delivered == l.accepted[..|l.delivered|] && !Stuck(l.buf)
                  && (|l.delivered| < |l.accepted| ==> l.buf < l.accepted[|l.delivered|])
                  && (l.pending == None && l.read == |l.wire| ==> l.delivered == l.accepted && l.buf == []))
  {
    var l := links[|events|];
    RunKeepsBooks(links, events);
    if !Dropped(events) {
      var c := Concat(l.accepted);
      assert l.wire == c[..|l.wire|] && l.wire[..l.read] == c[..l.read];
      assert forall m :: m in l.accepted + l.delivered ==> Whole(m);
      OneWayToSplit(l.accepted, l.delivered, l.buf);
      if l.pending == None && l.read == |l.wire| {
        AllDelivered(l.accepted, |l.delivered|, l.buf);
      }
    }
  }

  lemma AllDelivered(sent: seq<seq<Byte>>, k: nat, buf: seq<Byte>)
    requires k <= |sent| && (forall m :: m in sent ==> Whole(m)) && Concat(sent[..k]) + buf == Concat(sent)
    requires k < |sent| ==> buf < sent[k]
    ensures k == |sent|
  {
    assert k < |sent| ==> |sent[k]| <= |Concat(sent[k..])|;
    ConcatSplit(sent, k);
  }

  /** A dropped message can leave the receiver inside it, taking the next message for its rest. */
  lemma DropBreaksFraming() returns (links: seq<Link>, events: seq<Event>)
    ensures IsRun(links, events) && Dropped(events)
    ensures var l := links[|events|]; |l.accepted| == 2 && |l.delivered| == 1 && l.delivered[0] !in l.accepted
  {
    var a := [1, 0, 0, 16] + seq(12, _ => 0);
    var b := [1, 0, 0, 8] + seq(4, _ => 0);
    events := [DoSend(a, Wrote(8)), DoDrain(WriteFailed), DoSend(b, Wrote(8)), DoRecv(Got(8), Got(8))];
    var l1 := Step(IDLE, events[0]);
    assert l1 == Link(Some(a[8..]), a[..8], 0, [a], 0, [], []);
    var l2 := Step(l1, events[1]);
    assert l2 == Link(None, a[..8], 8, [a], 0, [], []);
    var l3 := Step(l2, events[2]);
    assert l3 == Link(None, a[..8] + b, 8, [a, b], 0, [], []);
    var r := Recv([], l3.wire[0..], Got(8), Got(8));
    assert l3.wire[0..] == a[..8] + b;
    assert [] + (a[..8] + b)[..8] == a[..8] && (a[..8] + b)[8..] == b && b[..8] == b;
    assert r == RecvBody(a[..8], b, Got(8)) == Rx([], [], Message(a[..8] + b));
    var l4 := Step(l3, events[3]);
    assert (a[..8] + b)[8] == 1 && a[8] == 0 && |b| == 8;
    links := [IDLE, l1, l2, l3, l4];
  }
}
