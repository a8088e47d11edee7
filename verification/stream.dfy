/** The stream connection of lib/vconn-stream.c and its socket, updated in place. */
module StreamVconns {
  import opened Options
  import opened Bytes
  import opened MinMax
  import opened StreamModel
  

  /** A connected socket: the bytes the peer sent that were not read yet, and those written to the peer. */
  class Socket {
    var incoming: seq<Byte>
    var outgoing: seq<Byte>

    constructor ()
      ensures incoming == [] && outgoing == []
    {
      incoming, outgoing := [], [];
    }

    /** read(): `data` is what came, and `r` says why it may be less than `want`. */
    method Read(want: nat, r: Read) returns (data: seq<Byte>)
      modifies this`incoming
      ensures var n := Amount(old(incoming), want, r); data == old(incoming)[..n] && incoming == old(incoming)[n..]
    {
      var n := Amount(incoming, want, r);
      data, incoming := incoming[..n], incoming[n..];
    }

    /** write(): how many bytes of `data` were taken, or None for an error or a full socket. */
    method Write(data: seq<Byte>, w: Write) returns (n: Option<nat>)
      modifies this`outgoing
      ensures n == (match w case Wrote(k) => Some(Min(k, |data|)) case WriteBlocked => None case WriteFailed => None)
      ensures outgoing == old(outgoing) + if n.Some? then data[..n.value] else []
    {
      match w {
        case Wrote(k) =>
          n := Some(Min(k, |data|));
          outgoing := outgoing + data[..Min(k, |data|)];
        case WriteBlocked => n := None;
        case WriteFailed => n := None;
      }
    }
  }

  class StreamVconn {
    const fd: Socket
    var rxbuf: Option<seq<Byte>>
    var txbuf: Option<seq<Byte>>
    /** Whether a callback to write the pending bytes is registered. */
    var txWaiter: bool

    ghost predicate Valid()
      reads this
    {
      (rxbuf.Some? ==> Partial(rxbuf.value)) && (txbuf.Some? ==> txbuf.value != []) && (txWaiter <==> txbuf.Some?)
    }

    ghost function Held(): seq<Byte>
      reads this
    {
      if rxbuf.Some? then rxbuf.value else []
    }

    constructor (fd: Socket)
      ensures Valid() && this.fd == fd && Held() == [] && txbuf == None
    {
      this.fd := fd;
      rxbuf, txbuf, txWaiter := None, None, false;
    }

    /** One trip from `again` on: the result, or None when just the header became complete. */
    method Pass(r: Read) returns (got: Option<Received>)
      requires rxbuf.Some? && (Partial(rxbuf.value) || |rxbuf.value| == HEADER)
      modifies this`rxbuf, fd`incoming
      ensures var rx, avail := old(rxbuf).value, old(fd.incoming);
              if |rx| >= HEADER then got.Some? && Rx(Held(), fd.incoming, got.value) == RecvBody(rx, avail, r)
              else
                var n := Amount(avail, HEADER - |rx|, r);
                && rxbuf == Some(rx + avail[..n]) && fd.incoming == avail[n..]
                && got == if n == HEADER - |rx| then None else Some(Short(rx, r))
      ensures got.Some? && rxbuf.Some? ==> Partial(rxbuf.value)
    {
      var rx, want := rxbuf.value, 0;
      if HEADER > |rx| {
        want := HEADER - |rx|;
      } else {
        if Length(rx) < HEADER {
          return Some(Broken);
        }
        want := Length(rx) - |rx|;
        if want == 0 {
          rxbuf := None;
          return Some(Message(rx));
        }
      }
      var data := fd.Read(want, r);
      rxbuf := Some(rx + data);
      if |data| == want {
        if |rx + data| > HEADER {
          rxbuf := None;
          return Some(Message(rx + data));
        } else {
          return None;
        }
      }
      return Some(Short(rx, r));
    }

    /** Receives at most one message, in at most two reads, answered by `r1` and then `r2`. */
    method Recv(r1: Read, r2: Read) returns (got: Received)
      requires Valid()
      modifies this`rxbuf, fd`incoming
      ensures Valid() && Rx(Held(), fd.incoming, got) == StreamModel.Recv(old(Held()), old(fd.incoming), r1, r2)
    {
      if rxbuf.None? {
        rxbuf := Some([]);
      }
      var result := Pass(r1);
      if result.None? {
        result := Pass(r2);
      }
      got := result.value;
    }

    method ClearTxbuf()
      modifies this`txbuf, this`txWaiter
      ensures txbuf == None && !txWaiter
    {
      txbuf, txWaiter := None, false;
    }

    /** The callback that writes pending bytes when the socket has room. */
    method DoTx(w: Write)
      requires Valid() && txbuf.Some?
      modifies this`txbuf, this`txWaiter, fd`outgoing
      ensures Valid()
      ensures var t := Drain(old(txbuf).value, w); txbuf == t.pending && fd.outgoing == old(fd.outgoing) + t.out
    {
      txWaiter := false;
      var data := txbuf.value;
      var n := fd.Write(data, w);
      if n.None? {
        if w != WriteBlocked {
          ClearTxbuf();
          return;
        }
      } else if n.value > 0 {
        txbuf := Some(data[n.value..]);
        if |data| == n.value {
          assert data[..n.value] == data;
          ClearTxbuf();
          return;
        }
      }
      txWaiter := true;
    }

    /** Takes message `m`, all of it or none: what the socket does not take is kept for `DoTx`. */
    method Send(m: seq<Byte>, w: Write) returns (ok: bool)
      requires Valid() && Whole(m)
      modifies this`txbuf, this`txWaiter, fd`outgoing
      ensures Valid()
      ensures var t := StreamModel.Send(old(txbuf), m, w);
              txbuf == t.pending && fd.outgoing == old(fd.outgoing) + t.out && ok == t.ok
    {
      if txbuf.Some? {
        return false;
      }
      var n := fd.Write(m, w);
      if n == Some(|m|) {
        assert m[..|m|] == m;
        return true;
      } else if n.Some? || w == WriteBlocked {
        txbuf := Some(if n.Some? then m[n.value..] else m);
        txWaiter := true;
        return true;
      } else {
        return false;
      }
    }
  }
}
