/**
 * A DHCP message's options in place, and the packet they are written to (lib/dhcp.c).
 */
module DhcpMessages {
  import opened Options
  import opened Bytes
  import opened DhcpCodec
  import opened DhcpMemory
  import opened DhcpOptions

  class DhcpMsg {
    const options: array<Slot>
    var data: array?<Byte>
    var used: nat

    ghost predicate Ready()
      reads this, data
    {
      options.Length == N_OPTIONS && (if data == null then used == 0 else used <= data.Length)
    }

    /** The slots point into the block, and it was used for at least what they hold. */
    ghost predicate Valid()
      reads this, data, options
    {
      Ready() && AllWithin(options[..], used) && Total(options[..]) <= used &&
      options[PAD].data == None && options[END].data == None &&
      (data == null ==> forall c: nat :: c < N_OPTIONS ==> options[c].data == None)
    }

    ghost function Block(): (b: seq<Byte>)
      requires Ready()
      reads this, data
      ensures |b| == used
    {
      if data == null then [] else data[..used]
    }

    ghost function View(): (m: Msg)
      requires Valid()
      reads this, data, options
      ensures Sound(m)
    {
      Msg(data != null, Contents(Block(), options[..]))
    }

    function Capacity(): nat
      reads this
    {
      if data == null then 0 else data.Length
    }

    ghost function Layout(): Memory
      reads this, options
    {
      Memory(options[..], used, if data == null then None else Some(data.Length))
    }

    constructor ()
      ensures Valid() && View() == NoOptions() && Layout() == NoMemory() && data == null && fresh(options)
    {
      options := new Slot[N_OPTIONS](_ => Slot(None, 0));
      data, used := null, 0;
      new;
      NothingHeld(options[..]);
    }

    /** A copy of `src`, in a block of its own that holds just what `src` holds. */
    constructor Copy(src: DhcpMsg)
      requires src.Valid()
      ensures Valid() && fresh(options) && data != null && fresh(data)
      ensures View().opts == src.View().opts && used == Total(src.options[..])
    {
      var slots, block := src.options[..], if src.data == null then [] else src.data[..src.used];
      options := new Slot[N_OPTIONS](c requires 0 <= c < |slots| => slots[c]);
      data, used := new Byte[src.used], 0;
      new;
      assert options[..] == slots;
      CopyData(block);
    }

    /** Copies `v` to the end of the block and says where it is. */
    method AppendData(v: seq<Byte>) returns (p: Option<nat>)
      requires Ready() && used + |v| <= Capacity()
      modifies this`used, data
      ensures Ready() && p == (if data == null then None else Some(old(used)))
      ensures Block() == old(Block()) + v
    {
      if data == null {
        return None;
      }
      forall i | 0 <= i < |v| {
        data[used + i] := v[i];
      }
      p := Some(used);
      used := used + |v|;
    }

    /** Moves what the slots hold in the old block `from` to the block, packed in order of code. */
    method CopyData(from: seq<Byte>)
      requires Ready() && data != null && AllWithin(options[..], |from|) && Total(options[..]) <= data.Length
      modifies this`used, data, options
      ensures Ready() && used == Total(options[..]) == old(Total(options[..])) && AllWithin(options[..], used)
      ensures Contents(Block(), options[..]) == old(Contents(from, options[..]))
      ensures forall c: nat :: c < N_OPTIONS ==> (options[c].data.None? <==> old(options[c]).data.None?)
      ensures options[..] == Packed(old(options[..]), 0)
    {
      used := 0;
      ghost var slots := options[..];
      for code := 0 to N_OPTIONS
        invariant Ready() && forall c: nat :: code <= c < N_OPTIONS ==> options[c] == slots[c]
        invariant used == Total(slots[..code]) && Total(options[..code]) == used
        invariant Moved(Block(), options[..code], from, slots[..code])
        invariant options[..code] == Packed(slots[..code], 0)
      {
        CopyOne(code, from, slots);
      }
      assert options[..N_OPTIONS] == options[..] && slots[..N_OPTIONS] == slots;
    }

    method CopyOne(code: nat, from: seq<Byte>, ghost slots: seq<Slot>)
      requires Ready() && data != null && code < N_OPTIONS == |slots| && AllWithin(slots, |from|) && Total(slots) <= data.Length
      requires (forall c: nat :: code <= c < N_OPTIONS ==> options[c] == slots[c]) && used == Total(slots[..code]) == Total(options[..code])
      requires Moved(Block(), options[..code], from, slots[..code]) && options[..code] == Packed(slots[..code], 0)
      modifies this`used, data, options
      ensures Ready() && forall c: nat :: code + 1 <= c < N_OPTIONS ==> options[c] == slots[c]
      ensures used == Total(slots[..code + 1]) == Total(options[..code + 1])
      ensures Moved(Block(), options[..code + 1], from, slots[..code + 1])
      ensures options[..code + 1] == Packed(slots[..code + 1], 0)
    {
      hide Total, Moved, AllWithin, Contents, Packed;
      ghost var done, block := options[..code], Block();
      TotalSplit(slots, code);
      TotalPush(slots[..code], slots[code]);
      PackedPush(slots[..code], slots[code], 0);
      OneWithin(slots, code, |from|);
      assert slots[..code + 1] == slots[..code] + [slots[code]];
      var opt := options[code];
      if opt.data.Some? {
        var v := from[opt.data.value..opt.data.value + opt.n];
        var p := AppendData(v);
        MovedOne(block, v, done, from, slots[..code], opt, Slot(p, opt.n));
        TotalPush(done, Slot(p, opt.n));
        options[code] := Slot(p, opt.n);
      } else {
        MovedOne(block, [], done, from, slots[..code], opt, opt);
        TotalPush(done, opt);
        assert block + [] == block;
      }
      assert options[..code + 1] == done + [options[code]];
    }

    /** Replaces the block by one of `size` bytes. */
    method Grow(size: nat)
      requires Valid() && used <= size
      modifies this`data, this`used, options
      ensures Valid() && data != null && fresh(data) && data.Length == size && View().opts == old(View().opts)
      ensures var m := old(Layout());
              && options[..] == (if m.size.None? then m.slots else Packed(m.slots, 0))
              && used == if m.size.None? then m.used else Total(m.slots)
    {
      ghost var slots := options[..];
      var fromBlock, had := if data == null then [] else data[..used], data != null;
      data := new Byte[size];
      if had {
        CopyData(fromBlock);
      } else {
        assert Contents(Block(), options[..]) == Contents(fromBlock, slots);
      }
    }

    /** Makes room for `n` more bytes. */
    method PreallocData(n: nat)
      requires Valid()
      modifies this`data, this`used, options
      ensures Valid() && used + n <= Capacity() && View().opts == old(View().opts)
      ensures Layout() == Grown(old(Layout()), n)
      ensures data != null <==> old(data) != null || n > 0
      ensures if old(used) + n <= old(Capacity()) then data == old(data) && Block() == old(Block()) else fresh(data)
    {
      hide Total, Contents, Packed;
      var needed := used + n;
      if needed > Capacity() {
        Grow(if needed * 2 > 64 then needed * 2 else 64);
      }
    }

    method Read(p: nat, n: nat) returns (v: seq<Byte>)
      requires Ready() && p + n <= used
      ensures v == Block()[p..p + n]
    {
      v := if data == null then [] else data[..used][p..p + n];
    }

    /** Copies option `code` to the end of the block, unless it is there. */
    method MoveToEnd(code: nat)
      requires Valid() && code < N_OPTIONS && options[code].n > 0 && used + options[code].n <= Capacity()
      modifies this`used, data, options
      ensures Valid() && View() == old(View()) && options[code].n == old(options[code].n)
      ensures options[code].data == Some(used - options[code].n) && used <= old(used) + options[code].n
      ensures Layout() == AtEnd(old(Layout()), code) && old(Block()) <= Block()
    {
      var opt := options[code];
      ghost var slots, block := options[..], Block();
      assert Within(slots[code], |block|);
      var p := opt.data.value;
      if used - opt.n != p {
        var v := Read(p, opt.n);
        var q := AppendData(v);
        Relocated(block, slots, code);
        TotalUpdate(slots, code, Slot(q, opt.n));
        hide Total, Contents;
        options[code] := Slot(q, opt.n);
        assert options[..] == slots[code := Slot(q, opt.n)];
      }
    }

    /** Appends `v` to option `code`, which is empty or at the end of the block. */
    method Extend(code: nat, v: seq<Byte>)
      requires Valid() && code < N_OPTIONS && code != PAD && code != END && used + |v| <= Capacity()
      requires options[code].n == 0 || options[code].data == Some(used - options[code].n)
      modifies this`used, data, options
      ensures Valid() && View() == DhcpOptions.Put(old(View()), code, v)
      ensures Layout() == Lengthened(old(Layout()), code, |v|) && old(Block()) <= Block()
    {
      hide Total, Contents, AllWithin, DhcpOptions.Put;
      ghost var slots, block := options[..], Block();
      var opt := options[code];
      OneWithin(slots, code, used);
      var p := AppendData(v);
      if opt.n > 0 {
        p := opt.data;
      }
      options[code] := Slot(p, opt.n + |v|);
      assert options[..] == slots[code := Slot(p, opt.n + |v|)];
      ExtendedPut(block, slots, data != null, code, p, v);
      TotalUpdate(slots, code, options[code]);
    }

    /** Appends `v` to option `code`, for which there is room. */
    method PutInRoom(code: nat, v: seq<Byte>)
      requires Valid() && code < N_OPTIONS && code != PAD && code != END && Roomy(Layout(), code, |v|)
      modifies this`used, data, options
      ensures Valid() && View() == DhcpOptions.Put(old(View()), code, v)
      ensures Layout() == Lengthened(AtEnd(old(Layout()), code), code, |v|) && old(Block()) <= Block()
    {
      hide Total, Contents, AllWithin, DhcpMsg.View, DhcpOptions.Put, Lengthened;
      if options[code].n > 0 {
        MoveToEnd(code);
      }
      Extend(code, v);
    }

    /** Appends `v` to option `code`, in place if the option is the last thing in the block. */
    method Put(code: nat, v: seq<Byte>)
      requires Valid() && code < N_OPTIONS
      modifies this`data, this`used, data, options
      ensures Valid() && View() == DhcpOptions.Put(old(View()), code, v)
      ensures Layout() == PutMemory(old(Layout()), code, |v|)
      ensures if code == PAD || code == END || old(Roomy(Layout(), code, |v|)) then data == old(data) && old(Block()) <= Block()
              else fresh(data)
    {
      hide Grown, AtEnd, Lengthened, DhcpMsg.Valid, DhcpMsg.View;
      if code == PAD || code == END {
        return;
      }
      PutPlain(code, v);
    }

    method PutPlain(code: nat, v: seq<Byte>)
      requires Valid() && code < N_OPTIONS && code != PAD && code != END
      modifies this`data, this`used, data, options
      ensures Valid() && View() == DhcpOptions.Put(old(View()), code, v)
      ensures Layout() == PutMemory(old(Layout()), code, |v|)
      ensures if old(Roomy(Layout(), code, |v|)) then data == old(data) && old(Block()) <= Block() else fresh(data)
    {
      hide Grown, AtEnd, Lengthened, DhcpOptions.Put, DhcpMsg.Valid, DhcpMsg.View;
      ghost var m := View();
      SlotLength(code);
      PreallocData(|v| + options[code].n);
      SlotLength(code);
      PutGrown(m, View(), code, v);
      PutInRoom(code, v);
    }

    /** The bytes from `p` on lie in `buf`, and below what is used of the block if that is where they are. */
    ghost predicate Readable(buf: array?<Byte>, p: nat, left: nat)
      reads this
    {
      left > 0 ==> buf != null && p + left <= buf.Length && (buf == data ==> p + left <= used)
    }

    ghost function Span(buf: array?<Byte>, p: nat, left: nat): (d: seq<Byte>)
      requires Readable(buf, p, left)
      reads this, buf
      ensures |d| == left
    {
      if left == 0 then [] else buf[p..p + left]
    }

    /** `d` is at `p` in `buf`; `own` tells that this is the block, unless nothing is left. */
    ghost predicate Source(buf: array?<Byte>, p: nat, d: seq<Byte>, own: bool)
      reads this, buf
    {
      Readable(buf, p, |d|) && Span(buf, p, |d|) == d && (d != [] ==> (own <==> buf == data))
    }

    /** With `d` at `p` still to be read, the goal will be met. */
    ghost predicate OnTheWay(buf: array?<Byte>, p: nat, d: seq<Byte>, offset: nat, own: bool, goal: Goal)
      reads this, data, options, buf
    {
      Valid() && Source(buf, p, d, own) && Ahead(View(), Layout(), d, offset, own, goal)
    }

    lemma SourceAt(buf: array?<Byte>, p: nat, d: seq<Byte>, own: bool)
      requires Source(buf, p, d, own)
      ensures d != [] ==> buf != null && p + |d| <= buf.Length && buf[p] == d[0] && (|d| > 1 ==> buf[p + 1] == d[1])
      ensures forall k: nat :: k <= |d| ==> Source(buf, p + k, d[k..], own)
    {
      forall k: nat | k <= |d|
        ensures Source(buf, p + k, d[k..], own)
      {
        if k < |d| {
          assert buf[p + k..p + |d|] == buf[p..p + |d|][k..];
        }
      }
    }

    /** Where reading stands: it stops here, a pad follows, or a whole option. */
    lemma Standing(buf: array?<Byte>, p: nat, d: seq<Byte>, offset: nat, own: bool, goal: Goal)
      requires OnTheWay(buf, p, d, offset, own, goal)
      ensures Valid() && IsOffset(offset) && options.Length == N_OPTIONS
      ensures d != [] ==> buf != null && p + |d| <= buf.Length && buf[p] == d[0] && (|d| > 1 ==> buf[p + 1] == d[1])
      ensures Stops(d) ==> View() == goal.msg && Layout() == goal.memory && (own ==> goal.undisturbed)
      ensures d != [] && d[0] as nat == PAD ==> OnTheWay(buf, p + 1, d[1..], offset, own, goal)
    {
      SourceAt(buf, p, d, own);
      AheadStops(View(), Layout(), d, offset, own, goal);
      if d != [] && d[0] as nat == PAD {
        AheadOfPad(View(), Layout(), d, offset, own, goal);
      }
    }

    lemma AtOption(buf: array?<Byte>, p: nat, d: seq<Byte>, offset: nat, own: bool, goal: Goal)
      requires OnTheWay(buf, p, d, offset, own, goal) && |d| >= 2 && Plain(d[0]) && |d| - 2 >= d[1] as nat
      ensures Source(buf, p + 2, d[2..], own) && Sound(View()) && d[0] as nat + offset < N_OPTIONS == |Layout().slots|
      ensures var n := d[1] as nat;
              var code := d[0] as nat + offset;
              if own && |d| > 2 && !Roomy(Layout(), code, n) then !goal.undisturbed
              else Ahead(DhcpOptions.Put(View(), code, d[2..][..n]), PutMemory(Layout(), code, n), d[2..][n..], offset, own, goal)
    {
      SourceAt(buf, p, d, own);
      AheadOfOption(View(), Layout(), d, offset, own, goal);
      var n := d[1] as nat;
      assert d[2..][..n] == d[2..2 + n] && d[2..][n..] == d[2 + n..];
    }

    lemma SetOut(buf: array?<Byte>, p: nat, d: seq<Byte>, offset: nat, own: bool, goal: Goal)
      requires Valid() && IsOffset(offset) && Readable(buf, p, |d|) && d == Span(buf, p, |d|)
      requires |Layout().slots| == N_OPTIONS && own == (d != [] && buf == data)
      requires goal == Goal(Parse(View(), d, offset), ParseMemory(Layout(), d, offset), Undisturbed(Layout(), d, offset))
      ensures OnTheWay(buf, p, d, offset, own, goal)
    {
    }

    lemma Arrived(buf: array?<Byte>, p: nat, d: seq<Byte>, offset: nat, own: bool, m: Msg, l: Memory, goal: Goal)
      requires Valid() && Source(buf, p, d, own) && View() == m && Layout() == l && Ahead(m, l, d, offset, own, goal)
      ensures OnTheWay(buf, p, d, offset, own, goal)
    {
    }

    method IsRoomy(code: nat, n: nat) returns (r: bool)
      requires Valid() && code < N_OPTIONS
      ensures r == Roomy(Layout(), code, n)
    {
      r := used + n + options[code].n <= Capacity();
    }

    /** Adds the `n` bytes at `p` to option `code`; what follows them can then still be read. */
    method PutFrom(code: nat, buf: array?<Byte>, p: nat, n: nat, own: bool, ghost d: seq<Byte>)
      requires Valid() && code < N_OPTIONS && Source(buf, p, d, own) && n <= |d|
      requires own && d != [] ==> Roomy(Layout(), code, n)
      modifies this`data, this`used, data, options
      ensures Valid() && Source(buf, p + n, d[n..], own) && (data == old(data) || fresh(data))
      ensures View() == DhcpOptions.Put(old(View()), code, d[..n]) && Layout() == PutMemory(old(Layout()), code, n)
    {
      hide DhcpMsg.Valid, DhcpMsg.View, DhcpOptions.Put, PutMemory, Roomy, DhcpMsg.Source;
      SlotLength(code);
      SourceBytes(buf, p, d, own);
      ghost var block := Block();
      var v := [];
      if n > 0 {
        v := buf[p..p + n];
        assert v == d[..n];
      }
      Put(code, v);
      SlotLength(code);
      StillSource(buf, p, n, d, own, block);
    }

    /** What a source says, of the block if it is that. */
    lemma SourceBytes(buf: array?<Byte>, p: nat, d: seq<Byte>, own: bool)
      requires Ready() && Source(buf, p, d, own)
      ensures d != [] ==> buf != null && p + |d| <= buf.Length && buf[p..p + |d|] == d && (own <==> buf == data)
      ensures d != [] && own ==> p + |d| <= used && Block()[p..p + |d|] == d
    {
    }

    lemma StillSource(buf: array?<Byte>, p: nat, n: nat, d: seq<Byte>, own: bool, block: seq<Byte>)
      requires Ready() && n <= |d| && (d != [] ==> buf != null && p + |d| <= buf.Length)
      requires d != [] && own ==> buf == data && block <= Block() && p + |d| <= |block| && block[p..p + |d|] == d
      requires d != [] && !own ==> buf != data && buf[p..p + |d|] == d
      ensures Source(buf, p + n, d[n..], own)
    {
      if n < |d| {
        if own {
          assert buf[p..p + |d|] == Block()[p..p + |d|] == block[p..p + |d|];
        }
        assert buf[p + n..p + |d|] == buf[p..p + |d|][n..];
      }
    }

    /**
     * Reads `size` bytes of options from `start` on in `buf`, until END or an option that does
     * not fit.  `stale` tells that `buf` is the message's own block and was given up while
     * there was more to read in it: the source then reads memory that it has freed, and
     * reading ends here.
     */
    method ParseOptions(buf: array?<Byte>, start: nat, size: nat, offset: nat) returns (stale: bool)
      requires Valid() && IsOffset(offset) && Readable(buf, start, size)
      modifies this`data, this`used, data, options
      ensures Valid() && (data == old(data) || fresh(data))
      ensures var d := old(Span(buf, start, size));
              && (stale <==> size > 0 && buf == old(data) && !Undisturbed(old(Layout()), d, offset))
              && (!stale ==> View() == Parse(old(View()), d, offset) && Layout() == ParseMemory(old(Layout()), d, offset))
    {
      hide DhcpMsg.Valid, DhcpMsg.View, DhcpMsg.Layout, DhcpMsg.OnTheWay, Parse, ParseMemory, Undisturbed;
      SlotLength(0);
      var p, left, own, done := start, size, size > 0 && buf == data, false;
      ghost var d := Span(buf, start, size);
      ghost var goal := Goal(Parse(View(), d, offset), ParseMemory(Layout(), d, offset), Undisturbed(Layout(), d, offset));
      SetOut(buf, p, d, offset, own, goal);
      stale := false;
      while !done && !stale
        invariant Valid() && (data == old(data) || fresh(data)) && left == |d|
        invariant if stale then own && !goal.undisturbed else OnTheWay(buf, p, d, offset, own, goal)
        invariant done && !stale ==> View() == goal.msg && Layout() == goal.memory && (own ==> goal.undisturbed)
        decreases left, if done || stale then 0 else 1
      {
        p, left, done, stale, d := ReadOption(buf, p, left, offset, own, d, goal);
      }
    }

    /** One trip around the loop. */
    method ReadOption(buf: array?<Byte>, p: nat, left: nat, offset: nat, own: bool, ghost d: seq<Byte>, ghost goal: Goal)
      returns (p': nat, left': nat, done: bool, stale: bool, ghost d': seq<Byte>)
      requires OnTheWay(buf, p, d, offset, own, goal) && left == |d|
      modifies this`data, this`used, data, options
      ensures Valid() && (data == old(data) || fresh(data)) && left' == |d'| <= left && (left' < left || done || stale)
      ensures if stale then own && !goal.undisturbed else OnTheWay(buf, p', d', offset, own, goal)
      ensures done && !stale ==> View() == goal.msg && Layout() == goal.memory && (own ==> goal.undisturbed)
    {
      hide DhcpMsg.Valid, DhcpMsg.View, DhcpMsg.OnTheWay, DhcpMsg.Layout;
      Standing(buf, p, d, offset, own, goal);
      p', left', done, stale, d' := p, left, true, false, d;
      if left == 0 || buf[p] as nat == END {
      } else if buf[p] as nat == PAD {
        p', left', done, d' := p + 1, left - 1, false, d[1..];
      } else if left > 1 && left - 2 >= buf[p + 1] as nat {
        done := false;
        p', left', stale, d' := TakeOption(buf, p, left, offset, own, d, goal);
      }
    }

    /** Adds the option at `p`, unless that gives up a block in which there is more to read. */
    method TakeOption(buf: array<Byte>, p: nat, left: nat, offset: nat, own: bool, ghost d: seq<Byte>, ghost goal: Goal)
      returns (p': nat, left': nat, stale: bool, ghost d': seq<Byte>)
      requires OnTheWay(buf, p, d, offset, own, goal) && left == |d| >= 2 && Plain(d[0]) && left - 2 >= d[1] as nat
      modifies this`data, this`used, data, options
      ensures Valid() && (data == old(data) || fresh(data)) && left' == |d'| <= left && (left' < left || stale)
      ensures if stale then own && !goal.undisturbed else OnTheWay(buf, p', d', offset, own, goal)
    {
      hide DhcpMsg.Valid, DhcpMsg.View, DhcpMsg.OnTheWay, DhcpMsg.Source, DhcpMsg.Layout;
      hide Ahead, Stops, Roomy, PutMemory, DhcpOptions.Put;
      Standing(buf, p, d, offset, own, goal);
      AtOption(buf, p, d, offset, own, goal);
      var code, n := buf[p] as nat + offset, buf[p + 1] as nat;
      ghost var rest := d[2..];
      p', left', stale, d' := p, left, false, d;
      var roomy := IsRoomy(code, n);
      if own && left > 2 && !roomy {
        stale := true;
      } else {
        ghost var m, l := DhcpOptions.Put(View(), code, rest[..n]), PutMemory(Layout(), code, n);
        PutFrom(code, buf, p + 2, n, own, rest);
        p', left', d' := p + 2 + n, left - 2 - n, rest[n..];
        Arrived(buf, p', d', offset, own, m, l, goal);
      }
    }

    /** Reads the vendor's options from the value of the option that carries them, in the block itself. */
    method ParseVendor() returns (stale: bool)
      requires Valid()
      modifies this`data, this`used, data, options
      ensures Valid() && (data == old(data) || fresh(data))
      ensures var d := old(Value(View().opts[VENDOR_SPECIFIC]));
              && (stale <==> !Undisturbed(old(Layout()), d, VENDOR_OFS))
              && (!stale ==> View() == Parse(old(View()), d, VENDOR_OFS) && Layout() == ParseMemory(old(Layout()), d, VENDOR_OFS))
    {
      hide DhcpMsg.Valid, DhcpMsg.View, Parse, ParseMemory;
      SlotLength(VENDOR_SPECIFIC);
      SlotSpan(VENDOR_SPECIFIC);
      var opt := options[VENDOR_SPECIFIC];
      stale := ParseOptions(data, if opt.data.Some? then opt.data.value else 0, opt.n, VENDOR_OFS);
    }

    /** The option's value is what its slot points to. */
    lemma SlotSpan(code: nat)
      requires Valid() && code < N_OPTIONS
      ensures var s := options[code];
              var p := if s.data.Some? then s.data.value else 0;
              Readable(data, p, s.n) && Span(data, p, s.n) == Value(View().opts[code])
    {
      assert Within(options[..][code], used);
    }

    /** Reads all the options of a packet into a new message. */
    method ParsePacket(packet: array<Byte>, width: nat)
      requires Valid() && View() == NoOptions() && Layout() == NoMemory() && data == null
      requires packet.Length >= HEADER && width >= COOKIE_LEN
      modifies this`data, this`used, data, options
      ensures Valid() && (data == old(data) || fresh(data))
      ensures View() == Received(packet[..], width) && Layout() == ReceivedMemory(packet[..], width)
    {
      hide DhcpMsg.Valid, DhcpMsg.View, Parse, ParseMemory, Undisturbed, NoOptions, NoMemory, Overloaded, OverloadedMemory;
      ghost var b := packet[..];
      if packet.Length >= HEADER + width {
        assert b[HEADER..HEADER + COOKIE_LEN] == packet[HEADER..HEADER + COOKIE_LEN];
        assert b[HEADER + width..] == b[HEADER + width..packet.Length];
        if packet[HEADER..HEADER + COOKIE_LEN] == COOKIE {
          ReadFrom(packet, HEADER + width, packet.Length - HEADER - width);
        }
      }
      ParseOverloaded(packet);
    }

    /** Reads options from a packet, which is no part of the message. */
    method ReadFrom(packet: array<Byte>, start: nat, size: nat)
      requires Valid() && data != packet && start + size <= packet.Length
      modifies this`data, this`used, data, options
      ensures Valid() && (data == old(data) || fresh(data))
      ensures var d := packet[..][start..start + size];
              View() == Parse(old(View()), d, 0) && Layout() == ParseMemory(old(Layout()), d, 0)
    {
      hide DhcpMsg.Valid, DhcpMsg.View, Parse, ParseMemory, Undisturbed;
      SlotLength(0);
      assert packet[..][start..start + size] == Span(packet, start, size);
      var _ := ParseOptions(packet, start, size, 0);
    }

    method ParseOverloaded(packet: array<Byte>)
      requires Valid() && data != packet && packet.Length >= HEADER
      modifies this`data, this`used, data, options
      ensures Valid() && (data == old(data) || fresh(data))
      ensures var b, v := packet[..], Value(old(View().opts[OVERLOAD]));
              && View() == Overloaded(old(View()), v, b[108..236], b[44..108])
              && Layout() == OverloadedMemory(old(Layout()), v, b[108..236], b[44..108])
    {
      hide DhcpMsg.Valid, DhcpMsg.View, Parse, ParseMemory;
      SlotLength(0);
      var o := Get(OVERLOAD);
      if o.Some? && o.value != [] {
        if o.value[0] / 1 % 2 == 1 {
          ReadFrom(packet, 108, 128);
        }
        if o.value[0] / 2 % 2 == 1 {
          ReadFrom(packet, 44, 64);
        }
      }
    }

    /** Drops the options of a length that is not allowed. */
    method Validate(keeps: (nat, nat) -> bool)
      requires Valid()
      modifies options
      ensures Valid() && View().opts == Validated(old(View().opts), keeps)
    {
      hide Total, AllWithin, Contents, DhcpMsg.Valid, DhcpMsg.View;
      ghost var opts := View().opts;
      for code := 0 to N_OPTIONS
        invariant Valid() && |View().opts| == |opts| == N_OPTIONS
        invariant forall c: nat :: c < code ==> View().opts[c] == Allowed(c, opts[c], keeps)
        invariant forall c: nat :: code <= c < N_OPTIONS ==> View().opts[c] == opts[c]
      {
        SlotLength(code);
        var opt := options[code];
        if opt.data.Some? && !keeps(code, opt.n) {
          Drop(code);
        }
      }
    }

    method Drop(code: nat)
      requires Valid() && code < N_OPTIONS
      modifies options
      ensures Valid() && View().opts == old(View().opts)[code := None]
    {
      hide Total, AllWithin, Contents;
      ghost var slots := options[..];
      options[code] := Slot(None, 0);
      assert options[..] == slots[code := Slot(None, 0)];
      ContentsUpdate(Block(), slots, code, Slot(None, 0));
      TotalUpdate(slots, code, Slot(None, 0));
    }

    /** The value of option `code`. */
    method Get(code: nat) returns (o: Option<seq<Byte>>)
      requires Valid() && code < N_OPTIONS
      ensures o == View().opts[code]
    {
      var opt := options[code];
      assert Within(options[..][code], used);
      o := if opt.data.None? then None else Some(data[..used][opt.data.value..opt.data.value + opt.n]);
    }

    lemma SlotLength(code: nat)
      requires Valid() && code < N_OPTIONS
      ensures Ready() && options.Length == N_OPTIONS == |Layout().slots| && View().owns == (data != null)
      ensures options[code].data.Some? <==> View().opts[code].Some?
      ensures options[code].n == |Value(View().opts[code])| && (options[code].n > 0 ==> data != null)
    {
      assert Within(options[..][code], |Block()|);
    }
  }

  /** What reading is to come to. */
  datatype Goal = Goal(msg: Msg, memory: Memory, undisturbed: bool)

  /** With `d` still to be read, the goal will be met. */
  ghost predicate Ahead(m: Msg, l: Memory, d: seq<Byte>, offset: nat, own: bool, goal: Goal) {
    && Sound(m) && |l.slots| == N_OPTIONS && IsOffset(offset)
    && Parse(m, d, offset) == goal.msg && ParseMemory(l, d, offset) == goal.memory
    && (own ==> Undisturbed(l, d, offset) == goal.undisturbed)
  }

  lemma AheadStops(m: Msg, l: Memory, d: seq<Byte>, offset: nat, own: bool, goal: Goal)
    requires Ahead(m, l, d, offset, own, goal)
    ensures IsOffset(offset) && (Stops(d) ==> m == goal.msg && l == goal.memory && (own ==> goal.undisturbed))
    ensures |l.slots| == N_OPTIONS
    ensures Stops(d) <==> d == [] || d[0] as nat == END || (d[0] as nat != PAD && (|d| == 1 || |d| - 2 < d[1] as nat))
  {
  }

  lemma AheadOfPad(m: Msg, l: Memory, d: seq<Byte>, offset: nat, own: bool, goal: Goal)
    requires Ahead(m, l, d, offset, own, goal) && d != [] && d[0] as nat == PAD
    ensures Ahead(m, l, d[1..], offset, own, goal)
  {
  }

  lemma AheadOfOption(m: Msg, l: Memory, d: seq<Byte>, offset: nat, own: bool, goal: Goal)
    requires Ahead(m, l, d, offset, own, goal) && |d| >= 2 && Plain(d[0]) && |d| - 2 >= d[1] as nat
    ensures var n := d[1] as nat;
            var code := d[0] as nat + offset;
            if own && |d| > 2 && !Roomy(l, code, n) then !goal.undisturbed
            else Ahead(DhcpOptions.Put(m, code, d[2..2 + n]), PutMemory(l, code, n), d[2 + n..], offset, own, goal)
  {
    hide DhcpOptions.Put, PutMemory, Roomy;
    if |d| == 2 {
      assert d[2 + d[1] as nat..] == [];
    }
  }

  /** Memory that is there when it is needed makes no difference. */
  lemma PutGrown(m: Msg, m': Msg, code: nat, v: seq<Byte>)
    requires Sound(m) && Sound(m') && code < N_OPTIONS && m'.opts == m.opts
    requires (m'.owns <==> m.owns || |v| + |Value(m.opts[code])| > 0) && code != PAD && code != END
    ensures DhcpOptions.Put(m', code, v) == DhcpOptions.Put(m, code, v)
  {
  }

  /** A packet under construction. */
  class Packet {
    var bytes: seq<Byte>

    constructor ()
      ensures bytes == []
    {
      bytes := [];
    }

    method PutOptionChunk(code: Byte, v: seq<Byte>)
      requires |v| < 256
      modifies this
      ensures bytes == old(bytes) + ([code, |v| as Byte] + v)
    {
      bytes := bytes + [code, |v| as Byte];
      bytes := bytes + v;
    }

    /** Writes an option in pieces that fit. */
    method PutOption(code: Byte, o: Option<seq<Byte>>)
      modifies this
      ensures bytes == old(bytes) + if o.None? then [] else RawOption(code, o.value)
    {
      if o.Some? {
        if o.value != [] {
          PutPieces(code, o.value);
        } else {
          PutOptionChunk(code, []);
        }
      }
    }

    method PutPieces(code: Byte, v: seq<Byte>)
      requires v != []
      modifies this
      ensures bytes == old(bytes) + RawOption(code, v)
    {
      hide RawOption;
      var rest := v;
      ghost var left := RawOption(code, rest);
      while rest != []
        invariant left == if rest == [] then [] else RawOption(code, rest)
        invariant bytes + left == old(bytes) + RawOption(code, v)
        decreases |rest|
      {
        var chunk := if |rest| > 255 then 248 else |rest|;
        left := NextPiece(code, rest, chunk);
        Assoc(bytes, [code, chunk as Byte] + rest[..chunk], left);
        PutOptionChunk(code, rest[..chunk]);
        rest := rest[chunk..];
      }
      Assoc(bytes, [], []);
    }

    /** With the options from code `i` on still to be written, the packet will be `goal`. */
    ghost predicate Writing(m: DhcpMsg, opts: seq<Option<seq<Byte>>>, base: nat, i: nat, goal: seq<Byte>)
      reads this, m, m.data, m.options
    {
      && m.Valid() && m.View().opts == opts && |opts| == N_OPTIONS && IsOffset(base) && i <= 256
      && bytes + RawFrom(opts, base, i) == goal
    }

    method PutNth(m: DhcpMsg, ghost opts: seq<Option<seq<Byte>>>, base: nat, i: nat, ghost goal: seq<Byte>)
      requires Writing(m, opts, base, i, goal) && i < 256
      modifies this
      ensures Writing(m, opts, base, i + 1, goal)
    {
      hide RawFrom, RawOption, DhcpMsg.Valid, DhcpMsg.View;
      var o := m.Get(base + i);
      NextOption(opts, base, i);
      Assoc(bytes, if o.None? then [] else RawOption(i as Byte, o.value), RawFrom(opts, base, i + 1));
      PutOption(i as Byte, o);
    }

    lemma Written(m: DhcpMsg, opts: seq<Option<seq<Byte>>>, base: nat, goal: seq<Byte>)
      requires Writing(m, opts, base, 256, goal)
      ensures bytes == goal
    {
      NoOption(opts, base);
      Assoc(bytes, [], []);
    }

    /** Writes the 256 options of `m` that start at `base`, under their codes less `base`. */
    method PutOptions(m: DhcpMsg, base: nat)
      requires m.Valid() && IsOffset(base)
      modifies this
      ensures bytes == old(bytes) + RawFrom(m.View().opts, base, 0)
    {
      ghost var opts := m.View().opts;
      ghost var goal := bytes + RawFrom(opts, base, 0);
      hide RawFrom, DhcpMsg.Valid, DhcpMsg.View;
      assert Writing(m, opts, base, 0, goal);
      hide Packet.Writing;
      for i := 0 to 256
        invariant Writing(m, opts, base, i, goal)
      {
        PutNth(m, opts, base, i, goal);
      }
      Written(m, opts, base, goal);
    }

    /** Writes the vendor's bytes `v`, if any, and END after the standard options. */
    method PutVendorAndEnd(v: seq<Byte>)
      modifies this
      ensures bytes == (old(bytes) + if v == [] then [] else RawOption(VENDOR_SPECIFIC as Byte, v)) + [END as Byte]
    {
      hide RawOption;
      if v != [] {
        PutOption(VENDOR_SPECIFIC as Byte, Some(v));
      } else {
        DhcpOptions.Assoc(bytes, [], []);
      }
      bytes := bytes + [END as Byte];
    }

    /** Writes a whole message. */
    method Assemble(op: Byte, fixed: seq<Byte>, kind: Byte, m: DhcpMsg)
      requires |fixed| == 30 && m.Valid()
      modifies this
      ensures bytes == old(bytes) + Assembled(op, fixed, kind, m.View().opts)
    {
      hide DhcpMsg.Valid, DhcpMsg.View, Encode;
      ghost var front, area := [op, 1, 6, 0] + fixed + Zeros(202) + COOKIE, Encode(kind, m.View().opts);
      DhcpOptions.Assoc(bytes, front, area);
      bytes := bytes + ([op, 1, 6, 0] + fixed + Zeros(202) + COOKIE);
      AssembleOptions(kind, m);
    }

    /** Writes the type of a message, unless it is 0. */
    method PutType(kind: Byte)
      modifies this
      ensures bytes == old(bytes) + RawType(kind)
    {
      hide RawOption;
      if kind != 0 {
        PutOption(MSG_TYPE as Byte, Some([kind]));
      } else {
        DhcpOptions.Assoc(bytes, [], []);
      }
    }

    /** Writes the type and the standard options of `m`, the vendor's packed into one of them, and END. */
    method AssembleOptions(kind: Byte, m: DhcpMsg)
      requires m.Valid()
      modifies this
      ensures bytes == old(bytes) + Encode(kind, m.View().opts)
    {
      hide RawFrom, RawOption, DhcpMsg.Valid, DhcpMsg.View, Encode, RawType;
      var v := VendorOptions(m);
      PutType(kind);
      PutOptions(m, 0);
      EncodeParts(old(bytes), kind, m.View().opts);
      PutVendorAndEnd(v);
    }
  }

  /**
   * Reads a packet as a message, where pointers have `width` bytes.  `stale` tells that the vendor's
   * options were read from a block that was given up meanwhile.
   */
  method DhcpParse(packet: array<Byte>, width: nat, keeps: (nat, nat) -> bool)
    returns (msg: DhcpMsg, kind: Option<Byte>, stale: bool)
    requires width >= COOKIE_LEN
    ensures stale <==> GoodHeader(packet[..]) && !StaysPut(packet[..], width)
    ensures msg.Valid() && fresh(msg)
    ensures !stale ==>
              var r := ParseMessage(packet[..], width, keeps);
              && (kind.Some? <==> r.Accepted?)
              && (r.Accepted? ==> kind == Some(r.kind) && msg.View().opts == r.opts)
  {
    hide DhcpMsg.Valid, DhcpMsg.View, Parse, Undisturbed, Received, ReceivedMemory, NoOptions, NoMemory, CString, Validated;
    msg := new DhcpMsg();
    kind, stale := None, false;
    if packet.Length >= HEADER && (packet[0] == 1 || packet[0] == 2) && packet[1] == 1 && packet[2] == 6 {
      ghost var b := packet[..];
      msg.ParsePacket(packet, width);
      ghost var m := msg.View();
      var vendor := msg.Get(VENDOR_CLASS);
      if IsOpenFlow(vendor) {
        stale := msg.ParseVendor();
      }
      if !stale {
        msg.Validate(keeps);
        var o := msg.Get(MSG_TYPE);
        if o.Some? && o.value != [] {
          kind := Some(o.value[0]);
        }
      }
    }
  }

  /** The vendor's options of `m`, assembled in a buffer of their own. */
  method VendorOptions(m: DhcpMsg) returns (v: seq<Byte>)
    requires m.Valid()
    ensures v == RawFrom(m.View().opts, VENDOR_OFS, 0)
  {
    hide RawFrom, DhcpMsg.Valid, DhcpMsg.View;
    var vendor := new Packet();
    vendor.PutOptions(m, VENDOR_OFS);
    DhcpOptions.Assoc(RawFrom(m.View().opts, VENDOR_OFS, 0), [], []);
    v := vendor.bytes;
  }

  lemma EncodeParts(b: seq<Byte>, kind: Byte, opts: seq<Option<seq<Byte>>>)
    requires |opts| == N_OPTIONS
    ensures ((b + RawType(kind) + RawFrom(opts, 0, 0)) + RawVendor(opts)) + [END as Byte] == b + Encode(kind, opts)
  {
    hide RawFrom, RawVendor, RawType;
    var b1 := b + RawType(kind);
    Assoc(b1, RawFrom(opts, 0, 0), RawVendor(opts));
    Assoc(b1, RawFrom(opts, 0, 0) + RawVendor(opts), [END as Byte]);
    Assoc(b, RawType(kind), Area(opts));
  }

  lemma NextOption(opts: seq<Option<seq<Byte>>>, base: nat, i: nat)
    requires |opts| == N_OPTIONS && IsOffset(base) && i < 256
    ensures RawFrom(opts, base, i) ==
            (if opts[base + i].None? then [] else RawOption(i as Byte, opts[base + i].value)) + RawFrom(opts, base, i + 1)
  {
  }

  lemma NoOption(opts: seq<Option<seq<Byte>>>, base: nat)
    requires |opts| == N_OPTIONS && IsOffset(base)
    ensures RawFrom(opts, base, 256) == []
  {
  }

  lemma NextPiece(code: Byte, rest: seq<Byte>, chunk: nat) returns (left: seq<Byte>)
    requires rest != [] && chunk == if |rest| > 255 then 248 else |rest|
    ensures left == if rest[chunk..] == [] then [] else RawOption(code, rest[chunk..])
    ensures RawOption(code, rest) == [code, chunk as Byte] + rest[..chunk] + left
  {
    left := if rest[chunk..] == [] then [] else RawOption(code, rest[chunk..]);
    if |rest| <= 255 {
      assert rest[..chunk] == rest && rest[chunk..] == [];
    }
  }
}
