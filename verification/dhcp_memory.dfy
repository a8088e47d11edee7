/**
 * Where the options of a DHCP message lie in memory (lib/dhcp.c): 512 slots that
 * point into one block of bytes, which is only ever appended to, and is replaced
 * by a larger one with the garbage left out when it is full.
 */
module DhcpMemory {
  import opened Options
  import opened Bytes
  import opened DhcpOptions

  /** `data` is the option's offset in the block; None is the null pointer. */
  datatype Slot = Slot(data: Option<nat>, n: nat)

  predicate Within(s: Slot, used: nat) {
    if s.data.None? then s.n == 0 else s.data.value + s.n <= used
  }

  ghost predicate AllWithin(slots: seq<Slot>, used: nat) {
    forall c: nat :: c < |slots| ==> Within(slots[c], used)
  }

  lemma OneWithin(slots: seq<Slot>, c: nat, used: nat)
    requires AllWithin(slots, used) && c < |slots|
    ensures Within(slots[c], used)
  {
  }

  function Content(block: seq<Byte>, s: Slot): Option<seq<Byte>>
    requires Within(s, |block|)
  {
    if s.data.None? then None else Some(block[s.data.value..s.data.value + s.n])
  }

  ghost function Contents(block: seq<Byte>, slots: seq<Slot>): (r: seq<Option<seq<Byte>>>)
    requires AllWithin(slots, |block|)
    ensures |r| == |slots| && forall c: nat :: c < |slots| ==> r[c] == Content(block, slots[c])
  {
    seq(|slots|, c requires 0 <= c < |slots| => Content(block, slots[c]))
  }

  /** The bytes the slots hold together. */
  function Total(slots: seq<Slot>): nat {
    if slots == [] then 0 else slots[0].n + Total(slots[1..])
  }

  lemma {:induction false} TotalSplit(slots: seq<Slot>, c: nat)
    requires c < |slots|
    ensures Total(slots) == Total(slots[..c]) + slots[c].n + Total(slots[c + 1..])
  {
    if c == 0 {
      assert slots[..0] == [];
    } else {
      TotalSplit(slots[1..], c - 1);
      assert slots[..c][1..] == slots[1..][..c - 1] && slots[1..][c..] == slots[c + 1..];
    }
  }

  lemma TotalUpdate(slots: seq<Slot>, c: nat, s: Slot)
    requires c < |slots|
    ensures Total(slots[c := s]) == Total(slots) - slots[c].n + s.n
  {
    var t := slots[c := s];
    TotalSplit(slots, c);
    TotalSplit(t, c);
    assert t[..c] == slots[..c] && t[c + 1..] == slots[c + 1..];
  }

  /** Appending to the block changes no option's content. */
  lemma ContentsKept(block: seq<Byte>, more: seq<Byte>, slots: seq<Slot>)
    requires AllWithin(slots, |block|)
    ensures AllWithin(slots, |block + more|) && Contents(block + more, slots) == Contents(block, slots)
  {
    forall c: nat | c < |slots|
      ensures Within(slots[c], |block + more|) && Content(block + more, slots[c]) == Content(block, slots[c])
    {
      var s := slots[c];
      assert Within(s, |block|);
      if s.data.Some? {
        assert (block + more)[s.data.value..s.data.value + s.n] == block[s.data.value..s.data.value + s.n];
      }
    }
  }

  /** Pointing one slot elsewhere changes that option only. */
  lemma ContentsUpdate(block: seq<Byte>, slots: seq<Slot>, c: nat, s: Slot)
    requires AllWithin(slots, |block|) && c < |slots| && Within(s, |block|)
    ensures AllWithin(slots[c := s], |block|)
    ensures Contents(block, slots[c := s]) == Contents(block, slots)[c := Content(block, s)]
  {
  }

  lemma {:induction false} TotalPush(slots: seq<Slot>, s: Slot)
    ensures Total(slots + [s]) == Total(slots) + s.n
  {
    TotalSplit(slots + [s], |slots|);
    assert (slots + [s])[..|slots|] == slots && (slots + [s])[|slots| + 1..] == [];
  }

  lemma {:induction false} NothingHeld(slots: seq<Slot>)
    requires forall c: nat :: c < |slots| ==> slots[c] == Slot(None, 0)
    ensures Total(slots) == 0
  {
    if slots != [] {
      NothingHeld(slots[1..]);
    }
  }

  /** The slots `now` hold in `block` what the slots `was` held in `from`. */
  ghost predicate Moved(block: seq<Byte>, now: seq<Slot>, from: seq<Byte>, was: seq<Slot>) {
    |now| == |was| && AllWithin(now, |block|) && AllWithin(was, |from|) && Contents(block, now) == Contents(from, was) &&
    forall c: nat :: c < |now| ==> (now[c].data.None? <==> was[c].data.None?)
  }

  lemma MovedOne(block: seq<Byte>, v: seq<Byte>, now: seq<Slot>, from: seq<Byte>, was: seq<Slot>, s: Slot, t: Slot)
    requires Moved(block, now, from, was) && Within(s, |from|)
    requires if s.data.Some? then t == Slot(Some(|block|), s.n) && Content(from, s) == Some(v) else t == s && v == []
    ensures Moved(block + v, now + [t], from, was + [s])
  {
    ContentsKept(block, v, now);
    forall c: nat | c < |now| + 1
      ensures Within((now + [t])[c], |block + v|) && Within((was + [s])[c], |from|)
      ensures Content(block + v, (now + [t])[c]) == Content(from, (was + [s])[c])
    {
      if c < |now| {
        assert Contents(block + v, now)[c] == Contents(from, was)[c];
        assert Within(was[c], |from|);
      } else if s.data.Some? {
        assert (block + v)[|block|..|block| + s.n] == v;
      }
    }
  }

  /** After option `c` was copied to the end of the block, its slot can point there. */
  lemma Relocated(block: seq<Byte>, slots: seq<Slot>, c: nat)
    requires AllWithin(slots, |block|) && c < |slots| && slots[c].data.Some?
    requires Within(slots[c], |block|)
    ensures var s := slots[c];
            var block1 := block + block[s.data.value..s.data.value + s.n];
            var slots1 := slots[c := Slot(Some(|block|), s.n)];
            AllWithin(slots1, |block1|) && Contents(block1, slots1) == Contents(block, slots)
  {
    var s := slots[c];
    var more := block[s.data.value..s.data.value + s.n];
    ContentsKept(block, more, slots);
    ContentsUpdate(block + more, slots, c, Slot(Some(|block|), s.n));
    assert (block + more)[|block|..|block| + s.n] == more;
    var was := Contents(block, slots);
    assert was[c] == Some(more);
    hide Contents, Content;
    assert was[c := Some(more)] == was;
  }

  /** Appending `v` to a block that ends with option `c`, or to one where `c` is empty, extends that option. */
  lemma Extended(block: seq<Byte>, slots: seq<Slot>, c: nat, p: Option<nat>, v: seq<Byte>)
    requires AllWithin(slots, |block|) && c < |slots|
    requires if p.None? then v == [] && slots[c].n == 0 else p.value + slots[c].n == |block|
    requires slots[c].n > 0 ==> slots[c].data == p
    ensures var t := slots[c := Slot(p, slots[c].n + |v|)];
            && AllWithin(t, |block + v|)
            && Contents(block + v, t) ==
               Contents(block, slots)[c := if p.None? then None else Some(Value(Contents(block, slots)[c]) + v)]
  {
    var s := Slot(p, slots[c].n + |v|);
    ContentsKept(block, v, slots);
    ContentsUpdate(block + v, slots, c, s);
    assert Within(slots[c], |block|);
    if p.Some? {
      assert block[p.value..] == Value(Contents(block, slots)[c]);
      assert (block + v)[p.value..p.value + s.n] == block[p.value..] + v;
    }
  }

  lemma ExtendedPut(block: seq<Byte>, slots: seq<Slot>, owns: bool, c: nat, p: Option<nat>, v: seq<Byte>)
    requires AllWithin(slots, |block|) && c < |slots| == N_OPTIONS && Sound(Msg(owns, Contents(block, slots)))
    requires if p.None? then v == [] && slots[c].n == 0 else p.value + slots[c].n == |block|
    requires (slots[c].n > 0 ==> slots[c].data == p) && owns == p.Some? && c != PAD && c != END
    ensures var t := slots[c := Slot(p, slots[c].n + |v|)];
            && AllWithin(t, |block + v|)
            && Msg(owns, Contents(block + v, t)) == Put(Msg(owns, Contents(block, slots)), c, v)
  {
    hide Contents;
    Extended(block, slots, c, p, v);
  }

  // ---- Where things go ----

  /** The slots, the bytes used of the block, and its size; None if there is no block yet. */
  datatype Memory = Memory(slots: seq<Slot>, used: nat, size: Option<nat>)

  function Room(m: Memory): nat {
    if m.size.Some? then m.size.value else 0
  }

  /** The slots packed in order of code from `start` on. */
  function Packed(slots: seq<Slot>, start: nat): (r: seq<Slot>)
    ensures |r| == |slots|
  {
    if slots == [] then []
    else
      var s := slots[0];
      [if s.data.None? then s else Slot(Some(start), s.n)] + Packed(slots[1..], start + s.n)
  }

  lemma {:induction false} PackedPush(slots: seq<Slot>, s: Slot, start: nat)
    ensures Packed(slots + [s], start) ==
            Packed(slots, start) + [if s.data.None? then s else Slot(Some(start + Total(slots)), s.n)]
  {
    hide Total;
    if slots == [] {
      assert slots + [s] == [s] && [s][1..] == [];
      assert Total([]) == 0 by { NothingHeld([]); }
    } else {
      TotalFirst(slots);
      PackedPush(slots[1..], s, start + slots[0].n);
      assert (slots + [s])[1..] == slots[1..] + [s];
    }
  }

  lemma TotalFirst(slots: seq<Slot>)
    requires slots != []
    ensures Total(slots) == slots[0].n + Total(slots[1..])
  {
  }

  /** Putting `n` bytes into option `code` leaves the block where it is. */
  predicate Roomy(m: Memory, code: nat, n: nat)
    requires code < |m.slots|
  {
    m.used + n + m.slots[code].n <= Room(m)
  }

  /** A block with room for `n` more bytes. */
  function Grown(m: Memory, n: nat): Memory {
    var needed := m.used + n;
    if needed <= Room(m) then m
    else
      var size := Some(if needed * 2 > 64 then needed * 2 else 64);
      if m.size.None? then m.(size := size) else Memory(Packed(m.slots, 0), Total(m.slots), size)
  }

  /** Option `code`, unless it is empty, is the last thing in the block. */
  function AtEnd(m: Memory, code: nat): (r: Memory)
    requires code < |m.slots|
    ensures |r.slots| == |m.slots|
  {
    var s := m.slots[code];
    if s.n == 0 || (s.data.Some? && s.data.value + s.n == m.used) then m
    else m.(slots := m.slots[code := Slot(Some(m.used), s.n)], used := m.used + s.n)
  }

  function Lengthened(m: Memory, code: nat, n: nat): (r: Memory)
    requires code < |m.slots|
    ensures |r.slots| == |m.slots|
  {
    var s := m.slots[code];
    var p := if s.n > 0 then s.data else if m.size.None? then None else Some(m.used);
    m.(slots := m.slots[code := Slot(p, s.n + n)], used := m.used + n)
  }

  /** What adding `n` bytes to option `code` does to the memory. */
  function PutMemory(m: Memory, code: nat, n: nat): (r: Memory)
    requires code < |m.slots|
    ensures |r.slots| == |m.slots|
  {
    if code == PAD || code == END then m
    else Lengthened(AtEnd(Grown(m, n + m.slots[code].n), code), code, n)
  }

  /** What reading options from `d` does to the memory. */
  function ParseMemory(m: Memory, d: seq<Byte>, offset: nat): (r: Memory)
    requires |m.slots| == N_OPTIONS && IsOffset(offset)
    ensures |r.slots| == N_OPTIONS
    decreases |d|
  {
    if d == [] || d[0] as nat == END then m
    else if d[0] as nat == PAD then ParseMemory(m, d[1..], offset)
    else if |d| < 2 || |d| - 2 < d[1] as nat then m
    else
      var n := d[1] as nat;
      ParseMemory(PutMemory(m, d[0] as nat + offset, n), d[2 + n..], offset)
  }

  /**
   * Reading options from `d`, which lies in the block itself, does not move the block as long
   * as there is anything left to read in it.
   */
  predicate Undisturbed(m: Memory, d: seq<Byte>, offset: nat)
    requires |m.slots| == N_OPTIONS && IsOffset(offset)
    decreases |d|
  {
    if d == [] || d[0] as nat == END then true
    else if d[0] as nat == PAD then Undisturbed(m, d[1..], offset)
    else if |d| < 2 || |d| - 2 < d[1] as nat then true
    else
      var n := d[1] as nat;
      if Roomy(m, d[0] as nat + offset, n) then Undisturbed(PutMemory(m, d[0] as nat + offset, n), d[2 + n..], offset)
      else |d| == 2
  }
}
