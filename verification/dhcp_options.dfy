/**
 * DHCP options as values: what adding to an option does, how options are laid
 * out in a packet and how they are read back (lib/dhcp.c).
 */
module DhcpOptions {
  import opened Options
  import opened Bytes

  const PAD: nat := 0
  const END: nat := 255
  const N_OPTIONS := 512
  const VENDOR_OFS := 256
  const VENDOR_SPECIFIC: nat := 43
  const MSG_TYPE: nat := 53

  /** `opts[c]` is the value of option `c`; `owns` tells whether the message has any memory yet. */
  datatype Msg = Msg(owns: bool, opts: seq<Option<seq<Byte>>>)

  predicate Sound(m: Msg) {
    |m.opts| == N_OPTIONS && m.opts[PAD] == None && m.opts[END] == None &&
    (!m.owns ==> forall c: nat :: c < N_OPTIONS ==> m.opts[c] == None)
  }

  function NoOptions(): (m: Msg)
    ensures Sound(m)
  {
    Msg(false, seq(N_OPTIONS, _ => None))
  }

  /** Standard options start at code 0, those of the vendor at 256. */
  predicate IsOffset(offset: nat) {
    offset == 0 || offset == VENDOR_OFS
  }

  function Value(o: Option<seq<Byte>>): seq<Byte> {
    if o.Some? then o.value else []
  }

  /** Appends `v` to option `code`.  Adding nothing to a message without memory leaves the option absent. */
  function Put(m: Msg, code: nat, v: seq<Byte>): (r: Msg)
    requires Sound(m) && code < N_OPTIONS
    ensures Sound(r)
  {
    if code == PAD || code == END then m
    else
      var owns := m.owns || v != [];
      Msg(owns, m.opts[code := if owns then Some(Value(m.opts[code]) + v) else None])
  }

  // ---- The packet ----

  /** Values of more than 255 bytes are cut into pieces of 248, a multiple of 8, and a last one. */
  function Pieces(v: seq<Byte>): seq<seq<Byte>> {
    if |v| > 255 then [v[..248]] + Pieces(v[248..]) else [v]
  }

  lemma {:induction false} PiecesFit(v: seq<Byte>)
    ensures Concat(Pieces(v)) == v && Pieces(v) != []
    ensures forall p :: p in Pieces(v) ==> |p| <= 255 && (v != [] ==> p != [])
    ensures forall i: nat :: i < |Pieces(v)| - 1 ==> |Pieces(v)[i]| % 8 == 0
  {
    if |v| > 255 {
      PiecesFit(v[248..]);
      assert v == v[..248] + v[248..];
    } else {
      assert [v][1..] == [];
      assert Concat([v]) == v + Concat([]);
    }
  }

  /** An option as bytes: code, length and payload of each piece. */
  function RawOption(code: Byte, v: seq<Byte>): (r: seq<Byte>)
    ensures |r| >= 2
  {
    if |v| > 255 then [code, 248] + v[..248] + RawOption(code, v[248..]) else [code, |v| as Byte] + v
  }

  /** The options from code `i` on of the 256 that start at `base`, as bytes. */
  function RawFrom(opts: seq<Option<seq<Byte>>>, base: nat, i: nat): seq<Byte>
    requires |opts| == N_OPTIONS && IsOffset(base) && i <= 256
    decreases 256 - i
  {
    if i == 256 then []
    else (if opts[base + i].None? then [] else RawOption(i as Byte, opts[base + i].value)) + RawFrom(opts, base, i + 1)
  }

  /** The vendor's options travel together as the value of one standard option. */
  function RawVendor(opts: seq<Option<seq<Byte>>>): seq<Byte>
    requires |opts| == N_OPTIONS
  {
    var v := RawFrom(opts, VENDOR_OFS, 0);
    if v == [] then [] else RawOption(VENDOR_SPECIFIC as Byte, v)
  }

  /** The options of a message and END. */
  function Area(opts: seq<Option<seq<Byte>>>): seq<Byte>
    requires |opts| == N_OPTIONS
  {
    RawFrom(opts, 0, 0) + RawVendor(opts) + [END as Byte]
  }

  /** The type of a message, which stands in front of its options unless it is 0. */
  function RawType(kind: Byte): seq<Byte> {
    if kind == 0 then [] else RawOption(MSG_TYPE as Byte, [kind])
  }

  /** The options area of a packet. */
  function Encode(kind: Byte, opts: seq<Option<seq<Byte>>>): seq<Byte>
    requires |opts| == N_OPTIONS
  {
    RawType(kind) + Area(opts)
  }

  /** What stands in a packet: a pad byte, or an option's code, length and payload. */
  datatype Item = Pad | Opt(code: Byte, payload: seq<Byte>)

  /** The code of an option, not of a pad or of the end. */
  predicate Plain(code: Byte) {
    code as nat != PAD && code as nat != END
  }

  predicate Proper(i: Item) {
    i.Opt? ==> Plain(i.code) && |i.payload| <= 255
  }

  ghost predicate AllProper(items: seq<Item>) {
    forall i :: i in items ==> Proper(i)
  }

  function Write(items: seq<Item>): seq<Byte>
    requires AllProper(items)
  {
    if items == [] then [] else WriteOne(items[0]) + Write(items[1..])
  }

  function WriteOne(i: Item): seq<Byte>
    requires Proper(i)
  {
    if i.Pad? then [PAD as Byte] else [i.code, |i.payload| as Byte] + i.payload
  }

  /** Option `code` with value `v`, as items. */
  function OptionItems(code: Byte, v: seq<Byte>): (r: seq<Item>)
    requires Plain(code)
    ensures AllProper(r)
  {
    PiecesFit(v);
    seq(|Pieces(v)|, i requires 0 <= i < |Pieces(v)| => Opt(code, Pieces(v)[i]))
  }

  /** No option has the code of a pad or of the end. */
  predicate Writable(opts: seq<Option<seq<Byte>>>, base: nat) {
    |opts| == N_OPTIONS && IsOffset(base) && opts[base + PAD] == None && opts[base + END] == None
  }

  /** The options from code `i` on, as items. */
  function ItemsFrom(opts: seq<Option<seq<Byte>>>, base: nat, i: nat): (r: seq<Item>)
    requires Writable(opts, base) && i <= 256
    ensures AllProper(r)
    decreases 256 - i
  {
    if i == 256 then []
    else if opts[base + i].None? then ItemsFrom(opts, base, i + 1)
    else OptionItems(i as Byte, opts[base + i].value) + ItemsFrom(opts, base, i + 1)
  }

  /** Reads options from `d` into `m` until END, the end of `d` or an option that does not fit in it. */
  function Parse(m: Msg, d: seq<Byte>, offset: nat): (r: Msg)
    requires Sound(m) && IsOffset(offset)
    ensures Sound(r)
    decreases |d|
  {
    if d == [] || d[0] as nat == END then m
    else if d[0] as nat == PAD then Parse(m, d[1..], offset)
    else if |d| < 2 || |d| - 2 < d[1] as nat then m
    else
      var n := d[1] as nat;
      Parse(Put(m, d[0] as nat + offset, d[2..2 + n]), d[2 + n..], offset)
  }

  /** Whether reading stops at once: nothing, END, or an option cut short. */
  predicate Stops(d: seq<Byte>) {
    d == [] || d[0] as nat == END || (d[0] as nat != PAD && (|d| < 2 || |d| - 2 < d[1] as nat))
  }

  /** Adds one item. */
  function Take(m: Msg, i: Item, offset: nat): (r: Msg)
    requires Sound(m) && Proper(i) && IsOffset(offset)
    ensures Sound(r)
  {
    if i.Pad? then m else Put(m, i.code as nat + offset, i.payload)
  }

  function PutAll(m: Msg, items: seq<Item>, offset: nat): (r: Msg)
    requires Sound(m) && AllProper(items) && IsOffset(offset)
    ensures Sound(r)
    decreases |items|
  {
    if items == [] then m else PutAll(Take(m, items[0], offset), items[1..], offset)
  }

  /** What all the pieces of option `code` come to, in the order they stand. */
  function Gathered(items: seq<Item>, code: nat): seq<Byte> {
    if items == [] then []
    else if items[0].Opt? && items[0].code as nat == code then items[0].payload + Gathered(items[1..], code)
    else Gathered(items[1..], code)
  }

  // ---- Reading back ----

  lemma ParseOne(m: Msg, i: Item, rest: seq<Byte>, offset: nat)
    requires Sound(m) && Proper(i) && IsOffset(offset)
    ensures Parse(m, WriteOne(i) + rest, offset) == Parse(Take(m, i, offset), rest, offset)
  {
    hide Sound, Put;
    var d := WriteOne(i) + rest;
    if i.Pad? {
      assert d[1..] == rest;
    } else {
      var n := |i.payload|;
      assert d[0] == i.code && d[1] as nat == n;
      assert d[2..2 + n] == i.payload && d[2 + n..] == rest;
    }
  }

  /** Reading what was written is adding its items one by one; whatever follows a stop is not looked at. */
  lemma {:induction false} ParseWrites(m: Msg, items: seq<Item>, tail: seq<Byte>, offset: nat)
    requires Sound(m) && AllProper(items) && Stops(tail) && IsOffset(offset)
    ensures Parse(m, Write(items) + tail, offset) == PutAll(m, items, offset)
    decreases |items|
  {
    hide Sound, Take, WriteOne;
    if items == [] {
      assert Write(items) + tail == tail;
    } else {
      var i := items[0];
      ParseOne(m, i, Write(items[1..]) + tail, offset);
      hide Parse;
      assert Write(items) + tail == WriteOne(i) + (Write(items[1..]) + tail);
      ParseWrites(Take(m, i, offset), items[1..], tail, offset);
    }
  }

  /** Every byte string is some items and then a stop, so `ParseWrites` covers every input. */
  lemma {:induction false} EveryInputIsItems(d: seq<Byte>) returns (items: seq<Item>, tail: seq<Byte>)
    ensures AllProper(items) && Stops(tail) && d == Write(items) + tail
    decreases |d|
  {
    if Stops(d) {
      items, tail := [], d;
    } else {
      var i := if d[0] as nat == PAD then Pad else Opt(d[0], d[2..2 + d[1] as nat]);
      var k := |WriteOne(i)|;
      var more;
      more, tail := EveryInputIsItems(d[k..]);
      items := [i] + more;
      assert items[1..] == more;
      assert d == WriteOne(i) + d[k..];
      assert WriteOne(i) + (Write(more) + tail) == (WriteOne(i) + Write(more)) + tail;
    }
  }

  lemma TakeGathers(m: Msg, i: Item, offset: nat, c: nat)
    requires Sound(m) && Proper(i) && IsOffset(offset) && c < N_OPTIONS
    ensures var o := Take(m, i, offset).opts[c];
            if i.Opt? && i.code as nat + offset == c then Value(o) == Value(m.opts[c]) + i.payload else o == m.opts[c]
  {
  }

  /** Adding items: each option grows by its own pieces, in order, however they are split or mixed. */
  lemma {:induction false} PutAllGathers(m: Msg, items: seq<Item>, offset: nat, c: nat)
    requires Sound(m) && AllProper(items) && IsOffset(offset) && offset <= c < N_OPTIONS
    ensures Value(PutAll(m, items, offset).opts[c]) == Value(m.opts[c]) + Gathered(items, c - offset)
    decreases |items|
  {
    assert |m.opts| == N_OPTIONS;
    hide Sound, Take, Proper, Value;
    if items != [] {
      var i := items[0];
      TakeGathers(m, i, offset, c);
      PutAllGathers(Take(m, i, offset), items[1..], offset, c);
      if i.Opt? && i.code as nat + offset == c {
        Assoc(Value(m.opts[c]), i.payload, Gathered(items[1..], c - offset));
      }
    } else {
      Assoc(Value(m.opts[c]), [], []);
    }
  }

  /**
   Whatever the packet holds, reading it appends to each option all of that option's pieces, in
   order, up to the stop.
   */
  lemma ParseGathers(m: Msg, d: seq<Byte>, offset: nat, c: nat) returns (items: seq<Item>, tail: seq<Byte>)
    requires Sound(m) && IsOffset(offset) && offset <= c < N_OPTIONS
    ensures AllProper(items) && Stops(tail) && d == Write(items) + tail
    ensures Value(Parse(m, d, offset).opts[c]) == Value(m.opts[c]) + Gathered(items, c - offset)
  {
    items, tail := EveryInputIsItems(d);
    ParseWrites(m, items, tail, offset);
    PutAllGathers(m, items, offset, c);
  }

  // ---- The round trip ----

  lemma {:induction false} PutAllConcat(m: Msg, a: seq<Item>, b: seq<Item>, offset: nat)
    requires Sound(m) && AllProper(a) && AllProper(b) && IsOffset(offset)
    ensures PutAll(m, a + b, offset) == PutAll(PutAll(m, a, offset), b, offset)
    decreases |a|
  {
    hide Sound, Take, Proper;
    if a == [] {
      assert a + b == b;
    } else {
      assert (a + b)[1..] == a[1..] + b;
      PutAllConcat(Take(m, a[0], offset), a[1..], b, offset);
    }
  }

  /** Adding in two goes is adding at once. */
  lemma PutTwice(m: Msg, code: nat, v: seq<Byte>, w: seq<Byte>)
    requires Sound(m) && code < N_OPTIONS && v != []
    ensures Put(Put(m, code, v), code, w) == Put(m, code, v + w)
  {
    if code != PAD && code != END {
      assert (Value(m.opts[code]) + v) + w == Value(m.opts[code]) + (v + w);
    }
  }

  lemma OptionItemsCut(code: Byte, v: seq<Byte>)
    requires Plain(code)
    ensures OptionItems(code, v) ==
            if |v| > 255 then [Opt(code, v[..248])] + OptionItems(code, v[248..]) else [Opt(code, v)]
  {
  }

  lemma {:induction false} WriteConcat(a: seq<Item>, b: seq<Item>)
    requires AllProper(a) && AllProper(b)
    ensures AllProper(a + b) && Write(a + b) == Write(a) + Write(b)
  {
    hide WriteOne, Proper;
    if a == [] {
      assert a + b == b;
    } else {
      WriteConcat(a[1..], b);
      assert (a + b)[1..] == a[1..] + b;
      assert WriteOne(a[0]) + (Write(a[1..]) + Write(b)) == (WriteOne(a[0]) + Write(a[1..])) + Write(b);
    }
  }

  /** The bytes of an option are its items written out. */
  lemma {:induction false} RawIsWritten(code: Byte, v: seq<Byte>)
    requires Plain(code)
    ensures RawOption(code, v) == Write(OptionItems(code, v))
    decreases |v|
  {
    OptionItemsCut(code, v);
    var items := OptionItems(code, v);
    hide OptionItems;
    if |v| > 255 {
      assert items[1..] == OptionItems(code, v[248..]);
      RawIsWritten(code, v[248..]);
    } else {
      assert items[1..] == [];
      assert Write(items) == WriteOne(items[0]) + [];
    }
  }

  lemma {:induction false} RawFromIsWritten(opts: seq<Option<seq<Byte>>>, base: nat, i: nat)
    requires Writable(opts, base) && i <= 256
    ensures RawFrom(opts, base, i) == Write(ItemsFrom(opts, base, i))
    decreases 256 - i
  {
    hide Write, OptionItems, RawOption;
    if i < 256 {
      RawFromIsWritten(opts, base, i + 1);
      if opts[base + i].Some? {
        RawIsWritten(i as Byte, opts[base + i].value);
        WriteConcat(OptionItems(i as Byte, opts[base + i].value), ItemsFrom(opts, base, i + 1));
      } else {
        assert [] + RawFrom(opts, base, i + 1) == RawFrom(opts, base, i + 1);
      }
    } else {
      WriteNothing();
    }
  }

  lemma WriteNothing()
    ensures Write([]) == []
  {
  }

  /** Nothing is written exactly if there is no option. */
  lemma {:induction false} RawFromEmpty(opts: seq<Option<seq<Byte>>>, base: nat, i: nat)
    requires |opts| == N_OPTIONS && IsOffset(base) && i <= 256
    ensures RawFrom(opts, base, i) == [] <==> forall c: nat :: base + i <= c < base + 256 ==> opts[c] == None
    decreases 256 - i
  {
    hide RawOption;
    if i < 256 {
      RawFromEmpty(opts, base, i + 1);
    }
  }

  /** The pieces of one option put together are the option. */
  lemma {:induction false} OptionIsPut(m: Msg, code: Byte, v: seq<Byte>, offset: nat)
    requires Sound(m) && Plain(code) && IsOffset(offset)
    ensures PutAll(m, OptionItems(code, v), offset) == Put(m, code as nat + offset, v)
    decreases |v|
  {
    OptionItemsCut(code, v);
    hide OptionItems, Sound, Put;
    if |v| > 255 {
      var i := Opt(code, v[..248]);
      assert OptionItems(code, v)[1..] == OptionItems(code, v[248..]);
      OptionIsPut(Take(m, i, offset), code, v[248..], offset);
      PutTwice(m, code as nat + offset, v[..248], v[248..]);
      assert v[..248] + v[248..] == v;
    } else {
      assert OptionItems(code, v)[1..] == [];
    }
  }

  /** Some option of codes `i` to `c` is not empty. */
  ghost predicate DataBy(opts: seq<Option<seq<Byte>>>, i: nat, c: nat)
    requires c < |opts|
  {
    exists b: nat :: i <= b <= c && Value(opts[b]) != []
  }

  /** What option `c` is after options `lo` up to `hi` were read into `m`. */
  ghost function ReadValue(m: Msg, opts: seq<Option<seq<Byte>>>, lo: nat, hi: nat, c: nat): Option<seq<Byte>>
    requires |opts| == |m.opts| == N_OPTIONS && c < N_OPTIONS
  {
    if lo <= c < hi && opts[c].Some? && (m.owns || DataBy(opts, lo, c)) then Some(Value(m.opts[c]) + opts[c].value)
    else m.opts[c]
  }

  /** Options `lo` up to `hi` were added as far as the message had memory; the others are as they were. */
  ghost predicate ReadBack(m: Msg, r: Msg, opts: seq<Option<seq<Byte>>>, lo: nat, hi: nat)
    requires |opts| == |m.opts| == |r.opts| == N_OPTIONS
  {
    forall c: nat :: c < N_OPTIONS ==> r.opts[c] == ReadValue(m, opts, lo, hi, c)
  }

  lemma {:induction false} ReadBackFrom(m: Msg, opts: seq<Option<seq<Byte>>>, base: nat, i: nat)
    requires Writable(opts, base) && i <= 256 && Sound(m)
    ensures ReadBack(m, PutAll(m, ItemsFrom(opts, base, i), base), opts, base + i, base + 256)
    decreases 256 - i
  {
    hide ReadBack, OptionItems, PutAll;
    if i < 256 {
      var o := opts[base + i];
      var m' := if o.None? then m else Put(m, base + i, o.value);
      ReadBackFrom(m', opts, base, i + 1);
      var r := PutAll(m', ItemsFrom(opts, base, i + 1), base);
      if o.Some? {
        PutAllConcat(m, OptionItems(i as Byte, o.value), ItemsFrom(opts, base, i + 1), base);
        OptionIsPut(m, i as Byte, o.value, base);
      }
      StepReadBack(m, m', r, opts, base + i, base + 256);
    } else {
      NothingReadBack(m, opts, base);
    }
  }

  lemma NothingReadBack(m: Msg, opts: seq<Option<seq<Byte>>>, base: nat)
    requires |opts| == |m.opts| == N_OPTIONS && AllProper([]) && Sound(m) && IsOffset(base)
    ensures ReadBack(m, PutAll(m, [], base), opts, base + 256, base + 256)
  {
  }

  lemma StepReadBack(m: Msg, m': Msg, r: Msg, opts: seq<Option<seq<Byte>>>, k: nat, hi: nat)
    requires |opts| == |m.opts| == |r.opts| == N_OPTIONS && k < hi <= N_OPTIONS
    requires Sound(m) && (opts[k].Some? ==> k != PAD && k != END)
    requires m' == if opts[k].None? then m else Put(m, k, opts[k].value)
    requires ReadBack(m', r, opts, k + 1, hi)
    ensures ReadBack(m, r, opts, k, hi)
  {
    hide ReadValue;
    forall c: nat | c < N_OPTIONS
      ensures r.opts[c] == ReadValue(m, opts, k, hi, c)
    {
      StepReadValue(m, m', opts, k, hi, c);
    }
  }

  lemma StepReadValue(m: Msg, m': Msg, opts: seq<Option<seq<Byte>>>, k: nat, hi: nat, c: nat)
    requires |opts| == |m.opts| == N_OPTIONS && k < hi <= N_OPTIONS && c < N_OPTIONS
    requires Sound(m) && (opts[k].Some? ==> k != PAD && k != END)
    requires m' == if opts[k].None? then m else Put(m, k, opts[k].value)
    ensures ReadValue(m', opts, k + 1, hi, c) == ReadValue(m, opts, k, hi, c)
  {
    if c == k {
      assert DataBy(opts, k, k) <==> Value(opts[k]) != [];
    } else if k < c < hi {
      DataFromNext(opts, k, c);
      hide DataBy;
    }
  }

  lemma DataFromNext(opts: seq<Option<seq<Byte>>>, k: nat, c: nat)
    requires k < c < |opts|
    ensures DataBy(opts, k, c) <==> Value(opts[k]) != [] || DataBy(opts, k + 1, c)
  {
    if DataBy(opts, k, c) && Value(opts[k]) == [] {
      var b: nat :| k <= b <= c && Value(opts[b]) != [];
      assert k + 1 <= b;
    }
  }

  /** The vendor's option as it comes back: its own value and then the vendor's options. */
  function VendorValue(opts: seq<Option<seq<Byte>>>): Option<seq<Byte>>
    requires |opts| == N_OPTIONS
  {
    Some(Value(opts[VENDOR_SPECIFIC]) + RawFrom(opts, VENDOR_OFS, 0))
  }

  /** Whether a message holds any option of the vendor. */
  ghost predicate HasVendor(opts: seq<Option<seq<Byte>>>)
    requires |opts| == N_OPTIONS
  {
    exists c: nat :: VENDOR_OFS <= c < N_OPTIONS && opts[c] != None
  }

  lemma VendorBytes(opts: seq<Option<seq<Byte>>>)
    requires |opts| == N_OPTIONS
    ensures RawFrom(opts, VENDOR_OFS, 0) != [] <==> HasVendor(opts)
  {
    RawFromEmpty(opts, VENDOR_OFS, 0);
    hide RawFrom;
  }

  lemma Assoc(a: seq<Byte>, b: seq<Byte>, c: seq<Byte>)
    ensures (a + b) + c == a + (b + c) && a + [] == a && [] + a == a
  {
  }

  lemma ParseStandard(m: Msg, opts: seq<Option<seq<Byte>>>, tail: seq<Byte>)
    requires Sound(m) && Writable(opts, 0) && Stops(tail)
    ensures Parse(m, RawFrom(opts, 0, 0) + tail, 0) == PutAll(m, ItemsFrom(opts, 0, 0), 0)
  {
    RawFromIsWritten(opts, 0, 0);
    ParseWrites(m, ItemsFrom(opts, 0, 0), tail, 0);
    hide RawFrom, ItemsFrom, Parse, PutAll, Write;
  }

  lemma ParseWithVendor(m: Msg, opts: seq<Option<seq<Byte>>>, v: seq<Byte>, tail: seq<Byte>)
    requires Sound(m) && Writable(opts, 0) && Stops(tail)
    ensures Parse(m, RawFrom(opts, 0, 0) + (RawOption(VENDOR_SPECIFIC as Byte, v) + tail), 0) ==
            Put(PutAll(m, ItemsFrom(opts, 0, 0), 0), VENDOR_SPECIFIC, v)
  {
    hide RawFrom, RawOption, OptionItems, ItemsFrom, Parse, PutAll, Put, Write, Stops, Sound, AllProper;
    RawFromIsWritten(opts, 0, 0);
    RawIsWritten(VENDOR_SPECIFIC as Byte, v);
    ParseBoth(m, ItemsFrom(opts, 0, 0), OptionItems(VENDOR_SPECIFIC as Byte, v),
              RawFrom(opts, 0, 0), RawOption(VENDOR_SPECIFIC as Byte, v), tail);
    OptionIsPut(PutAll(m, ItemsFrom(opts, 0, 0), 0), VENDOR_SPECIFIC as Byte, v, 0);
  }

  lemma ParseBoth(m: Msg, a: seq<Item>, b: seq<Item>, x: seq<Byte>, y: seq<Byte>, tail: seq<Byte>)
    requires Sound(m) && AllProper(a) && AllProper(b) && Stops(tail) && x == Write(a) && y == Write(b)
    ensures Parse(m, x + (y + tail), 0) == PutAll(PutAll(m, a, 0), b, 0)
  {
    hide Parse, PutAll, Write, Stops, Sound, Proper;
    WriteConcat(a, b);
    Assoc(Write(a), Write(b), tail);
    ParseWrites(m, a + b, tail, 0);
    PutAllConcat(m, a, b, 0);
  }

  lemma AreaParts(opts: seq<Option<seq<Byte>>>, junk: seq<Byte>) returns (tail: seq<Byte>)
    requires |opts| == N_OPTIONS
    ensures Stops(tail)
    ensures var a, v := RawFrom(opts, 0, 0), RawFrom(opts, VENDOR_OFS, 0);
            && (v == [] ==> Area(opts) + junk == a + tail)
            && (v != [] ==> Area(opts) + junk == a + (RawOption(VENDOR_SPECIFIC as Byte, v) + tail))
  {
    tail := [END as Byte] + junk;
    hide RawFrom, RawOption;
    var a, v := RawFrom(opts, 0, 0), RawVendor(opts);
    Assoc(a + v, [END as Byte], junk);
    Assoc(a, v, tail);
    Assoc(tail, [], []);
  }

  /** Reading the options and END is adding the standard options and then the vendor's. */
  lemma ParseArea(m: Msg, opts: seq<Option<seq<Byte>>>, junk: seq<Byte>)
    requires Sound(m) && Writable(opts, 0)
    ensures var n, v := PutAll(m, ItemsFrom(opts, 0, 0), 0), RawFrom(opts, VENDOR_OFS, 0);
            Parse(m, Area(opts) + junk, 0) == if v == [] then n else Put(n, VENDOR_SPECIFIC, v)
  {
    var tail := AreaParts(opts, junk);
    var v := RawFrom(opts, VENDOR_OFS, 0);
    hide RawFrom, RawOption, ItemsFrom, Parse, PutAll, Put, Stops, Area;
    if v == [] {
      ParseStandard(m, opts, tail);
    } else {
      ParseWithVendor(m, opts, v, tail);
    }
  }

  lemma NothingYet()
    ensures Sound(NoOptions()) && !NoOptions().owns && forall c: nat :: c < N_OPTIONS ==> NoOptions().opts[c] == None
  {
  }

  /** A message of which nothing but its type was read yet. */
  ghost predicate Typed(m: Msg, kind: Byte) {
    && Sound(m) && (m.owns <==> kind != 0)
    && forall c: nat :: c < N_OPTIONS ==> m.opts[c] == if c == MSG_TYPE && kind != 0 then Some([kind]) else None
  }

  /** Reading starts with the type, which gives the message memory. */
  lemma ParseType(kind: Byte, rest: seq<Byte>) returns (m: Msg)
    ensures Typed(m, kind) && Parse(NoOptions(), RawType(kind) + rest, 0) == Parse(m, rest, 0)
  {
    hide Parse;
    NothingYet();
    m := NoOptions();
    if kind == 0 {
      Assoc(rest, [], []);
    } else {
      m := Put(NoOptions(), MSG_TYPE, [kind]);
      Assoc([kind], [], []);
      ParseOne(NoOptions(), Opt(MSG_TYPE as Byte, [kind]), rest, 0);
    }
  }

  /** Option `c` as it comes back when the message has memory from the start, or an earlier option brought some. */
  ghost function ComesBack(kind: Byte, opts: seq<Option<seq<Byte>>>, c: nat): Option<seq<Byte>>
    requires |opts| == N_OPTIONS && c < N_OPTIONS
  {
    if c == VENDOR_SPECIFIC && HasVendor(opts) then VendorValue(opts)
    else if c == MSG_TYPE && kind != 0 then Some([kind] + Value(opts[c]))
    else if c < VENDOR_OFS && (kind != 0 || DataBy(opts, 0, c)) then opts[c] else None
  }

  /**
   * Reading back any message gives each standard option its value, with two exceptions: the
   * type stands in front of its own option, and the vendor's options are appended to the
   * one that carries them.  In a message of type 0, and only there, empty options before
   * the first one with data are dropped.  What follows END does not matter.
   */
  lemma RoundTrip(kind: Byte, opts: seq<Option<seq<Byte>>>, junk: seq<Byte>, c: nat)
    requires Writable(opts, 0) && c < N_OPTIONS
    ensures Parse(NoOptions(), Encode(kind, opts) + junk, 0).opts[c] == ComesBack(kind, opts, c)
  {
    hide Parse, RawType, ComesBack, Area;
    Assoc(RawType(kind), Area(opts), junk);
    var m := ParseType(kind, Area(opts) + junk);
    ReadArea(m, kind, opts, junk, c);
  }

  lemma ReadArea(m: Msg, kind: Byte, opts: seq<Option<seq<Byte>>>, junk: seq<Byte>, c: nat)
    requires Writable(opts, 0) && c < N_OPTIONS && Typed(m, kind)
    ensures Parse(m, Area(opts) + junk, 0).opts[c] == ComesBack(kind, opts, c)
  {
    var n, v := PutAll(m, ItemsFrom(opts, 0, 0), 0), RawFrom(opts, VENDOR_OFS, 0);
    ReadStandard(m, kind, opts, c);
    ParseArea(m, opts, junk);
    VendorBytes(opts);
    hide RawFrom, Area, ItemsFrom, Parse, PutAll, HasVendor, DataBy, Sound, Put, Writable;
    if v != [] {
      PutOne(n, VENDOR_SPECIFIC, v, c);
    }
  }

  lemma ReadStandard(m: Msg, kind: Byte, opts: seq<Option<seq<Byte>>>, c: nat)
    requires Writable(opts, 0) && c < N_OPTIONS && Typed(m, kind)
    ensures var n := PutAll(m, ItemsFrom(opts, 0, 0), 0);
            && n.opts[c] == (if c == MSG_TYPE && kind != 0 then Some([kind] + Value(opts[c]))
                             else if c < VENDOR_OFS && (kind != 0 || DataBy(opts, 0, c)) then opts[c] else None)
            && (c < VENDOR_OFS && c != MSG_TYPE ==> Value(n.opts[c]) == Value(opts[c]))
  {
    ReadBackFrom(m, opts, 0, 0);
    assert PutAll(m, ItemsFrom(opts, 0, 0), 0).opts[c] == ReadValue(m, opts, 0, 256, c);
    assert Value(opts[c]) != [] ==> DataBy(opts, 0, c);
    hide PutAll, ItemsFrom, ReadBack, DataBy, Sound;
    Assoc(Value(opts[c]), [], []);
    Assoc([kind], [], []);
  }

  lemma PutOne(m: Msg, code: nat, v: seq<Byte>, c: nat)
    requires Sound(m) && code < N_OPTIONS && c < N_OPTIONS && code != PAD && code != END && v != []
    ensures Put(m, code, v).opts[c] == if c == code then Some(Value(m.opts[c]) + v) else m.opts[c]
  {
  }

  /**
   * The standard options other than the type come back as they were exactly when there are no
   * vendor's, and the message has a type or no empty option precedes the first with data.
   * The type comes back alone exactly if the option of its code held nothing.
   */
  lemma RoundTripIff(kind: Byte, opts: seq<Option<seq<Byte>>>, junk: seq<Byte>)
    requires Writable(opts, 0)
    ensures var r := Parse(NoOptions(), Encode(kind, opts) + junk, 0);
            && ((forall c: nat :: c < VENDOR_OFS && c != MSG_TYPE ==> r.opts[c] == opts[c]) <==>
                 && !HasVendor(opts)
                 && (kind != 0 || forall c: nat :: c < VENDOR_OFS && c != MSG_TYPE && opts[c].Some? ==> DataBy(opts, 0, c)))
            && (kind != 0 ==> (r.opts[MSG_TYPE] == Some([kind]) <==> Value(opts[MSG_TYPE]) == []))
  {
    var r := Parse(NoOptions(), Encode(kind, opts) + junk, 0);
    forall c: nat | c < VENDOR_OFS
      ensures r.opts[c] == ComesBack(kind, opts, c)
    {
      RoundTrip(kind, opts, junk, c);
    }
    if HasVendor(opts) {
      VendorGrows(opts);
    }
    Assoc([kind], [], []);
    assert |[kind] + Value(opts[MSG_TYPE])| == 1 + |Value(opts[MSG_TYPE])|;
    hide Parse, Encode, VendorValue, DataBy, HasVendor;
  }

  lemma VendorGrows(opts: seq<Option<seq<Byte>>>)
    requires |opts| == N_OPTIONS && HasVendor(opts)
    ensures VendorValue(opts) != opts[VENDOR_SPECIFIC]
  {
    VendorBytes(opts);
    assert |VendorValue(opts).value| > |Value(opts[VENDOR_SPECIFIC])|;
  }

  /**
   In particular, standard options that all hold data come back exactly, whatever the type,
   that of the type and the one that carries the vendor's apart.
   */
  lemma DataComesBack(kind: Byte, opts: seq<Option<seq<Byte>>>, junk: seq<Byte>, c: nat)
    requires Writable(opts, 0) && c < VENDOR_OFS
    requires forall b: nat :: b < VENDOR_OFS && opts[b].Some? ==> opts[b].value != []
    ensures (c == VENDOR_SPECIFIC && HasVendor(opts)) || (c == MSG_TYPE && kind != 0) ||
            Parse(NoOptions(), Encode(kind, opts) + junk, 0).opts[c] == opts[c]
  {
    RoundTrip(kind, opts, junk, c);
    if opts[c].Some? {
      assert Value(opts[c]) != [];
    }
  }

  /**
   * Reading what carries them, the vendor's options come back, empty ones too, exactly
   * if none has the code of a pad or of the end.
   */
  lemma VendorComesBack(opts: seq<Option<seq<Byte>>>, m: Msg)
    requires |opts| == N_OPTIONS && Sound(m) && m.owns
    requires forall c: nat :: VENDOR_OFS <= c < N_OPTIONS ==> m.opts[c] == None
    ensures var r := Parse(m, RawFrom(opts, VENDOR_OFS, 0), VENDOR_OFS);
            (forall c: nat :: VENDOR_OFS <= c < N_OPTIONS ==> r.opts[c] == opts[c]) <==> Writable(opts, VENDOR_OFS)
  {
    var d := RawFrom(opts, VENDOR_OFS, 0);
    if Writable(opts, VENDOR_OFS) {
      VendorRead(opts, m);
    } else {
      NeverParsed(m, d);
    }
  }

  lemma VendorRead(opts: seq<Option<seq<Byte>>>, m: Msg)
    requires Writable(opts, VENDOR_OFS) && Sound(m) && m.owns
    requires forall c: nat :: VENDOR_OFS <= c < N_OPTIONS ==> m.opts[c] == None
    ensures forall c: nat :: VENDOR_OFS <= c < N_OPTIONS ==> Parse(m, RawFrom(opts, VENDOR_OFS, 0), VENDOR_OFS).opts[c] == opts[c]
  {
    hide Parse, PutAll, ItemsFrom, RawFrom, Write, DataBy;
    RawFromIsWritten(opts, VENDOR_OFS, 0);
    var items := ItemsFrom(opts, VENDOR_OFS, 0);
    ParseWrites(m, items, [], VENDOR_OFS);
    Assoc(Write(items), [], []);
    ReadBackFrom(m, opts, VENDOR_OFS, 0);
    forall c: nat | VENDOR_OFS <= c < N_OPTIONS
      ensures ReadValue(m, opts, VENDOR_OFS, N_OPTIONS, c) == opts[c]
    {
      Assoc(Value(opts[c]), [], []);
    }
  }

  /** Reading never adds an option with the code of a pad or of the end. */
  lemma {:induction false} NeverParsed(m: Msg, d: seq<Byte>)
    requires Sound(m)
    ensures var r := Parse(m, d, VENDOR_OFS);
            r.opts[VENDOR_OFS + PAD] == m.opts[VENDOR_OFS + PAD] && r.opts[VENDOR_OFS + END] == m.opts[VENDOR_OFS + END]
    decreases |d|
  {
    if d == [] || d[0] as nat == END {
    } else if d[0] as nat == PAD {
      NeverParsed(m, d[1..]);
    } else if |d| >= 2 && |d| - 2 >= d[1] as nat {
      var n := d[1] as nat;
      NeverParsed(Put(m, d[0] as nat + VENDOR_OFS, d[2..2 + n]), d[2 + n..]);
    }
  }

  /** A vendor's option with the code of a pad, which can be put into a message, does not come back. */
  lemma VendorCodeLost(m: Msg) returns (opts: seq<Option<seq<Byte>>>)
    requires Sound(m) && m.opts[VENDOR_OFS] == None
    ensures Put(m, VENDOR_OFS, [7]).opts[VENDOR_OFS] == Some([7])
    ensures |opts| == N_OPTIONS && opts[VENDOR_OFS] == Some([7]) && !Writable(opts, VENDOR_OFS)
    ensures Parse(m, RawFrom(opts, VENDOR_OFS, 0), VENDOR_OFS).opts[VENDOR_OFS] == None
  {
    opts := seq(N_OPTIONS, i => if i == VENDOR_OFS then Some([7]) else None);
    NeverParsed(m, RawFrom(opts, VENDOR_OFS, 0));
    Assoc([7], [], []);
  }

  /** An empty host name (12) before a requested address (50) comes back with a type, and does not without. */
  lemma EmptyOptionLost() returns (opts: seq<Option<seq<Byte>>>)
    ensures Writable(opts, 0) && opts[12] == Some([])
    ensures Parse(NoOptions(), Encode(0, opts), 0).opts[12] == None
    ensures Parse(NoOptions(), Encode(1, opts), 0).opts[12] == Some([])
  {
    opts := seq(N_OPTIONS, i => if i == 12 then Some([]) else if i == 50 then Some([10, 0, 0, 1]) else None);
    assert forall b: nat :: b <= 12 ==> Value(opts[b]) == [];
    RoundTrip(0, opts, [], 12);
    RoundTrip(1, opts, [], 12);
    hide Encode, Parse;
    Assoc(Encode(0, opts), [], []);
    Assoc(Encode(1, opts), [], []);
  }
}
