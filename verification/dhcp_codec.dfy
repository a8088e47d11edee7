/**
 * Whole DHCP messages on the wire: `dhcp_assemble` and `dhcp_parse` (lib/dhcp.c).
 */
module DhcpCodec {
  import opened Options
  import opened Bytes
  import opened DhcpMemory
  import opened DhcpOptions

  const HEADER: nat := 236
  const COOKIE_LEN: nat := 4
  const COOKIE: seq<Byte> := [0x63, 0x82, 0x53, 0x63]
  const OVERLOAD: nat := 52
  const VENDOR_CLASS: nat := 60
  const OPEN_FLOW: seq<Byte> := [79, 112, 101, 110, 70, 108, 111, 119]

  function Zeros(n: nat): (r: seq<Byte>)
    ensures |r| == n
  {
    seq(n, _ => 0)
  }

  /** A message as it is sent; `fixed` is the transaction, the times and flags and the addresses. */
  function Assembled(op: Byte, fixed: seq<Byte>, kind: Byte, opts: seq<Option<seq<Byte>>>): seq<Byte>
    requires |fixed| == 30 && |opts| == N_OPTIONS
  {
    [op, 1, 6, 0] + fixed + Zeros(202) + COOKIE + Encode(kind, opts)
  }

  /** A string ends before its first 0. */
  function CString(v: seq<Byte>): seq<Byte> {
    if v == [] || v[0] == 0 then [] else [v[0]] + CString(v[1..])
  }

  /** The vendor's options are read only from messages of this class. */
  predicate IsOpenFlow(o: Option<seq<Byte>>) {
    o.Some? && CString(o.value) == OPEN_FLOW
  }

  /** The first byte of an option tells whether the boot file (bit 0) and server name (bit 1) hold more options. */
  function Overloads(v: seq<Byte>, bit: Byte): bool
    requires bit == 1 || bit == 2
  {
    v != [] && v[0] / bit % 2 == 1
  }

  /** Whether a packet holds options: the cookie is there, and after it as much as a pointer has bytes. */
  predicate HasOptions(b: seq<Byte>, width: nat)
    requires |b| >= HEADER && width >= COOKIE_LEN
  {
    |b| >= HEADER + width && b[HEADER..HEADER + COOKIE_LEN] == COOKIE
  }

  /** Reads the boot file and the server name as well, if `v` says so. */
  function Overloaded(m: Msg, v: seq<Byte>, file: seq<Byte>, sname: seq<Byte>): (r: Msg)
    requires Sound(m)
    ensures Sound(r)
  {
    var m1 := if Overloads(v, 1) then Parse(m, file, 0) else m;
    if Overloads(v, 2) then Parse(m1, sname, 0) else m1
  }

  function OverloadedMemory(l: Memory, v: seq<Byte>, file: seq<Byte>, sname: seq<Byte>): (r: Memory)
    requires |l.slots| == N_OPTIONS
    ensures |r.slots| == N_OPTIONS
  {
    var l1 := if Overloads(v, 1) then ParseMemory(l, file, 0) else l;
    if Overloads(v, 2) then ParseMemory(l1, sname, 0) else l1
  }

  /** The options area of a packet. */
  function FromArea(b: seq<Byte>, width: nat): (m: Msg)
    requires |b| >= HEADER && width >= COOKIE_LEN
    ensures Sound(m)
  {
    if HasOptions(b, width) then Parse(NoOptions(), b[HEADER + width..], 0) else NoOptions()
  }

  /** All the options of a packet; `width` is the size of a pointer. */
  function Received(b: seq<Byte>, width: nat): (m: Msg)
    requires |b| >= HEADER && width >= COOKIE_LEN
    ensures Sound(m)
  {
    var m := FromArea(b, width);
    Overloaded(m, Value(m.opts[OVERLOAD]), b[108..236], b[44..108])
  }

  function NoMemory(): (l: Memory)
    ensures |l.slots| == N_OPTIONS
  {
    Memory(seq(N_OPTIONS, _ => Slot(None, 0)), 0, None)
  }

  function AreaMemory(b: seq<Byte>, width: nat): (l: Memory)
    requires |b| >= HEADER && width >= COOKIE_LEN
    ensures |l.slots| == N_OPTIONS
  {
    if HasOptions(b, width) then ParseMemory(NoMemory(), b[HEADER + width..], 0) else NoMemory()
  }

  function ReceivedMemory(b: seq<Byte>, width: nat): (l: Memory)
    requires |b| >= HEADER && width >= COOKIE_LEN
    ensures |l.slots| == N_OPTIONS
  {
    OverloadedMemory(AreaMemory(b, width), Value(FromArea(b, width).opts[OVERLOAD]), b[108..236], b[44..108])
  }

  function WithVendor(m: Msg): (r: Msg)
    requires Sound(m)
    ensures Sound(r)
  {
    if IsOpenFlow(m.opts[VENDOR_CLASS]) then Parse(m, Value(m.opts[VENDOR_SPECIFIC]), VENDOR_OFS) else m
  }

  /** Reading the vendor's options does not move the block that they are read from. */
  predicate StaysPut(b: seq<Byte>, width: nat)
    requires |b| >= HEADER && width >= COOKIE_LEN
  {
    var m := Received(b, width);
    IsOpenFlow(m.opts[VENDOR_CLASS]) ==> Undisturbed(ReceivedMemory(b, width), Value(m.opts[VENDOR_SPECIFIC]), VENDOR_OFS)
  }

  /** Options of a length that their kind does not allow are dropped; `keeps` is the table of kinds. */
  function Validated(opts: seq<Option<seq<Byte>>>, keeps: (nat, nat) -> bool): (r: seq<Option<seq<Byte>>>)
    ensures |r| == |opts|
  {
    seq(|opts|, c requires 0 <= c < |opts| => Allowed(c, opts[c], keeps))
  }

  function Allowed(c: nat, o: Option<seq<Byte>>, keeps: (nat, nat) -> bool): Option<seq<Byte>> {
    if o.Some? && keeps(c, |o.value|) then o else None
  }

  datatype Parsed = Refused | Accepted(op: Byte, fixed: seq<Byte>, kind: Byte, opts: seq<Option<seq<Byte>>>)

  predicate GoodHeader(b: seq<Byte>) {
    |b| >= HEADER && (b[0] == 1 || b[0] == 2) && b[1] == 1 && b[2] == 6
  }

  /** What a packet is read as, provided that the block stays put. */
  function ParseMessage(b: seq<Byte>, width: nat, keeps: (nat, nat) -> bool): Parsed
    requires width >= COOKIE_LEN
  {
    if !GoodHeader(b) then Refused
    else
      var opts := Validated(WithVendor(Received(b, width)).opts, keeps);
      var v := Value(opts[MSG_TYPE]);
      if v == [] then Refused else Accepted(b[0], b[4..34], v[0], opts)
  }

  // ---- Reading back ----

  lemma {:induction false} PadsAreSkipped(m: Msg, n: nat, offset: nat)
    requires Sound(m) && IsOffset(offset)
    ensures Parse(m, Zeros(n), offset) == m
  {
    if n > 0 {
      PadsAreSkipped(m, n - 1, offset);
      assert Zeros(n)[1..] == Zeros(n - 1);
    }
  }

  lemma AssembledParts(op: Byte, fixed: seq<Byte>, kind: Byte, opts: seq<Option<seq<Byte>>>)
    requires |fixed| == 30 && |opts| == N_OPTIONS
    ensures var b := Assembled(op, fixed, kind, opts);
            && |b| == HEADER + COOKIE_LEN + |Encode(kind, opts)|
            && b[0] == op && b[1] == 1 && b[2] == 6 && b[4..34] == fixed
            && b[44..108] == Zeros(64) && b[108..236] == Zeros(128)
            && b[HEADER..HEADER + COOKIE_LEN] == COOKIE && b[HEADER + COOKIE_LEN..] == Encode(kind, opts)
  {
    hide Encode;
    var b := Assembled(op, fixed, kind, opts);
    var front := [op, 1, 6, 0] + fixed + Zeros(202);
    assert |front| == HEADER && b[..HEADER] == front;
    assert b[4..34] == front[4..34] == fixed;
    assert b[44..108] == front[44..108] == Zeros(64);
    assert b[108..236] == front[108..236] == Zeros(128);
  }

  /** With pointers as long as the cookie, the options received are the ones that were put in. */
  lemma AssembledIsReceived(op: Byte, fixed: seq<Byte>, kind: Byte, opts: seq<Option<seq<Byte>>>)
    requires |fixed| == 30 && |opts| == N_OPTIONS
    ensures var b := Assembled(op, fixed, kind, opts);
            |b| >= HEADER && Received(b, COOKIE_LEN) == Parse(NoOptions(), Encode(kind, opts), 0)
  {
    hide Parse, Encode, Assembled;
    AssembledParts(op, fixed, kind, opts);
    NothingYet();
    var m := Parse(NoOptions(), Encode(kind, opts), 0);
    PadsAreSkipped(m, 128, 0);
    PadsAreSkipped(m, 64, 0);
  }

  /** Reading vendor's options leaves the standard ones alone. */
  lemma {:induction false} StandardKept(m: Msg, d: seq<Byte>, c: nat)
    requires Sound(m) && c < VENDOR_OFS
    ensures Parse(m, d, VENDOR_OFS).opts[c] == m.opts[c]
    decreases |d|
  {
    if d == [] || d[0] as nat == END {
    } else if d[0] as nat == PAD {
      StandardKept(m, d[1..], c);
    } else if |d| >= 2 && |d| - 2 >= d[1] as nat {
      var n := d[1] as nat;
      StandardKept(Put(m, d[0] as nat + VENDOR_OFS, d[2..2 + n]), d[2 + n..], c);
    }
  }

  /** The type of a message as it stands in the packet: its own, and the option of that code. */
  function TypeSent(kind: Byte, opts: seq<Option<seq<Byte>>>): seq<Byte>
    requires |opts| == N_OPTIONS
  {
    (if kind == 0 then [] else [kind]) + Value(opts[MSG_TYPE])
  }

  ghost predicate TypeIsOneByte(keeps: (nat, nat) -> bool) {
    forall n: nat :: keeps(MSG_TYPE, n) <==> n == 1
  }

  /** The standard options of a message that was sent, as far as `keeps` lets them pass, and its type. */
  lemma SentIsReceived(op: Byte, fixed: seq<Byte>, kind: Byte, opts: seq<Option<seq<Byte>>>, c: nat)
    requires |fixed| == 30 && Writable(opts, 0) && c < N_OPTIONS
    ensures var b := Assembled(op, fixed, kind, opts);
            && |b| >= HEADER && Received(b, COOKIE_LEN).opts[c] == ComesBack(kind, opts, c)
            && (c < VENDOR_OFS ==> WithVendor(Received(b, COOKIE_LEN)).opts[c] == ComesBack(kind, opts, c))
  {
    hide Assembled, Received, Parse, ComesBack;
    AssembledIsReceived(op, fixed, kind, opts);
    Assoc(Encode(kind, opts), [], []);
    RoundTrip(kind, opts, [], c);
    var m := Received(Assembled(op, fixed, kind, opts), COOKIE_LEN);
    if c < VENDOR_OFS {
      StandardKept(m, Value(m.opts[VENDOR_SPECIFIC]), c);
    }
  }

  lemma TypeComesBack(kind: Byte, opts: seq<Option<seq<Byte>>>)
    requires |opts| == N_OPTIONS
    ensures Value(ComesBack(kind, opts, MSG_TYPE)) == TypeSent(kind, opts)
    ensures TypeSent(kind, opts) != [] ==> ComesBack(kind, opts, MSG_TYPE).Some?
  {
    Assoc(Value(opts[MSG_TYPE]), [], []);
    assert Value(opts[MSG_TYPE]) != [] ==> DataBy(opts, 0, MSG_TYPE);
  }

  /** A message with a good header is accepted exactly if it has one byte of type. */
  lemma Judged(b: seq<Byte>, width: nat, keeps: (nat, nat) -> bool)
    requires GoodHeader(b) && width >= COOKIE_LEN && TypeIsOneByte(keeps)
    ensures var r, opts := ParseMessage(b, width, keeps), WithVendor(Received(b, width)).opts;
            && (r.Accepted? <==> |Value(opts[MSG_TYPE])| == 1)
            && (r.Accepted? ==>
                  && r.op == b[0] && r.fixed == b[4..34] && [r.kind] == Value(opts[MSG_TYPE]) && |r.opts| == N_OPTIONS
                  && forall c: nat :: c < N_OPTIONS ==> r.opts[c] == Allowed(c, opts[c], keeps))
  {
    hide Received, WithVendor;
  }

  /**
   * A message that is sent is accepted if and only if it has one byte of type in all, and then its
   * header, its type and its standard options come back, as far as they are of a length
   * allowed for them; `RoundTrip` says which two options come back changed.
   */
  lemma MessageComesBack(op: Byte, fixed: seq<Byte>, kind: Byte, opts: seq<Option<seq<Byte>>>, keeps: (nat, nat) -> bool)
    requires |fixed| == 30 && Writable(opts, 0) && (op == 1 || op == 2) && TypeIsOneByte(keeps)
    ensures var r := ParseMessage(Assembled(op, fixed, kind, opts), COOKIE_LEN, keeps);
            && (r.Accepted? <==> |TypeSent(kind, opts)| == 1)
            && (r.Accepted? ==>
                  && r.op == op && r.fixed == fixed && [r.kind] == TypeSent(kind, opts) && |r.opts| == N_OPTIONS
                  && forall c: nat :: c < VENDOR_OFS ==> r.opts[c] == Allowed(c, ComesBack(kind, opts, c), keeps))
  {
    hide Assembled, Received, WithVendor, ComesBack, TypeSent, ParseMessage, Allowed;
    var b := Assembled(op, fixed, kind, opts);
    AssembledParts(op, fixed, kind, opts);
    Judged(b, COOKIE_LEN, keeps);
    forall c: nat | c < VENDOR_OFS
      ensures WithVendor(Received(b, COOKIE_LEN)).opts[c] == ComesBack(kind, opts, c)
    {
      SentIsReceived(op, fixed, kind, opts, c);
    }
    TypeComesBack(kind, opts);
  }

  /**
   * Of the vendor's options all come back, as far as their lengths are allowed, if the message is
   * of the vendor's class, its own option for them is empty and none has the code of a pad or of the
   * end; from a message of another class none does.
   */
  lemma VendorMessageComesBack(op: Byte, fixed: seq<Byte>, kind: Byte, opts: seq<Option<seq<Byte>>>, keeps: (nat, nat) -> bool)
    requires |fixed| == 30 && Writable(opts, 0) && (op == 1 || op == 2) && TypeIsOneByte(keeps) && kind != 0
    requires |TypeSent(kind, opts)| == 1
    ensures var r := ParseMessage(Assembled(op, fixed, kind, opts), COOKIE_LEN, keeps);
            && r.Accepted? && |r.opts| == N_OPTIONS
            && (IsOpenFlow(opts[VENDOR_CLASS]) && Value(opts[VENDOR_SPECIFIC]) == [] && Writable(opts, VENDOR_OFS) ==>
                  forall c: nat :: VENDOR_OFS <= c < N_OPTIONS ==> r.opts[c] == Allowed(c, opts[c], keeps))
            && (!IsOpenFlow(opts[VENDOR_CLASS]) ==> forall c: nat :: VENDOR_OFS <= c < N_OPTIONS ==> r.opts[c] == None)
  {
    hide Assembled, Received, TypeSent, IsOpenFlow, Parse;
    var b := Assembled(op, fixed, kind, opts);
    MessageComesBack(op, fixed, kind, opts, keeps);
    VendorReceived(op, fixed, kind, opts);
  }

  /**
   * Before lengths are looked at: from a message of the vendor's class whose own option for them is
   * empty all the vendor's options come back exactly if none has the code of a pad or of the end.
   */
  lemma VendorReceived(op: Byte, fixed: seq<Byte>, kind: Byte, opts: seq<Option<seq<Byte>>>)
    requires |fixed| == 30 && Writable(opts, 0) && kind != 0
    ensures var b := Assembled(op, fixed, kind, opts);
            && |b| >= HEADER
            && (IsOpenFlow(opts[VENDOR_CLASS]) && Value(opts[VENDOR_SPECIFIC]) == [] ==>
                  ((forall c: nat :: VENDOR_OFS <= c < N_OPTIONS ==> WithVendor(Received(b, COOKIE_LEN)).opts[c] == opts[c]) <==>
                   Writable(opts, VENDOR_OFS)))
            && (!IsOpenFlow(opts[VENDOR_CLASS]) ==>
                  forall c: nat :: VENDOR_OFS <= c < N_OPTIONS ==> WithVendor(Received(b, COOKIE_LEN)).opts[c] == None)
  {
    hide Assembled, Received, IsOpenFlow, Parse, RawFrom, HasVendor;
    AssembledParts(op, fixed, kind, opts);
    var m := Received(Assembled(op, fixed, kind, opts), COOKIE_LEN);
    forall c: nat | c < N_OPTIONS
      ensures m.opts[c] == ComesBack(kind, opts, c)
    {
      SentIsReceived(op, fixed, kind, opts, c);
    }
    VendorBytes(opts);
    Assoc(RawFrom(opts, VENDOR_OFS, 0), [], []);
    assert m.opts[MSG_TYPE].Some? && m.opts[VENDOR_CLASS] == opts[VENDOR_CLASS];
    assert Value(opts[VENDOR_SPECIFIC]) == [] ==> Value(m.opts[VENDOR_SPECIFIC]) == RawFrom(opts, VENDOR_OFS, 0);
    VendorComesBack(opts, m);
  }

  /** A message that was received, sent on as it is, is accepted again exactly if its type is 0. */
  lemma SentOn(b: seq<Byte>, width: nat, keeps: (nat, nat) -> bool)
    requires width >= COOKIE_LEN && TypeIsOneByte(keeps) && ParseMessage(b, width, keeps).Accepted?
    ensures var r := ParseMessage(b, width, keeps);
            && |r.fixed| == 30 && |r.opts| == N_OPTIONS
            && (ParseMessage(Assembled(r.op, r.fixed, r.kind, r.opts), COOKIE_LEN, keeps).Accepted? <==> r.kind == 0)
  {
    hide Received, WithVendor, Assembled, ParseMessage;
    var r := ParseMessage(b, width, keeps);
    AcceptedIsWritable(b, width, keeps);
    MessageComesBack(r.op, r.fixed, r.kind, r.opts, keeps);
  }

  lemma AcceptedIsWritable(b: seq<Byte>, width: nat, keeps: (nat, nat) -> bool)
    requires width >= COOKIE_LEN && TypeIsOneByte(keeps) && ParseMessage(b, width, keeps).Accepted?
    ensures var r := ParseMessage(b, width, keeps);
            && |r.fixed| == 30 && Writable(r.opts, 0) && (r.op == 1 || r.op == 2) && |Value(r.opts[MSG_TYPE])| == 1
  {
    hide Received, WithVendor;
  }

  /** A message that also has its type among its options is refused. */
  lemma TypeTwice(keeps: (nat, nat) -> bool) returns (opts: seq<Option<seq<Byte>>>)
    requires TypeIsOneByte(keeps)
    ensures Writable(opts, 0) && opts[MSG_TYPE] == Some([5])
    ensures ParseMessage(Assembled(2, Zeros(30), 5, opts), COOKIE_LEN, keeps).Refused?
  {
    hide ParseMessage, Assembled;
    opts := seq(N_OPTIONS, i => if i == MSG_TYPE then Some([5]) else None);
    MessageComesBack(2, Zeros(30), 5, opts, keeps);
  }

  /** What can be sent and is to be accepted. */
  predicate Sendable(op: Byte, fixed: seq<Byte>, kind: Byte, opts: seq<Option<seq<Byte>>>) {
    |fixed| == 30 && Writable(opts, 0) && (op == 1 || op == 2) && |TypeSent(kind, opts)| == 1
  }

  /**
   * As much is skipped for the cookie as a pointer has bytes: all that can be sent is accepted
   * exactly if that is the length of the cookie.
   */
  lemma WidthMatters(width: nat, keeps: (nat, nat) -> bool)
    requires (width == 4 || width == 8) && TypeIsOneByte(keeps)
    ensures width == 4 <==>
            forall op: Byte, fixed: seq<Byte>, kind: Byte, opts: seq<Option<seq<Byte>>> :: Sendable(op, fixed, kind, opts) ==>
              ParseMessage(Assembled(op, fixed, kind, opts), width, keeps).Accepted?
  {
    hide ParseMessage, Assembled;
    if width == 4 {
      forall op: Byte, fixed: seq<Byte>, kind: Byte, opts: seq<Option<seq<Byte>>> | Sendable(op, fixed, kind, opts)
        ensures ParseMessage(Assembled(op, fixed, kind, opts), width, keeps).Accepted?
      {
        MessageComesBack(op, fixed, kind, opts, keeps);
      }
    } else {
      var opts := BareMessageRefused(keeps);
      assert Sendable(1, Zeros(30), 1, opts);
    }
  }

  /** A message with a type and nothing else, read where pointers have 8 bytes. */
  lemma BareMessageRefused(keeps: (nat, nat) -> bool) returns (opts: seq<Option<seq<Byte>>>)
    ensures Sendable(1, Zeros(30), 1, opts) && ParseMessage(Assembled(1, Zeros(30), 1, opts), 8, keeps).Refused?
  {
    opts := NoOptions().opts;
    NothingYet();
    var b := Assembled(1, Zeros(30), 1, opts);
    AssembledParts(1, Zeros(30), 1, opts);
    RawFromEmpty(opts, 0, 0);
    RawFromEmpty(opts, VENDOR_OFS, 0);
    assert |b| == HEADER + 8;
    hide Assembled, Parse;
    NothingToRead(b, keeps);
  }

  lemma NothingToRead(b: seq<Byte>, keeps: (nat, nat) -> bool)
    requires |b| == HEADER + 8
    ensures ParseMessage(b, 8, keeps).Refused?
  {
    NothingYet();
    var m := Received(b, 8);
    assert b[HEADER + 8..] == [];
    assert m == NoOptions();
    assert WithVendor(m) == m;
  }

  // ---- Where the vendor's options lie ----

  lemma {:induction false} RawFromOne(opts: seq<Option<seq<Byte>>>, base: nat, i: nat, c: nat)
    requires |opts| == N_OPTIONS && IsOffset(base) && i <= c < 256 && opts[base + c].Some?
    requires forall k: nat :: base + i <= k < base + 256 && k != base + c ==> opts[k] == None
    ensures RawFrom(opts, base, i) == RawOption(c as Byte, opts[base + c].value)
    decreases c - i
  {
    hide RawOption;
    if i < c {
      RawFromOne(opts, base, i + 1, c);
      Assoc(RawFrom(opts, base, i + 1), [], []);
    } else {
      RawFromEmpty(opts, base, i + 1);
      Assoc(RawOption(c as Byte, opts[base + c].value), [], []);
    }
  }

  /** Reading an option of at most 255 bytes. */
  lemma MemoryOfOption(l: Memory, code: Byte, v: seq<Byte>, rest: seq<Byte>)
    requires |l.slots| == N_OPTIONS && Plain(code) && |v| <= 255
    ensures ParseMemory(l, RawOption(code, v) + rest, 0) == ParseMemory(PutMemory(l, code as nat, |v|), rest, 0)
  {
    hide PutMemory;
    var d := RawOption(code, v) + rest;
    assert d[0] == code && d[1] as nat == |v| && d[2 + |v|..] == rest;
  }

  /** An option put for the first time, where there is room. */
  lemma FirstPut(l: Memory, code: nat, n: nat)
    requires |l.slots| == N_OPTIONS && code < N_OPTIONS && code != PAD && code != END && l.slots[code] == Slot(None, 0)
    requires n > 0 && (l.size.None? ==> l.used == 0 && 2 * n <= 64) && (l.size.Some? ==> l.used + n <= l.size.value)
    ensures var r := PutMemory(l, code, n);
            && r.used == l.used + n && r.size == (if l.size.None? then Some(64) else l.size)
            && forall c: nat :: c < N_OPTIONS && c != code ==> r.slots[c] == l.slots[c]
  {
  }

  /**
   * A message of the vendor's class that names a controller in 40 bytes meets all conditions, and
   * yet the block moves while the vendor's options are read from it.
   */
  lemma OrdinaryMessageMoves() returns (opts: seq<Option<seq<Byte>>>)
    ensures Sendable(2, Zeros(30), 5, opts) && Writable(opts, VENDOR_OFS)
    ensures IsOpenFlow(opts[VENDOR_CLASS]) && opts[VENDOR_SPECIFIC] == None
    ensures var b := Assembled(2, Zeros(30), 5, opts); |b| >= HEADER && !StaysPut(b, COOKIE_LEN)
  {
    hide Assembled, CString, StaysPut, Ordinary, Sendable, Writable;
    opts := OrdinaryExists();
    OrdinaryIsSendable(opts);
    ClassIsOpenFlow();
    OrdinaryMoves(opts);
  }

  lemma OrdinaryExists() returns (opts: seq<Option<seq<Byte>>>)
    ensures Ordinary(opts)
  {
    opts := seq(N_OPTIONS, i => if i == VENDOR_CLASS then Some(OPEN_FLOW) else if i == 257 then Some(Zeros(40)) else None);
  }

  lemma OrdinaryIsSendable(opts: seq<Option<seq<Byte>>>)
    requires Ordinary(opts)
    ensures Sendable(2, Zeros(30), 5, opts) && Writable(opts, VENDOR_OFS)
    ensures opts[VENDOR_CLASS] == Some(OPEN_FLOW) && opts[VENDOR_SPECIFIC] == None
  {
    assert TypeSent(5, opts) == [5];
  }

  lemma OrdinaryMoves(opts: seq<Option<seq<Byte>>>)
    requires Ordinary(opts)
    ensures var b := Assembled(2, Zeros(30), 5, opts); |b| >= HEADER && !StaysPut(b, COOKIE_LEN)
  {
    hide Assembled, Received, ParseMemory, Parse, CString, Encode, Ordinary, Undisturbed;
    var l := OrdinaryMemory(opts);
    var b := Assembled(2, Zeros(30), 5, opts);
    ClassIsOpenFlow();
    AssembledParts(2, Zeros(30), 5, opts);
    OrdinaryOptions(opts, b);
    assert ReceivedMemory(b, COOKIE_LEN) == l;
    NoRoom(l, [1, 40] + Zeros(40));
  }

  lemma NoRoom(l: Memory, d: seq<Byte>)
    requires |l.slots| == N_OPTIONS && l.used == 51 && l.size == Some(64) && l.slots[257] == Slot(None, 0)
    requires |d| == 42 && d[0] == 1 && d[1] == 40
    ensures !Undisturbed(l, d, VENDOR_OFS)
  {
  }

  lemma ClassIsOpenFlow()
    ensures CString(OPEN_FLOW) == OPEN_FLOW
  {
    assert CString(OPEN_FLOW[8..]) == [];
    assert CString(OPEN_FLOW[7..]) == OPEN_FLOW[7..];
    assert CString(OPEN_FLOW[6..]) == OPEN_FLOW[6..];
    assert CString(OPEN_FLOW[5..]) == OPEN_FLOW[5..];
    assert CString(OPEN_FLOW[4..]) == OPEN_FLOW[4..];
    assert CString(OPEN_FLOW[3..]) == OPEN_FLOW[3..];
    assert CString(OPEN_FLOW[2..]) == OPEN_FLOW[2..];
    assert CString(OPEN_FLOW[1..]) == OPEN_FLOW[1..];
  }

  ghost predicate Ordinary(opts: seq<Option<seq<Byte>>>) {
    && |opts| == N_OPTIONS
    && forall c: nat :: c < N_OPTIONS ==>
         opts[c] == if c == VENDOR_CLASS then Some(OPEN_FLOW) else if c == 257 then Some(Zeros(40)) else None
  }

  lemma OrdinaryMemory(opts: seq<Option<seq<Byte>>>) returns (l: Memory)
    requires Ordinary(opts)
    ensures l == ParseMemory(NoMemory(), Encode(5, opts), 0)
    ensures |opts| == N_OPTIONS && |l.slots| == N_OPTIONS && l.used == 51 && l.size == Some(64) && l.slots[257] == Slot(None, 0)
  {
    hide RawOption, ParseMemory, PutMemory, Encode, Ordinary, NoMemory;
    OrdinaryBytes(opts);
    NothingHeldYet();
    var v := RawOption(1, Zeros(40));
    LengthOf(1, Zeros(40));
    var y, z, e := RawOption(VENDOR_CLASS as Byte, OPEN_FLOW), RawOption(VENDOR_SPECIFIC as Byte, v), [END as Byte];
    var l1 := PutMemory(NoMemory(), MSG_TYPE, 1);
    MemoryOfOption(NoMemory(), MSG_TYPE as Byte, [5], y + (z + e));
    FirstPut(NoMemory(), MSG_TYPE, 1);
    var l2 := PutMemory(l1, VENDOR_CLASS, 8);
    MemoryOfOption(l1, VENDOR_CLASS as Byte, OPEN_FLOW, z + e);
    FirstPut(l1, VENDOR_CLASS, 8);
    l := PutMemory(l2, VENDOR_SPECIFIC, 42);
    MemoryOfOption(l2, VENDOR_SPECIFIC as Byte, v, e);
    FirstPut(l2, VENDOR_SPECIFIC, 42);
    MemoryAtEnd(l);
  }

  lemma OrdinaryBytes(opts: seq<Option<seq<Byte>>>)
    requires Ordinary(opts)
    ensures |opts| == N_OPTIONS
    ensures Encode(5, opts) ==
            RawOption(MSG_TYPE as Byte, [5]) + (RawOption(VENDOR_CLASS as Byte, OPEN_FLOW) +
              (RawOption(VENDOR_SPECIFIC as Byte, RawOption(1, Zeros(40))) + [END as Byte]))
  {
    hide RawOption, RawFrom;
    RawFromOne(opts, 0, 0, VENDOR_CLASS);
    RawFromOne(opts, VENDOR_OFS, 0, 1);
    LengthOf(1, Zeros(40));
    Assoc(RawFrom(opts, 0, 0), RawVendor(opts), [END as Byte]);
  }

  lemma NothingHeldYet()
    ensures var l := NoMemory(); l.used == 0 && l.size == None && forall c: nat :: c < N_OPTIONS ==> l.slots[c] == Slot(None, 0)
  {
  }

  lemma LengthOf(code: Byte, v: seq<Byte>)
    requires |v| <= 255
    ensures RawOption(code, v) == [code, |v| as Byte] + v && |RawOption(code, v)| == 2 + |v|
  {
  }

  lemma MemoryAtEnd(l: Memory)
    requires |l.slots| == N_OPTIONS
    ensures ParseMemory(l, [END as Byte], 0) == l
  {
  }

  lemma OrdinaryOptions(opts: seq<Option<seq<Byte>>>, b: seq<Byte>)
    requires Ordinary(opts) && b == Assembled(2, Zeros(30), 5, opts)
    ensures |b| >= HEADER
    ensures FromArea(b, COOKIE_LEN).opts[OVERLOAD] == None
    ensures var m := Received(b, COOKIE_LEN);
            m.opts[VENDOR_CLASS] == Some(OPEN_FLOW) && m.opts[VENDOR_SPECIFIC] == Some([1, 40] + Zeros(40))
  {
    hide Assembled, Received, Parse, Encode, ComesBack, Ordinary;
    OrdinaryBack(opts);
    AssembledParts(2, Zeros(30), 5, opts);
    AssembledIsReceived(2, Zeros(30), 5, opts);
    assert FromArea(b, COOKIE_LEN) == Parse(NoOptions(), Encode(5, opts), 0);
    Assoc(Encode(5, opts), [], []);
    RoundTrip(5, opts, [], OVERLOAD);
    RoundTrip(5, opts, [], VENDOR_CLASS);
    RoundTrip(5, opts, [], VENDOR_SPECIFIC);
  }

  lemma OrdinaryBack(opts: seq<Option<seq<Byte>>>)
    requires Ordinary(opts)
    ensures Writable(opts, 0) && ComesBack(5, opts, OVERLOAD) == None && ComesBack(5, opts, VENDOR_CLASS) == Some(OPEN_FLOW)
    ensures ComesBack(5, opts, VENDOR_SPECIFIC) == Some([1, 40] + Zeros(40))
  {
    hide RawOption, DataBy, RawFrom;
    RawFromOne(opts, VENDOR_OFS, 0, 1);
    LengthOf(1, Zeros(40));
    Assoc([1, 40] + Zeros(40), [], []);
    assert opts[257] != None;
  }
}
