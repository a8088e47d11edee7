/**
 What the MAC learning table promises: a bounded map from addresses to ports
 that forgets the least recently used entry first.  A table is the sequence of
 its items, least recently used first.
 */
module MacSpec {
  import opened Options
  import opened Tags

  const MAC_MAX: nat := 1024
  const LIFETIME: int := 60              // seconds
  const FLOOD: int := 0xffff_fffb

  /** An Ethernet address as a 48-bit number, and a VLAN. */
  datatype Key = Key(mac: nat, vlan: nat)

  datatype Item = Item(key: Key, port: int, tag: Tag, expires: int)

  type Table = seq<Item>

  /** The group bit of the first byte. */
  predicate Multicast(key: Key) {
    key.mac / 0x100_0000_0000 % 2 == 1
  }

  ghost predicate UniqueKeys(t: Table) {
    forall i: nat, j: nat :: i < j < |t| ==> t[i].key != t[j].key
  }

  /** Where `key` is in the table. */
  function Find(t: Table, key: Key): (r: Option<nat>)
    ensures r.Some? ==> r.value < |t| && t[r.value].key == key
    ensures r.None? ==> forall i: nat :: i < |t| ==> t[i].key != key
  {
    if t == [] then None
    else if t[|t| - 1].key == key then Some(|t| - 1)
    else Find(t[..|t| - 1], key)
  }

  function LookupPort(t: Table, key: Key): int {
    if Multicast(key) || Find(t, key).None? then FLOOD else t[Find(t, key).value].port
  }

  /** The tag that a lookup of `key` adds; `unknown` gives the tags of absent keys. */
  function LookupTag(t: Table, key: Key, unknown: Key -> Tag): Tag {
    if Multicast(key) then 0
    else if Find(t, key).None? then unknown(key)
    else t[Find(t, key).value].tag
  }

  function Drop(t: Table, k: nat): Table
    requires k < |t|
  {
    t[..k] + t[k + 1..]
  }

  /** The table without `key`, and without the least recently used item if it is full and `key` is new. */
  function MakeRoom(t: Table, key: Key): Table {
    if Find(t, key).Some? then Drop(t, Find(t, key).value)
    else if |t| < MAC_MAX then t
    else t[1..]
  }

  /** The table after a frame from `key` arrived on `port`; `drawn` is the tag drawn if there is news. */
  function Learn(t: Table, key: Key, port: nat, now: int, drawn: Tag): Table {
    if Multicast(key) then t
    else
      var i := Find(t, key);
      var tag := if i.Some? && t[i.value].port == port then t[i.value].tag else drawn;
      MakeRoom(t, key) + [Item(key, port, tag, now + LIFETIME)]
  }

  /** The tag of the flows to revalidate, or 0. */
  function LearnResult(t: Table, key: Key, port: nat, unknown: Key -> Tag): Tag {
    if Multicast(key) then 0
    else
      var i := Find(t, key);
      if i.None? then unknown(key)
      else if t[i.value].port == port then 0
      else t[i.value].tag
  }

  /** The items that are not due yet, when the due ones come first. */
  function Expire(t: Table, now: int): Table {
    if t != [] && now >= t[0].expires then Expire(t[1..], now) else t
  }

  // ---------- What follows ----------

  lemma FindUnique(t: Table, key: Key, i: nat)
    requires UniqueKeys(t) && i < |t| && t[i].key == key
    ensures Find(t, key) == Some(i)
  {
  }

  /** Learning keeps the table a bounded map. */
  lemma LearnKeepsMap(t: Table, key: Key, port: nat, now: int, drawn: Tag)
    requires UniqueKeys(t) && |t| <= MAC_MAX
    ensures UniqueKeys(Learn(t, key, port, now, drawn)) && |Learn(t, key, port, now, drawn)| <= MAC_MAX
  {
    var r := MakeRoom(t, key);
    var k := if Find(t, key).Some? then Find(t, key).value else if |t| < MAC_MAX then |t| else 0;
    assert forall i: nat :: i < |r| ==> r[i] == t[if i < k then i else i + 1];
  }

  /** It evicts at most one item, the least recently used one, and only from a full table. */
  lemma LearnEvictsOldest(t: Table, key: Key, port: nat, now: int, drawn: Tag, i: nat)
    requires UniqueKeys(t) && i < |t| && t[i].key != key
    requires !Multicast(key)
    ensures t[i] in Learn(t, key, port, now, drawn) || (i == 0 && |t| >= MAC_MAX && Find(t, key).None?)
  {
    var f := Find(t, key);
    if f.Some? {
      var d := Drop(t, f.value);
      assert t[i] == d[if i < f.value then i else i - 1];
    } else if |t| >= MAC_MAX && i > 0 {
      assert t[i] == t[1..][i - 1];
    }
  }

  /** Afterwards the key is found on the port where it was seen. */
  lemma LearnedIsFound(t: Table, key: Key, port: nat, now: int, drawn: Tag)
    requires UniqueKeys(t) && |t| <= MAC_MAX && !Multicast(key)
    ensures LookupPort(Learn(t, key, port, now, drawn), key) == port
  {
    var r := Learn(t, key, port, now, drawn);
    LearnKeepsMap(t, key, port, now, drawn);
    FindUnique(r, key, |r| - 1);
  }

  /**
   No flow to the learned address goes stale: learning changes the answer for its key exactly
   if it reports a tag, and the tag it reports is the one that a lookup just
   before would have attached to a flow.
   */
  lemma NewsInvalidatesLookups(t: Table, key: Key, port: nat, now: int, drawn: Tag, unknown: Key -> Tag)
    requires UniqueKeys(t) && |t| <= MAC_MAX && port < 0x1_0000
    requires IsValid(unknown(key)) && forall i: nat :: i < |t| ==> IsValid(t[i].tag)
    ensures var r := Learn(t, key, port, now, drawn);
            && (LookupPort(r, key) != LookupPort(t, key) <==> LearnResult(t, key, port, unknown) != 0)
            && (LookupPort(r, key) != LookupPort(t, key) ==>
                  LearnResult(t, key, port, unknown) == LookupTag(t, key, unknown))
  {
    hide IsValid;
    if !Multicast(key) {
      LearnedIsFound(t, key, port, now, drawn);
      ValidIntersectsSelf(unknown(key));
      if Find(t, key).Some? {
        ValidIntersectsSelf(t[Find(t, key).value].tag);
      }
    }
  }

  /** Learning `key` makes the full table forget its oldest item, that of `other`. */
  predicate Evicts(t: Table, key: Key, other: Key) {
    !Multicast(key) && Find(t, key).None? && |t| == MAC_MAX && t[0].key == other
  }

  /**
   The answer for any other key changes exactly if learning evicts it.  Flows to the
   evicted address are then told of it exactly if their tag happens to meet that of the
   learned one.
   */
  lemma EvictionGoesUntold(t: Table, key: Key, port: nat, now: int, drawn: Tag, other: Key)
    requires UniqueKeys(t) && |t| <= MAC_MAX && other != key && !Multicast(other)
    requires forall i: nat :: i < |t| ==> t[i].port != FLOOD
    ensures LookupPort(Learn(t, key, port, now, drawn), other) != LookupPort(t, other) <==> Evicts(t, key, other)
    ensures Evicts(t, key, other) ==>
              forall unknown: Key -> Tag ::
                && LearnResult(t, key, port, unknown) == unknown(key)
                && (Intersects(LearnResult(t, key, port, unknown), LookupTag(t, other, unknown)) <==>
                    Intersects(unknown(key), t[0].tag))
  {
    hide Intersects;
    if Evicts(t, key, other) {
      FindUnique(t, other, 0);
    }
    if !Multicast(key) {
      var r, room := Learn(t, key, port, now, drawn), MakeRoom(t, key);
      LearnKeepsMap(t, key, port, now, drawn);
      var k := if Find(t, key).Some? then Find(t, key).value else if |t| < MAC_MAX then |t| else 0;
      assert forall i: nat :: i < |room| ==> room[i] == t[if i < k then i else i + 1];
      if Find(t, other).Some? && Find(t, other).value != k {
        var i := Find(t, other).value;
        var j := if i < k then i else i - 1;
        assert r[j] == t[i];
        FindUnique(r, other, j);
      } else {
        assert forall j: nat :: j < |room| ==> room[j].key != other;
        assert forall j: nat :: j < |r| ==> r[j].key != other;
      }
    }
  }

  /** A full table that learns one more address, and the tag it reports. */
  lemma FullTableForgets(drawn: Tag) returns (t: Table, unknown: Key -> Tag)
    ensures UniqueKeys(t) && |t| == MAC_MAX && forall i: nat :: i < |t| ==> t[i].port != FLOOD && IsValid(t[i].tag)
    ensures var key, other := Key(MAC_MAX, 0), Key(0, 0);
            && Evicts(t, key, other) && LookupPort(t, other) == 7 && LookupPort(Learn(t, key, 3, 0, drawn), other) == FLOOD
            && IsValid(unknown(key)) && !Intersects(LearnResult(t, key, 3, unknown), LookupTag(t, other, unknown))
  {
    t := seq(MAC_MAX, i requires 0 <= i < MAC_MAX => Item(Key(i, 0), 7, 3, 60));
    unknown := _ => 12;
    var key, other := Key(MAC_MAX, 0), Key(0, 0);
    assert forall i: nat :: i < |t| ==> t[i].key == Key(i, 0) && t[i].port == 7 && t[i].tag == 3;
    FindUnique(t, other, 0);
    TagsApart();
    EvictionGoesUntold(t, key, 3, 0, drawn, other);
    hide Find;
    NewPort(t, key, 3, 0, drawn, other);
  }

  lemma TagsApart()
    ensures IsValid(3) && IsValid(12) && !Intersects(12, 3)
  {
  }

  lemma NewPort(t: Table, key: Key, port: nat, now: int, drawn: Tag, other: Key)
    requires UniqueKeys(t) && |t| <= MAC_MAX && other != key && Evicts(t, key, other)
    ensures LookupPort(Learn(t, key, port, now, drawn), other) == FLOOD
  {
    var r := Learn(t, key, port, now, drawn);
    assert forall j: nat :: j < |r| - 1 ==> r[j] == t[j + 1] && t[j + 1].key != other;
  }

  // ---------- Expiry ----------

  ghost predicate SortedByExpiry(t: Table) {
    forall i: nat, j: nat :: i < j < |t| ==> t[i].expires <= t[j].expires
  }

  /** Sorted, and nothing lives longer than an item learned now. */
  ghost predicate Timely(t: Table, now: int) {
    SortedByExpiry(t) && forall i: nat :: i < |t| ==> t[i].expires <= now + LIFETIME
  }

  lemma LearnKeepsTimely(t: Table, key: Key, port: nat, before: int, now: int, drawn: Tag)
    requires Timely(t, before) && before <= now
    ensures Timely(Learn(t, key, port, now, drawn), now)
  {
    assert Timely(t, now);
    hide Timely, Find;
    if Find(t, key).Some? {
      DropKeepsTimely(t, Find(t, key).value, now);
    } else if |t| >= MAC_MAX {
      DropKeepsTimely(t, 0, now);
      assert Drop(t, 0) == t[1..];
    }
    if !Multicast(key) {
      AppendKeepsTimely(MakeRoom(t, key), Learn(t, key, port, now, drawn)[|MakeRoom(t, key)|], now);
    }
  }

  lemma DropKeepsTimely(t: Table, k: nat, now: int)
    requires Timely(t, now) && k < |t|
    ensures Timely(Drop(t, k), now)
  {
    assert forall i: nat :: i < |t| - 1 ==> Drop(t, k)[i] == t[if i < k then i else i + 1];
  }

  lemma AppendKeepsTimely(t: Table, x: Item, now: int)
    requires Timely(t, now) && x.expires == now + LIFETIME
    ensures Timely(t + [x], now)
  {
  }

  lemma {:induction false} ExpireIsSuffix(t: Table, now: int)
    ensures |Expire(t, now)| <= |t| && Expire(t, now) == t[|t| - |Expire(t, now)|..]
    ensures forall i: nat :: i < |t| - |Expire(t, now)| ==> now >= t[i].expires
    ensures Expire(t, now) != [] ==> now < Expire(t, now)[0].expires
  {
    if t != [] && now >= t[0].expires {
      ExpireIsSuffix(t[1..], now);
      assert forall i: nat :: 1 <= i < |t| - |Expire(t, now)| ==> t[i] == t[1..][i - 1];
    }
  }

  /** With the clock never going back, stopping at the first live item frees exactly the expired ones. */
  lemma ExpireFreesExactlyExpired(t: Table, now: int, i: nat)
    requires SortedByExpiry(t) && i < |t|
    ensures var n := |t| - |Expire(t, now)|;
            && 0 <= n <= |t| && Expire(t, now) == t[n..]
            && (i < n <==> now >= t[i].expires)
  {
    ExpireIsSuffix(t, now);
  }

  /** The tags of the items that expiry frees, oldest first. */
  function ExpiredTags(t: Table, now: int): seq<Tag> {
    if t != [] && now >= t[0].expires then [t[0].tag] + ExpiredTags(t[1..], now) else []
  }

  lemma {:induction false} ExpiredTagsHasAll(t: Table, now: int, i: nat)
    requires i < |t| - |Expire(t, now)|
    ensures t[i].tag in ExpiredTags(t, now)
  {
    ExpireIsSuffix(t, now);
    if i > 0 {
      assert t[i] == t[1..][i - 1];
      ExpiredTagsHasAll(t[1..], now, i - 1);
    }
  }

  /** No flow that depends on an expired item goes unnoticed, and nothing noticed before is lost. */
  lemma ExpiryReachesTagSet(t: Table, now: int, set0: TagSetValue)
    requires SortedByExpiry(t) && set0.Valid()
    requires forall i: nat :: i < |t| ==> IsValid(t[i].tag)
    ensures var set1 := AddAll(set0, ExpiredTags(t, now));
            && (forall i: nat :: i < |t| && now >= t[i].expires ==> set1.Meets(t[i].tag))
            && (forall g: Tag :: set0.Meets(g) ==> set1.Meets(g))
  {
    hide IsValid, TagSetValue.Meets;
    var set1 := AddAll(set0, ExpiredTags(t, now));
    forall i: nat | i < |t| && now >= t[i].expires
      ensures set1.Meets(t[i].tag)
    {
      ExpireFreesExactlyExpired(t, now, i);
      ExpiredTagsHasAll(t, now, i);
      NothingForgotten(set0, ExpiredTags(t, now), t[i].tag);
    }
    forall g: Tag | set0.Meets(g)
      ensures set1.Meets(g)
    {
      AddAllKeepsMeeting(set0, ExpiredTags(t, now), g);
    }
  }

  // ---------- Every run ----------

  datatype Call =
    | LearnCall(key: Key, port: nat, drawn: Tag)
    | FlushCall
    | ExpireCall

  /** Calls with the time of each. */
  type Timed = (int, Call)

  function Apply(t: Table, c: Timed): Table {
    match c.1
    case LearnCall(key, port, drawn) => Learn(t, key, port, c.0, drawn)
    case FlushCall => []
    case ExpireCall => Expire(t, c.0)
  }

  function ApplyAll(cs: seq<Timed>): Table {
    if cs == [] then [] else Apply(ApplyAll(cs[..|cs| - 1]), cs[|cs| - 1])
  }

  /** The clock never goes back, and drawn tags are tags. */
  ghost predicate Regular(cs: seq<Timed>) {
    && (forall i: nat, j: nat :: i < j < |cs| ==> cs[i].0 <= cs[j].0)
    && (forall i: nat :: i < |cs| && cs[i].1.LearnCall? ==> IsValid(cs[i].1.drawn))
  }

  /** A bounded map of valid tags, sorted by expiry. */
  ghost predicate TimelyMap(t: Table, now: int) {
    UniqueKeys(t) && |t| <= MAC_MAX && Timely(t, now) && forall i: nat :: i < |t| ==> IsValid(t[i].tag)
  }

  lemma NothingIsTimely(now: int)
    ensures TimelyMap([], now)
  {
  }

  lemma ExpireKeepsTimelyMap(t: Table, now: int)
    requires TimelyMap(t, now)
    ensures TimelyMap(Expire(t, now), now)
  {
    hide IsValid;
    ExpireIsSuffix(t, now);
    var k := |t| - |Expire(t, now)|;
    assert forall i: nat :: i < |Expire(t, now)| ==> Expire(t, now)[i] == t[k + i];
  }

  lemma LearnKeepsTimelyMap(t: Table, key: Key, port: nat, now: int, drawn: Tag)
    requires TimelyMap(t, now) && IsValid(drawn)
    ensures TimelyMap(Learn(t, key, port, now, drawn), now)
  {
    hide IsValid;
    LearnKeepsMap(t, key, port, now, drawn);
    LearnKeepsTimely(t, key, port, now, now, drawn);
    hide UniqueKeys, Timely;
  }

  /** After every run the table is a bounded map of valid tags, sorted by expiry. */
  lemma {:induction false} EveryRunIsTimely(cs: seq<Timed>, now: int)
    requires Regular(cs) && (cs != [] ==> cs[|cs| - 1].0 <= now)
    ensures var t := ApplyAll(cs);
            && UniqueKeys(t) && |t| <= MAC_MAX && Timely(t, now)
            && forall i: nat :: i < |t| ==> IsValid(t[i].tag)
  {
    hide IsValid, Learn, Expire, UniqueKeys;
    if cs != [] {
      var last := |cs| - 1;
      EveryRunIsTimely(cs[..last], cs[last].0);
      var t := ApplyAll(cs[..last]);
      match cs[last].1
      case LearnCall(key, port, drawn) => LearnKeepsTimelyMap(t, key, port, cs[last].0, drawn);
      case FlushCall => NothingIsTimely(now);
      case ExpireCall => ExpireKeepsTimelyMap(t, cs[last].0);
    } else {
      NothingIsTimely(now);
    }
  }
}
