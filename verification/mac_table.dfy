/**
 The MAC learning table of lib/mac-learning.c: a fixed pool of entries, each
 threaded through the free or the LRU list and, when in use, through the list
 of its hash bucket.  Every operation is proved to act on the table of MacSpec.
 */
module MacTable {
  import opened Options
  import opened Tags
  import opened Lists
  import opened MacSpec

  const HASH_SIZE: nat := 1024

  datatype Entry = Entry(expires: int, key: Key, port: int, tag: Tag)

  // Nodes of the LRU pool: entry `e` is node `e`.
  const FREE: nat := MAC_MAX
  const LRUS: nat := MAC_MAX + 1

  /** The node of the hash pool that heads bucket `b`; entry `e` is node `e`. */
  function Head(b: nat): nat {
    MAC_MAX + b
  }

  ghost predicate Hashes(bucketOf: Key -> nat) {
    forall k: Key :: bucketOf(k) < HASH_SIZE
  }

  /** Every entry is on exactly one of the free list and the LRU list. */
  ghost predicate LruOk(n: seq<nat>, p: seq<nat>, free: seq<nat>, lrus: seq<nat>) {
    && |n| == MAC_MAX + 2
    && Ring(n, p, FREE, free) && Ring(n, p, LRUS, lrus) && Apart(FREE, free, LRUS, lrus)
    && |free| + |lrus| == MAC_MAX
    && (forall e: nat :: e < MAC_MAX ==> e in free || e in lrus)
    && (forall e :: e in free || e in lrus ==> e < MAC_MAX)
  }

  /** The entries in use, and no others, are each in the bucket of their key; keys are unique. */
  ghost predicate HashOk(n: seq<nat>, p: seq<nat>, buckets: seq<seq<nat>>, es: seq<Entry>,
                         bucketOf: Key -> nat, used: set<nat>)
  {
    && |n| == MAC_MAX + HASH_SIZE && |buckets| == HASH_SIZE && |es| == MAC_MAX
    && (forall b: nat :: b < HASH_SIZE ==> Ring(n, p, Head(b), buckets[b]))
    && (forall b: nat, i: nat :: b < HASH_SIZE && i < |buckets[b]| ==>
          buckets[b][i] in used && buckets[b][i] < MAC_MAX && bucketOf(es[buckets[b][i]].key) == b)
    && (forall e :: e in used ==> e < MAC_MAX && bucketOf(es[e].key) < HASH_SIZE && e in buckets[bucketOf(es[e].key)])
    && (forall e, f :: e in used && f in used && e != f ==> es[e].key != es[f].key)
  }

  ghost function InUse(lrus: seq<nat>): set<nat> {
    set e | e in lrus
  }

  /** Every entry has one place on the free list or the LRU list, and one in its key's bucket exactly when in use. */
  lemma EntryPlaces(n: seq<nat>, p: seq<nat>, free: seq<nat>, lrus: seq<nat>, hn: seq<nat>, hp: seq<nat>,
                    buckets: seq<seq<nat>>, es: seq<Entry>, bucketOf: Key -> nat, e: nat)
    requires LruOk(n, p, free, lrus) && HashOk(hn, hp, buckets, es, bucketOf, InUse(lrus)) && e < MAC_MAX
    ensures multiset(free + lrus)[e] == 1
    ensures forall b: nat :: b < HASH_SIZE ==>
              multiset(buckets[b])[e] == if e in lrus && b == bucketOf(es[e].key) then 1 else 0
  {
    assert multiset(free + lrus) == multiset(free) + multiset(lrus);
    if e in free {
      OnlyOnce(free, e);
    } else {
      OnlyOnce(lrus, e);
    }
    forall b: nat | b < HASH_SIZE
      ensures multiset(buckets[b])[e] == if e in lrus && b == bucketOf(es[e].key) then 1 else 0
    {
      assert Ring(hn, hp, Head(b), buckets[b]);
      if e in buckets[b] {
        var i: nat :| i < |buckets[b]| && buckets[b][i] == e;
        assert e in InUse(lrus);
        OnlyOnce(buckets[b], e);
      }
    }
  }

  lemma {:induction false} OnlyOnce(s: seq<nat>, e: nat)
    requires e in s && forall i: nat, j: nat :: i < j < |s| ==> s[i] != s[j]
    ensures multiset(s)[e] == 1
  {
    assert s == [s[0]] + s[1..];
    if s[0] == e {
      assert e !in s[1..];
    } else {
      OnlyOnce(s[1..], e);
    }
  }

  function Without(s: seq<nat>, e: nat): (r: seq<nat>)
    ensures e !in s ==> r == s
  {
    if s == [] then []
    else if s[0] == e then s[1..]
    else [s[0]] + Without(s[1..], e)
  }

  lemma {:induction false} WithoutAt(s: seq<nat>, k: nat)
    requires k < |s| && forall i: nat, j: nat :: i < j < |s| ==> s[i] != s[j]
    ensures Without(s, s[k]) == RemoveAt(s, k)
  {
    if k > 0 {
      WithoutAt(s[1..], k - 1);
      RemoveFurther(s, k);
      hide RemoveAt;
    }
  }

  lemma RemoveFurther(s: seq<nat>, k: nat)
    requires 0 < k < |s|
    ensures s[1..][k - 1] == s[k] && RemoveAt(s, k) == [s[0]] + RemoveAt(s[1..], k - 1)
  {
  }

  // ---------- The LRU pool ----------

  /** Taking entry `e` off the list it is on. */
  lemma LruRemove(n: seq<nat>, p: seq<nat>, free: seq<nat>, lrus: seq<nat>, e: nat)
    requires LruOk(n, p, free, lrus) && Links(n, p) && e < MAC_MAX
    ensures var n1, p1 := RemoveNext(n, p, e), RemovePrev(n, p, e);
            && Ring(n1, p1, FREE, Without(free, e)) && Ring(n1, p1, LRUS, Without(lrus, e))
            && e !in Without(free, e) && e !in Without(lrus, e)
            && (forall f :: f in free || f in lrus ==> f == e || f in Without(free, e) || f in Without(lrus, e))
            && (forall f :: f in Without(free, e) ==> f in free)
            && (forall f :: f in Without(lrus, e) ==> f in lrus)
            && |Without(free, e)| + |Without(lrus, e)| == MAC_MAX - 1
            && Apart(FREE, Without(free, e), LRUS, Without(lrus, e))
  {
    if e in free {
      var k: nat :| k < |free| && free[k] == e;
      WithoutAt(free, k);
      RingRemove(n, p, FREE, free, k);
      RemoveLeavesOther(n, p, FREE, free, k, LRUS, lrus);
      RemovedElements(free, k);
    } else {
      var k: nat :| k < |lrus| && lrus[k] == e;
      WithoutAt(lrus, k);
      RingRemove(n, p, LRUS, lrus, k);
      RemoveLeavesOther(n, p, LRUS, lrus, k, FREE, free);
      RemovedElements(lrus, k);
    }
  }

  lemma RemovedElements(s: seq<nat>, k: nat)
    requires k < |s| && forall i: nat, j: nat :: i < j < |s| ==> s[i] != s[j]
    ensures s[k] !in RemoveAt(s, k)
    ensures forall f :: f in s ==> f == s[k] || f in RemoveAt(s, k)
    ensures forall f :: f in RemoveAt(s, k) ==> f in s
  {
    forall f | f in s && f != s[k]
      ensures f in RemoveAt(s, k)
    {
      var i: nat :| i < |s| && s[i] == f;
      assert RemoveAt(s, k)[if i < k then i else i - 1] == f;
    }
  }

  /** All entries but `e` are on one of the lists; then `e` goes to one end of list `h`. */
  ghost predicate LruBut(n: seq<nat>, p: seq<nat>, free: seq<nat>, lrus: seq<nat>, e: nat) {
    && |n| == MAC_MAX + 2 && Links(n, p)
    && Ring(n, p, FREE, free) && Ring(n, p, LRUS, lrus) && Apart(FREE, free, LRUS, lrus)
    && |free| + |lrus| == MAC_MAX - 1
    && e < MAC_MAX && e !in free && e !in lrus
    && (forall f: nat :: f < MAC_MAX ==> f == e || f in free || f in lrus)
    && (forall f :: f in free || f in lrus ==> f < MAC_MAX)
  }

  lemma LruTake(n: seq<nat>, p: seq<nat>, free: seq<nat>, lrus: seq<nat>, e: nat)
    requires LruOk(n, p, free, lrus) && Links(n, p) && e < MAC_MAX
    requires Links(RemoveNext(n, p, e), RemovePrev(n, p, e))
    ensures LruBut(RemoveNext(n, p, e), RemovePrev(n, p, e), Without(free, e), Without(lrus, e), e)
  {
    hide Without, Ring;
    LruRemove(n, p, free, lrus, e);
  }

  lemma LruPushBack(n: seq<nat>, p: seq<nat>, free: seq<nat>, lrus: seq<nat>, e: nat)
    requires LruBut(n, p, free, lrus, e)
    ensures LruOk(InsertNext(n, p, LRUS, e), InsertPrev(p, LRUS, e), free, lrus + [e])
  {
    RingInsert(n, p, LRUS, lrus, |lrus|, e);
    InsertLeavesOther(n, p, LRUS, lrus, |lrus|, e, FREE, free);
    assert InsertAt(lrus, |lrus|, e) == lrus + [e];
  }

  lemma LruPushFree(n: seq<nat>, p: seq<nat>, free: seq<nat>, lrus: seq<nat>, e: nat)
    requires LruBut(n, p, free, lrus, e)
    ensures Node(FREE, free, 1) < |n|
    ensures LruOk(InsertNext(n, p, Node(FREE, free, 1), e), InsertPrev(p, Node(FREE, free, 1), e), [e] + free, lrus)
  {
    RingInsert(n, p, FREE, free, 0, e);
    InsertLeavesOther(n, p, FREE, free, 0, e, LRUS, lrus);
    assert InsertAt(free, 0, e) == [e] + free;
  }

  // ---------- The hash pool ----------

  lemma BucketsApart(n: seq<nat>, p: seq<nat>, buckets: seq<seq<nat>>, es: seq<Entry>, bucketOf: Key -> nat,
                     used: set<nat>, b: nat, c: nat)
    requires HashOk(n, p, buckets, es, bucketOf, used) && b < HASH_SIZE && c < HASH_SIZE && b != c
    ensures Apart(Head(b), buckets[b], Head(c), buckets[c])
  {
  }

  /** Taking entry `e` out of its bucket. */
  lemma HashRemove(n: seq<nat>, p: seq<nat>, buckets: seq<seq<nat>>, es: seq<Entry>, bucketOf: Key -> nat,
                   used: set<nat>, e: nat)
    requires HashOk(n, p, buckets, es, bucketOf, used) && Links(n, p) && e in used
    ensures var b := bucketOf(es[e].key);
            HashOk(RemoveNext(n, p, e), RemovePrev(n, p, e), buckets[b := Without(buckets[b], e)], es, bucketOf, used - {e})
  {
    hide Without;
    var b := bucketOf(es[e].key);
    var s := buckets[b];
    var k: nat :| k < |s| && s[k] == e;
    WithoutAt(s, k);
    RemovedElements(s, k);
    RingRemove(n, p, Head(b), s, k);
    var t := buckets[b := Without(s, e)];
    forall c: nat | c < HASH_SIZE
      ensures Ring(RemoveNext(n, p, e), RemovePrev(n, p, e), Head(c), t[c])
    {
      if c != b {
        BucketsApart(n, p, buckets, es, bucketOf, used, b, c);
        RemoveLeavesOther(n, p, Head(b), s, k, Head(c), buckets[c]);
      }
    }
    forall c: nat, i: nat | c < HASH_SIZE && i < |t[c]|
      ensures t[c][i] in used - {e} && t[c][i] < MAC_MAX && bucketOf(es[t[c][i]].key) == c
    {
      assert t[c][i] in t[c] && t[c][i] in buckets[c];
    }
  }

  /** Putting the free entry `e` into the bucket of a new key. */
  lemma HashInsert(n: seq<nat>, p: seq<nat>, buckets: seq<seq<nat>>, es: seq<Entry>, bucketOf: Key -> nat,
                   used: set<nat>, e: nat, x: Entry)
    requires HashOk(n, p, buckets, es, bucketOf, used) && Links(n, p) && e !in used && e < MAC_MAX
    requires bucketOf(x.key) < HASH_SIZE && forall f :: f in used ==> es[f].key != x.key
    ensures var b := bucketOf(x.key);
            var before := Node(Head(b), buckets[b], 1);
            && before < |n|
            && HashOk(InsertNext(n, p, before, e), InsertPrev(p, before, e), buckets[b := [e] + buckets[b]], es[e := x],
                      bucketOf, used + {e})
  {
    var b := bucketOf(x.key);
    assert Ring(n, p, Head(b), buckets[b]);
    assert e !in buckets[b];
    forall c: nat | c < HASH_SIZE
      ensures c != b ==> Apart(Head(b), buckets[b], Head(c), buckets[c])
      ensures c != b ==> e !in buckets[c]
    {
      if c != b {
        BucketsApart(n, p, buckets, es, bucketOf, used, b, c);
      }
    }
    hide Ring, Apart;
    HashInsertRings(n, p, buckets, b, e);
    HashInsertMembers(buckets, es, bucketOf, used, e, x);
  }

  lemma HashInsertRings(n: seq<nat>, p: seq<nat>, buckets: seq<seq<nat>>, b: nat, e: nat)
    requires |n| == MAC_MAX + HASH_SIZE && |buckets| == HASH_SIZE && b < HASH_SIZE && e < MAC_MAX
    requires forall c: nat :: c < HASH_SIZE ==> Ring(n, p, Head(c), buckets[c]) && e !in buckets[c]
    requires forall c: nat :: c < HASH_SIZE && c != b ==> Apart(Head(b), buckets[b], Head(c), buckets[c])
    requires Links(n, p)
    ensures var before := Node(Head(b), buckets[b], 1);
            && before < |n|
            && forall c: nat :: c < HASH_SIZE ==>
                 Ring(InsertNext(n, p, before, e), InsertPrev(p, before, e), Head(c), buckets[b := [e] + buckets[b]][c])
  {
    var s := buckets[b];
    var before := Node(Head(b), s, 1);
    assert Ring(n, p, Head(b), s);
    assert before < |n|;
    RingInsert(n, p, Head(b), s, 0, e);
    assert InsertAt(s, 0, e) == [e] + s;
    hide Ring, Apart;
    forall c: nat | c < HASH_SIZE
      ensures Ring(InsertNext(n, p, before, e), InsertPrev(p, before, e), Head(c), buckets[b := [e] + s][c])
    {
      if c != b {
        InsertLeavesOther(n, p, Head(b), s, 0, e, Head(c), buckets[c]);
      }
    }
  }

  lemma HashInsertMembers(buckets: seq<seq<nat>>, es: seq<Entry>, bucketOf: Key -> nat, used: set<nat>, e: nat, x: Entry)
    requires |buckets| == HASH_SIZE && |es| == MAC_MAX && e < MAC_MAX && e !in used && bucketOf(x.key) < HASH_SIZE
    requires forall b: nat, i: nat :: b < HASH_SIZE && i < |buckets[b]| ==>
               buckets[b][i] in used && buckets[b][i] < MAC_MAX && bucketOf(es[buckets[b][i]].key) == b
    requires forall e :: e in used ==> e < MAC_MAX && bucketOf(es[e].key) < HASH_SIZE && e in buckets[bucketOf(es[e].key)]
    ensures var t, es1 := buckets[bucketOf(x.key) := [e] + buckets[bucketOf(x.key)]], es[e := x];
            && (forall c: nat, i: nat :: c < HASH_SIZE && i < |t[c]| ==>
                  t[c][i] in used + {e} && t[c][i] < MAC_MAX && bucketOf(es1[t[c][i]].key) == c)
            && (forall f :: f in used + {e} ==> f < MAC_MAX && bucketOf(es1[f].key) < HASH_SIZE && f in t[bucketOf(es1[f].key)])
  {
    var b := bucketOf(x.key);
    var t, es1 := buckets[b := [e] + buckets[b]], es[e := x];
    forall c: nat, i: nat | c < HASH_SIZE && i < |t[c]|
      ensures t[c][i] in used + {e} && t[c][i] < MAC_MAX && bucketOf(es1[t[c][i]].key) == c
    {
      if c == b && i > 0 {
        assert t[c][i] == buckets[b][i - 1];
      }
    }
    forall f | f in used + {e}
      ensures f < MAC_MAX && bucketOf(es1[f].key) < HASH_SIZE && f in t[bucketOf(es1[f].key)]
    {
      if f != e && bucketOf(es[f].key) == b {
        assert f in buckets[b];
      }
    }
  }

  // ---------- The table that the lists represent ----------

  function ItemOf(x: Entry): Item {
    Item(x.key, x.port, x.tag, x.expires)
  }

  predicate Below(s: seq<nat>, n: nat) {
    forall i :: 0 <= i < |s| ==> s[i] < n
  }

  function TableOf(es: seq<Entry>, lrus: seq<nat>): Table
    requires Below(lrus, |es|)
  {
    seq(|lrus|, i requires 0 <= i < |lrus| => ItemOf(es[lrus[i]]))
  }

  lemma WithoutElements(s: seq<nat>, e: nat, n: nat)
    requires Below(s, n) && forall i: nat, j: nat :: i < j < |s| ==> s[i] != s[j]
    ensures Below(Without(s, e), n) && e !in Without(s, e)
  {
    if e in s {
      var i: nat :| i < |s| && s[i] == e;
      WithoutAt(s, i);
      RemovedElements(s, i);
    }
  }

  /** Entry `e`, which is not listed, is rewritten and appended. */
  lemma TableAppend(es: seq<Entry>, x: Entry, lrus: seq<nat>, e: nat)
    requires Below(lrus, |es|) && e < |es| && e !in lrus
    ensures Below(lrus + [e], |es|)
    ensures TableOf(es[e := x], lrus + [e]) == TableOf(es, lrus) + [ItemOf(x)]
  {
    assert forall i: nat :: i < |lrus| ==> lrus[i] in lrus;
  }

  lemma TableDrop(es: seq<Entry>, lrus: seq<nat>, k: nat)
    requires Below(lrus, |es|) && k < |lrus|
    ensures Below(RemoveAt(lrus, k), |es|)
    ensures TableOf(es, RemoveAt(lrus, k)) == Drop(TableOf(es, lrus), k)
  {
  }

  /** The table finds a key where the entry that holds it is. */
  lemma TableFind(es: seq<Entry>, lrus: seq<nat>, key: Key)
    requires Below(lrus, |es|)
    requires forall i: nat, j: nat :: i < j < |lrus| ==> es[lrus[i]].key != es[lrus[j]].key
    ensures UniqueKeys(TableOf(es, lrus))
    ensures forall i: nat :: i < |lrus| && es[lrus[i]].key == key ==> Find(TableOf(es, lrus), key) == Some(i)
    ensures (forall i: nat :: i < |lrus| ==> es[lrus[i]].key != key) ==> Find(TableOf(es, lrus), key) == None
  {
    var t := TableOf(es, lrus);
    forall i: nat | i < |lrus| && es[lrus[i]].key == key
      ensures Find(t, key) == Some(i)
    {
      FindUnique(t, key, i);
    }
  }

  lemma OrZero(t: Tag)
    ensures Or(t, 0) == t
  {
  }

  lemma ExpireStep(t: Table, now: int)
    ensures if t != [] && now >= t[0].expires
            then Expire(t, now) == Expire(t[1..], now) && ExpiredTags(t, now) == [t[0].tag] + ExpiredTags(t[1..], now)
            else Expire(t, now) == t && ExpiredTags(t, now) == []
  {
  }

  lemma AddAllStep(s: TagSetValue, ts: seq<Tag>, t: Tag)
    requires s.Valid()
    ensures AddAll(s, ts + [t]) == Tags.Add(AddAll(s, ts), t)
  {
    assert (ts + [t])[..|ts|] == ts;
  }

  lemma NothingAdded(s: TagSetValue)
    requires s.Valid()
    ensures AddAll(s, []) == s
  {
  }

  class MacLearning {
    const lru: Pool
    const hash: Pool
    const entries: array<Entry>
    const bucketOf: Key -> nat           // the hash function, masked
    const unknown: Key -> Tag            // from the table's secret
    ghost var free: seq<nat>
    ghost var lrus: seq<nat>
    ghost var buckets: seq<seq<nat>>

    ghost predicate LruValid()
      reads this, lru.next, lru.prev
    {
      lru.Valid() && LruOk(lru.next[..], lru.prev[..], free, lrus)
    }

    ghost predicate HashValid(used: set<nat>)
      reads this, hash.next, hash.prev, entries
    {
      hash.Valid() && HashOk(hash.next[..], hash.prev[..], buckets, entries[..], bucketOf, used)
    }

    ghost predicate Valid()
      reads this, lru.next, lru.prev, hash.next, hash.prev, entries
    {
      && lru.next != hash.next && lru.next != hash.prev && lru.prev != hash.next && lru.prev != hash.prev
      && Hashes(bucketOf)
      && LruValid() && HashValid(InUse(lrus))
    }

    ghost function Items(): Table
      requires Valid()
      reads this, lru.next, lru.prev, hash.next, hash.prev, entries
    {
      TableOf(entries[..], lrus)
    }

    /** No memory in common with the tag set. */
    ghost predicate SeparateFrom(due: TagSet) {
      && lru.next as object != due.tags && lru.prev as object != due.tags
      && hash.next as object != due.tags && hash.prev as object != due.tags
      && entries as object != due.tags
    }

    /** An empty table; `bucketOf` and `unknown` stand for the hash functions. */
    constructor (bucketOf: Key -> nat, unknown: Key -> Tag)
      requires Hashes(bucketOf)
      ensures Valid() && Items() == [] && this.bucketOf == bucketOf && this.unknown == unknown
      ensures fresh(lru.next) && fresh(lru.prev) && fresh(hash.next) && fresh(hash.prev) && fresh(entries)
    {
      this.bucketOf, this.unknown := bucketOf, unknown;
      lru := new Pool(MAC_MAX + 2);
      hash := new Pool(MAC_MAX + HASH_SIZE);
      entries := new Entry[MAC_MAX](_ => Entry(0, Key(0, 0), -1, 0));
      free, lrus := [], [];
      buckets := seq(HASH_SIZE, _ => []);
      new;
      assert lru.Has(FREE, []) && lru.Has(LRUS, []);
      assert forall b: nat :: b < HASH_SIZE ==> hash.Has(Head(b), []);
      FillFree();
    }

    /** Puts every entry on the free list. */
    method FillFree()
      requires lru.Valid() && lru.next.Length == MAC_MAX + 2 && lru.Has(FREE, []) && lru.Has(LRUS, []) && lrus == []
      modifies this`free, lru.next, lru.prev
      ensures LruValid()
    {
      free := [];
      for i := 0 to MAC_MAX
        invariant lru.Valid() && lru.Has(FREE, free) && lru.Has(LRUS, [])
        invariant |free| == i && (forall e :: e in free <==> 0 <= e < i)
      {
        InsertLeavesOther(lru.next[..], lru.prev[..], FREE, free, 0, i, LRUS, []);
        lru.PushFront(FREE, i, free);
        free := [i] + free;
      }
    }

    /** The entry of bucket `b` that holds `key`. */
    method SearchBucket(b: nat, key: Key) returns (r: Option<nat>)
      requires b < |buckets| && hash.Has(Head(b), buckets[b])
      requires forall i: nat :: i < |buckets[b]| ==> buckets[b][i] < entries.Length
      ensures r.Some? ==> r.value in buckets[b] && r.value < entries.Length && entries[r.value].key == key
      ensures r.None? ==> forall i: nat :: i < |buckets[b]| ==> entries[buckets[b][i]].key != key
    {
      ghost var s := buckets[b];
      ghost var i := 0;
      assert hash.next[Node(Head(b), s, 0)] == Node(Head(b), s, 1);
      var e := hash.next[Head(b)];
      while e != Head(b)
        invariant 0 <= i <= |s| && e == Node(Head(b), s, i + 1)
        invariant forall k: nat :: k < i ==> entries[s[k]].key != key
        decreases |s| - i
      {
        if entries[e].key == key {
          return Some(e);
        }
        assert hash.next[Node(Head(b), s, i + 1)] == Node(Head(b), s, i + 2);
        e := hash.next[e];
        i := i + 1;
      }
      return None;
    }

    /** The entry in use that holds `key`, if any. */
    method Search(key: Key) returns (r: Option<nat>)
      requires Valid()
      ensures r.Some? ==> r.value in lrus && r.value < MAC_MAX && entries[r.value].key == key
      ensures r.None? ==> forall e :: e in lrus ==> e < MAC_MAX && entries[e].key != key
    {
      var b := bucketOf(key);
      assert hash.Has(Head(b), buckets[b]);
      r := SearchBucket(b, key);
      if r.Some? {
        ghost var i: nat :| i < |buckets[b]| && buckets[b][i] == r.value;
        assert buckets[b][i] in InUse(lrus);
      } else {
        forall e | e in lrus
          ensures e < MAC_MAX && entries[e].key != key
        {
          assert e in InUse(lrus);
          assert entries[..][e] == entries[e];
        }
      }
    }

    /** An entry for the new key `key`: a free one or else the least recently used one. */
    method Acquire(key: Key) returns (e: nat)
      requires Valid() && forall f :: f in lrus ==> f < MAC_MAX && entries[f].key != key
      modifies hash.next, hash.prev, entries, this`buckets
      ensures LruValid() && HashValid(InUse(lrus) + {e})
      ensures e < MAC_MAX && e == if free != [] then free[0] else lrus[0]
      ensures entries[e].key == key && entries[e].port == -1 && entries[e].tag == unknown(key)
      ensures entries[..] == old(entries[..])[e := entries[e]]
    {
      var empty := lru.IsEmpty(FREE, free);
      ghost var used := InUse(lrus);
      if !empty {
        assert lru.next[Node(FREE, free, 0)] == Node(FREE, free, 1);
        e := lru.next[FREE];
        assert e in free;
      } else {
        assert lru.next[Node(LRUS, lrus, 0)] == Node(LRUS, lrus, 1);
        e := lru.next[LRUS];
        assert e in used;
        HashRemove(hash.next[..], hash.prev[..], buckets, entries[..], bucketOf, used, e);
        ghost var b0 := bucketOf(entries[..][e].key);
        var _ := hash.Remove(e);
        buckets := buckets[b0 := Without(buckets[b0], e)];
        used := used - {e};
      }
      assert e !in used && HashValid(used);
      assert InUse(lrus) + {e} == used + {e};
      Rekey(e, key, used);
    }

    /** Gives the unused entry `e` the key `key` and puts it into that key's bucket. */
    method Rekey(e: nat, key: Key, ghost used: set<nat>)
      requires HashValid(used) && Hashes(bucketOf) && e < MAC_MAX && e !in used
      requires forall f :: f in used ==> entries[..][f].key != key
      modifies hash.next, hash.prev, entries, this`buckets
      ensures HashValid(used + {e})
      ensures entries[e].key == key && entries[e].port == -1 && entries[e].tag == unknown(key)
      ensures entries[..] == old(entries[..])[e := entries[e]]
    {
      var x := Entry(entries[e].expires, key, -1, unknown(key));
      var b := bucketOf(key);
      HashInsert(hash.next[..], hash.prev[..], buckets, entries[..], bucketOf, used, e, x);
      assert hash.Has(Head(b), buckets[b]);
      assert e !in buckets[b];
      entries[e] := x;
      hash.PushFront(Head(b), e, buckets[b]);
      buckets := buckets[b := [e] + buckets[b]];
    }

    /** Makes entry `e` the most recently used one. */
    method Touch(e: nat)
      requires LruValid() && e < MAC_MAX
      modifies lru.next, lru.prev, this`free, this`lrus
      ensures LruValid()
      ensures free == Without(old(free), e) && lrus == Without(old(lrus), e) + [e]
    {
      hide Without;
      ghost var n, p := lru.next[..], lru.prev[..];
      var _ := lru.Remove(e);
      LruTake(n, p, free, lrus, e);
      free, lrus := Without(free, e), Without(lrus, e);
      LruPushBack(lru.next[..], lru.prev[..], free, lrus, e);
      lru.PushBack(LRUS, e, lrus);
      lrus := lrus + [e];
    }

    /** The entry that holds `key`, or one that now does. */
    method Claim(key: Key) returns (e: nat)
      requires Valid()
      modifies hash.next, hash.prev, entries, this`buckets
      ensures LruValid() && HashValid(InUse(lrus) + {e}) && e < MAC_MAX
      ensures entries[e].key == key
      ensures entries[..] == old(entries[..])[e := entries[e]]
      ensures var i := Find(old(Items()), key);
              if i.Some? then e == lrus[i.value] && entries[e] == old(entries[..])[e]
              else && entries[e].port == -1 && entries[e].tag == unknown(key)
                   && (if |lrus| < MAC_MAX then e !in lrus else e == lrus[0])
    {
      LrusListed();
      var found := Search(key);
      FoundIsFind(key, found);
      hide Find, Ring;
      if found.Some? {
        e := found.value;
        assert InUse(lrus) + {e} == InUse(lrus);
      } else {
        e := Acquire(key);
        assert free != [] ==> free[0] in free;
      }
    }

    /** Renews entry `e` and notes the port; reports the old tag if the port is news. */
    method Stamp(e: nat, port: nat, now: int, drawn: Tag) returns (tag: Tag)
      requires e < entries.Length
      modifies entries
      ensures var x := old(entries[..])[e];
              && entries[..] == old(entries[..])[e := Entry(now + LIFETIME, x.key, port, if x.port == port then x.tag else drawn)]
              && tag == if x.port == port then 0 else x.tag
    {
      entries[e] := entries[e].(expires := now + LIFETIME);
      tag := 0;
      if entries[e].port != port {
        tag := entries[e].tag;
        entries[e] := entries[e].(port := port, tag := drawn);
      }
    }

    /** Learning, as `mac_learning_learn` does it. */
    method LearnMac(key: Key, port: nat, now: int, drawn: Tag) returns (tag: Tag)
      requires Valid() && port < 0x1_0000
      modifies this`free, this`lrus, this`buckets, lru.next, lru.prev, hash.next, hash.prev, entries
      ensures Valid()
      ensures Items() == Learn(old(Items()), key, port, now, drawn)
      ensures tag == LearnResult(old(Items()), key, port, unknown)
    {
      hide LruOk, HashOk, Without, Find;
      if Multicast(key) {
        return 0;
      }
      ghost var es, l := entries[..], lrus;
      LrusListed();
      TableFind(es, l, key);
      var e := Claim(key);
      ghost var claimed := entries[..];
      Touch(e);
      TouchedInUse(l, e);
      WithoutElements(l, e, MAC_MAX);
      tag := Stamp(e, port, now, drawn);
      ghost var x := entries[e];
      assert entries[..] == claimed[e := x] == es[e := x];
      Rewritten(claimed, e, x, InUse(lrus));
      TableAppend(es, x, Without(l, e), e);
      RoomMade(es, l, key, e);
    }

    /** Looking up, as `mac_learning_lookup_tag` does it. */
    method Lookup(key: Key, tag: Tag) returns (port: int, tag1: Tag)
      requires Valid()
      ensures port == LookupPort(Items(), key)
      ensures tag1 == Or(tag, LookupTag(Items(), key, unknown))
    {
      if Multicast(key) {
        assert Or(tag, 0) == tag by { OrZero(tag); }
        return FLOOD, tag;
      }
      port, tag1 := LookupUnicast(key, tag);
    }

    method LookupUnicast(key: Key, tag: Tag) returns (port: int, tag1: Tag)
      requires Valid() && !Multicast(key)
      ensures port == LookupPort(Items(), key)
      ensures tag1 == Or(tag, LookupTag(Items(), key, unknown))
    {
      hide LruOk, HashOk, Find, Or;
      LrusListed();
      var found := Search(key);
      FoundIsFind(key, found);
      if found.Some? {
        return entries[found.value].port, Or(tag, entries[found.value].tag);
      }
      return FLOOD, Or(tag, unknown(key));
    }

    /** Returns the least recently used entry to the free list. */
    method FreeOldest()
      requires Valid() && lrus != []
      modifies this`free, this`lrus, this`buckets, lru.next, lru.prev, hash.next, hash.prev
      ensures Valid()
      ensures free == [old(lrus)[0]] + old(free) && lrus == old(lrus)[1..]
      ensures Items() == old(Items())[1..]
    {
      LrusListed();
      assert lru.next[Node(LRUS, lrus, 0)] == Node(LRUS, lrus, 1);
      hide LruOk, HashOk, Ring;
      var e := lru.next[LRUS];
      ghost var l, es := lrus, entries[..];
      assert e in InUse(l);
      HashRemove(hash.next[..], hash.prev[..], buckets, es, bucketOf, InUse(l), e);
      ghost var b := bucketOf(es[e].key);
      var _ := hash.Remove(e);
      buckets := buckets[b := Without(buckets[b], e)];
      FreeNode(e);
      assert InUse(lrus) == InUse(l) - {e};
    }

    method FreeNode(e: nat)
      requires LruValid() && lrus != [] && e == lrus[0]
      modifies this`free, this`lrus, lru.next, lru.prev
      ensures LruValid() && free == [e] + old(free) && lrus == old(lrus)[1..]
    {
      assert e in lrus && e !in free;
      assert Without(free, e) == free && Without(lrus, e) == lrus[1..];
      hide Without;
      ghost var n, p := lru.next[..], lru.prev[..];
      var _ := lru.Remove(e);
      LruTake(n, p, free, lrus, e);
      lrus := lrus[1..];
      LruPushFree(lru.next[..], lru.prev[..], free, lrus, e);
      lru.PushFront(FREE, e, free);
      free := [e] + free;
    }

    method Flush()
      requires Valid()
      modifies this`free, this`lrus, this`buckets, lru.next, lru.prev, hash.next, hash.prev
      ensures Valid() && Items() == []
    {
      assert lru.Has(LRUS, lrus);
      var empty := lru.IsEmpty(LRUS, lrus);
      while !empty
        invariant Valid() && empty == (lrus == [])
        decreases |lrus|
      {
        FreeOldest();
        assert lru.Has(LRUS, lrus);
        empty := lru.IsEmpty(LRUS, lrus);
      }
    }

    /** Frees the entries that are due and notes their tags in `due`, if there is one. */
    method Run(now: int, due: TagSet?)
      requires Valid() && (due != null ==> due.Valid() && SeparateFrom(due))
      modifies this`free, this`lrus, this`buckets, lru.next, lru.prev, hash.next, hash.prev, Parts(due)
      ensures Valid() && Items() == Expire(old(Items()), now)
      ensures due != null ==> due.Valid() && due.View() == AddAll(old(due.View()), ExpiredTags(old(Items()), now))
    {
      hide Valid, Expire, ExpiredTags, AddAll, Tags.Add, Items;
      ghost var done: seq<Tag> := [];
      if due != null {
        NothingAdded(due.View());
      }
      var more := OldestIsDue(now);
      while more
        invariant Valid() && (due != null ==> due.Valid())
        invariant more == (Items() != [] && now >= Items()[0].expires)
        invariant Expire(Items(), now) == Expire(old(Items()), now)
        invariant done + ExpiredTags(Items(), now) == ExpiredTags(old(Items()), now)
        invariant due != null ==> due.View() == AddAll(old(due.View()), done)
        decreases |Items()|
      {
        ExpireStep(Items(), now);
        if due != null {
          AddAllStep(old(due.View()), done, Items()[0].tag);
        }
        done := done + [Items()[0].tag];
        FreeDue(due);
        more := OldestIsDue(now);
      }
      ExpireStep(Items(), now);
      assert done + [] == done;
    }

    ghost function Parts(due: TagSet?): set<object>
      reads due
    {
      if due == null then {} else {due, due.tags}
    }

    method FreeDue(due: TagSet?)
      requires Valid() && (due != null ==> due.Valid() && SeparateFrom(due)) && Items() != []
      modifies this`free, this`lrus, this`buckets, lru.next, lru.prev, hash.next, hash.prev, Parts(due)
      ensures Valid() && Items() == old(Items())[1..]
      ensures due != null ==> due.Valid() && due.View() == Tags.Add(old(due.View()), old(Items())[0].tag)
    {
      hide LruOk, HashOk, Ring, Tags.Add;
      if due != null {
        var tag := OldestTag();
        due.AddTag(tag);
      }
      FreeOldest();
    }

    method OldestIsDue(now: int) returns (r: bool)
      requires Valid()
      ensures r == (Items() != [] && now >= Items()[0].expires)
    {
      LrusListed();
      assert lru.Has(LRUS, lrus);
      var empty := lru.IsEmpty(LRUS, lrus);
      if empty {
        return false;
      }
      assert lru.next[Node(LRUS, lrus, 0)] == Node(LRUS, lrus, 1);
      return now >= entries[lru.next[LRUS]].expires;
    }

    method OldestTag() returns (t: Tag)
      requires Valid() && lrus != []
      ensures t == Items()[0].tag
    {
      LrusListed();
      assert lru.next[Node(LRUS, lrus, 0)] == Node(LRUS, lrus, 1);
      t := entries[lru.next[LRUS]].tag;
    }

    /** What a search of the buckets finds is what the table says. */
    lemma FoundIsFind(key: Key, r: Option<nat>)
      requires Valid()
      requires r.Some? ==> r.value in lrus && r.value < MAC_MAX && entries[r.value].key == key
      requires r.None? ==> forall e :: e in lrus ==> e < MAC_MAX && entries[e].key != key
      ensures var i := Find(Items(), key);
              if r.Some? then i.Some? && lrus[i.value] == r.value else i.None?
    {
      LrusListed();
      TableFind(entries[..], lrus, key);
      hide LruOk, HashOk, Find;
      assert forall i: nat :: i < |lrus| ==> lrus[i] in lrus;
    }

    /** The LRU list names distinct entries with distinct keys. */
    lemma LrusListed()
      requires Valid()
      ensures Below(lrus, MAC_MAX) && entries.Length == MAC_MAX && |lrus| <= MAC_MAX
      ensures forall i: nat, j: nat :: i < j < |lrus| ==> lrus[i] != lrus[j]
      ensures forall i: nat, j: nat :: i < j < |lrus| ==> entries[lrus[i]].key != entries[lrus[j]].key
    {
      assert forall i: nat :: i < |lrus| ==> lrus[i] in lrus && lrus[i] in InUse(lrus);
    }

    /** Changing what an entry says of its key, other than the key, keeps the buckets right. */
    lemma Rewritten(es: seq<Entry>, e: nat, x: Entry, used: set<nat>)
      requires HashOk(hash.next[..], hash.prev[..], buckets, es, bucketOf, used)
      requires e < |es| && x.key == es[e].key && hash.Valid() && entries[..] == es[e := x]
      ensures HashValid(used)
    {
    }
  }

  lemma TouchedInUse(lrus: seq<nat>, e: nat)
    requires forall i: nat, j: nat :: i < j < |lrus| ==> lrus[i] != lrus[j]
    ensures InUse(Without(lrus, e) + [e]) == InUse(lrus) + {e}
  {
    if e in lrus {
      var i: nat :| i < |lrus| && lrus[i] == e;
      WithoutAt(lrus, i);
      RemovedElements(lrus, i);
    }
  }

  /** What is left when entry `e` has been chosen for `key` is the table with room made for it. */
  lemma RoomMade(es: seq<Entry>, lrus: seq<nat>, key: Key, e: nat)
    requires Below(lrus, |es|) && e < |es| && |lrus| <= MAC_MAX
    requires forall i: nat, j: nat :: i < j < |lrus| ==> lrus[i] != lrus[j] && es[lrus[i]].key != es[lrus[j]].key
    requires var i := Find(TableOf(es, lrus), key);
             if i.Some? then e == lrus[i.value]
             else if |lrus| < MAC_MAX then e !in lrus
             else e == lrus[0]
    ensures Below(Without(lrus, e), |es|)
    ensures TableOf(es, Without(lrus, e)) == MakeRoom(TableOf(es, lrus), key)
  {
    TableFind(es, lrus, key);
    if Find(TableOf(es, lrus), key).Some? || |lrus| == MAC_MAX {
      var i: nat :| i < |lrus| && lrus[i] == e;
      WithoutAt(lrus, i);
      TableDrop(es, lrus, i);
    }
  }
}
