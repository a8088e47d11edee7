/**
 The hash map of lib/hmap.c and lib/hmap.h.  A node is named by a number; the
 `hash` and `next` fields of all nodes are kept in two maps, as the memory of
 the nodes, which belongs to the callers, would keep them.
 */
module HashMaps {
  import opened Options
  import opened Bits

  const WORD: nat := 64

  // ---------- Chains ----------

  /** The links lead from `head` through exactly the nodes of `s`. */
  ghost predicate Linked(next: map<nat, Option<nat>>, head: Option<nat>, s: seq<nat>)
    decreases |s|
  {
    if s == [] then head == None
    else head == Some(s[0]) && s[0] in next && Linked(next, next[s[0]], s[1..])
  }

  ghost predicate Distinct(s: seq<nat>) {
    forall i: nat, j: nat :: i < j < |s| ==> s[i] != s[j]
  }

  lemma {:induction false} LinkedFrame(next: map<nat, Option<nat>>, head: Option<nat>, s: seq<nat>, x: nat, v: Option<nat>)
    requires Linked(next, head, s) && x !in s
    ensures Linked(next[x := v], head, s)
    decreases |s|
  {
    if s != [] {
      LinkedFrame(next, next[s[0]], s[1..], x, v);
    }
  }

  lemma StepAlong(s: seq<nat>, k: nat)
    requires Distinct(s) && k < |s|
    ensures s[k..] == [s[k]] + s[k + 1..] && s[k..][1..] == s[k + 1..]
    ensures s[k] in s && s[k] !in s[..k] && s[k] !in s[k + 1..]
    ensures multiset(s[..k + 1]) == multiset(s[..k]) + multiset{s[k]}
    ensures forall x :: x in s[..k + 1] <==> x in s[..k] || x == s[k]
  {
    assert s[..k + 1] == s[..k] + [s[k]];
  }

  /** Taking out position `k`, which is not the first. */
  lemma {:induction false} LinkedUnlink(next: map<nat, Option<nat>>, head: Option<nat>, s: seq<nat>, k: nat)
    requires Linked(next, head, s) && Distinct(s) && 0 < k < |s|
    ensures s[k - 1] in next && s[k] in next
    ensures Linked(next[s[k - 1] := next[s[k]]], head, s[..k] + s[k + 1..])
    decreases |s|
  {
    assert Linked(next, next[s[0]], s[1..]);
    if k == 1 {
      assert s[1] in next && Linked(next, next[s[1]], s[1..][1..]);
      assert s[1..][1..] == s[2..];
      LinkedFrame(next, next[s[1]], s[2..], s[0], next[s[1]]);
      assert (s[..1] + s[2..])[1..] == s[2..];
    } else {
      assert s[1..][k - 1] == s[k] && s[1..][k - 2] == s[k - 1];
      LinkedUnlink(next, next[s[0]], s[1..], k - 1);
      assert (s[..k] + s[k + 1..])[1..] == s[1..][..k - 1] + s[1..][k..];
    }
  }

  lemma {:induction false} LinkedAt(next: map<nat, Option<nat>>, head: Option<nat>, s: seq<nat>, k: nat)
    requires Linked(next, head, s) && k < |s|
    ensures s[k] in next && Linked(next, next[s[k]], s[k + 1..])
    ensures next[s[k]] == if k + 1 < |s| then Some(s[k + 1]) else None
    decreases k
  {
    if k > 0 {
      LinkedAt(next, next[s[0]], s[1..], k - 1);
      assert s[1..][k - 1] == s[k] && s[1..][k..] == s[k + 1..];
    }
  }

  // ---------- The whole map ----------

  /** `hash & mask` for a map of `size` buckets, `size` being a power of two. */
  function Slot(h: nat, size: nat): (b: nat)
    requires size > 0
    ensures b < size
  {
    h % size
  }

  /** Taking the remainder is masking. */
  lemma SlotIsMask(h: nat, k: nat)
    requires h < Pow2(WORD) && k <= WORD
    ensures Slot(h, Pow2(k)) == ToNat(And(FromNat(h, WORD), Ones(k, WORD)))
  {
    RoundTrip(h, WORD);
    MaskIsRemainder(FromNat(h, WORD), k);
  }

  /** Every node is in the chain of its hash, and in it once. */
  ghost predicate Rep(buckets: seq<Option<nat>>, next: map<nat, Option<nat>>, hash: map<nat, nat>, chains: seq<seq<nat>>) {
    && |chains| == |buckets| > 0
    && (forall b: nat :: b < |chains| ==> Linked(next, buckets[b], chains[b]) && Distinct(chains[b]))
    && Hashed(hash, chains, |buckets|)
  }

  /** All nodes of the map. */
  ghost function Bag(chains: seq<seq<nat>>): multiset<nat> {
    if chains == [] then multiset{} else multiset(chains[0]) + Bag(chains[1..])
  }

  lemma {:induction false} BagUpdate(chains: seq<seq<nat>>, b: nat, c: seq<nat>)
    requires b < |chains|
    ensures Bag(chains[b := c]) + multiset(chains[b]) == Bag(chains) + multiset(c)
  {
    if b == 0 {
      assert chains[0 := c][1..] == chains[1..];
    } else {
      var t := chains[1..];
      BagUpdate(t, b - 1, c);
      assert chains[b := c][1..] == t[b - 1 := c] && chains[b := c][0] == chains[0] && t[b - 1] == chains[b];
      calc {
        Bag(chains[b := c]) + multiset(chains[b]);
        multiset(chains[0]) + (Bag(t[b - 1 := c]) + multiset(t[b - 1]));
        multiset(chains[0]) + (Bag(t) + multiset(c));
        Bag(chains) + multiset(c);
      }
    }
  }

  lemma {:induction false} InBag(chains: seq<seq<nat>>, x: nat)
    ensures x in Bag(chains) <==> exists b: nat :: b < |chains| && x in chains[b]
  {
    if chains != [] {
      InBag(chains[1..], x);
      if exists b: nat :: b < |chains| && x in chains[b] {
        var b: nat :| b < |chains| && x in chains[b];
        assert b > 0 ==> chains[1..][b - 1] == chains[b];
      }
      if x in Bag(chains[1..]) {
        var b: nat :| b < |chains[1..]| && x in chains[1..][b];
        assert x in chains[b + 1];
      }
    }
  }

  /** A node of the map is in the chain that its hash names. */
  lemma InItsChain(buckets: seq<Option<nat>>, next: map<nat, Option<nat>>, hash: map<nat, nat>, chains: seq<seq<nat>>, x: nat)
    requires Rep(buckets, next, hash, chains) && x in Bag(chains)
    ensures x in hash && x in chains[Slot(hash[x], |buckets|)]
  {
    InBag(chains, x);
    var b: nat :| b < |chains| && x in chains[b];
    var i: nat :| i < |chains[b]| && chains[b][i] == x;
  }

  lemma Cancel(a: multiset<nat>, b: multiset<nat>, s: multiset<nat>)
    requires a + s == b + s
    ensures a == b
  {
    forall x ensures a[x] == b[x] {
      assert (a + s)[x] == a[x] + s[x] && (b + s)[x] == b[x] + s[x];
    }
  }

  lemma BagInsert(chains: seq<seq<nat>>, b: nat, x: nat)
    requires b < |chains|
    ensures Bag(chains[b := [x] + chains[b]]) == Bag(chains) + multiset{x}
  {
    hide Bag;
    BagUpdate(chains, b, [x] + chains[b]);
    assert multiset([x] + chains[b]) == multiset{x} + multiset(chains[b]);
    Cancel(Bag(chains[b := [x] + chains[b]]), Bag(chains) + multiset{x}, multiset(chains[b]));
  }

  lemma BagRemove(chains: seq<seq<nat>>, b: nat, k: nat)
    requires b < |chains| && k < |chains[b]|
    ensures Bag(Cut(chains, b, k)) + multiset{chains[b][k]} == Bag(chains)
  {
    hide Bag;
    var s := chains[b];
    var r := s[..k] + s[k + 1..];
    BagUpdate(chains, b, r);
    assert s == s[..k] + ([s[k]] + s[k + 1..]);
    assert multiset(s) == multiset(r) + multiset{s[k]};
    Cancel(Bag(chains[b := r]) + multiset{s[k]}, Bag(chains), multiset(r));
  }

  /** No node is in two chains. */
  lemma ChainsApart(buckets: seq<Option<nat>>, next: map<nat, Option<nat>>, hash: map<nat, nat>, chains: seq<seq<nat>>,
                    a: nat, b: nat, x: nat)
    requires Rep(buckets, next, hash, chains) && a < |chains| && b < |chains| && a != b && x in chains[b]
    ensures x !in chains[a]
  {
    hide Slot;
    var i: nat :| i < |chains[b]| && chains[b][i] == x;
    assert Slot(hash[chains[b][i]], |buckets|) == b;
  }

  lemma RepInsert(buckets: seq<Option<nat>>, next: map<nat, Option<nat>>, hash: map<nat, nat>, chains: seq<seq<nat>>,
                  x: nat, h: nat)
    requires Rep(buckets, next, hash, chains) && x !in Bag(chains)
    ensures var b := Slot(h, |buckets|);
            && Rep(buckets[b := Some(x)], next[x := buckets[b]], hash[x := h], chains[b := [x] + chains[b]])
            && Bag(chains[b := [x] + chains[b]]) == Bag(chains) + multiset{x}
  {
    hide Slot;
    var b := Slot(h, |buckets|);
    BagInsert(chains, b, x);
    InBag(chains, x);
    hide Bag;
    var c := chains[b := [x] + chains[b]];
    forall a: nat | a < |chains|
      ensures Linked(next[x := buckets[b]], buckets[b := Some(x)][a], c[a]) && Distinct(c[a])
    {
      InsertLinked(buckets, next, chains, x, a, b);
    }
    InsertHashed(hash, chains, |buckets|, x, h, b);
    hide Linked, Distinct;
  }

  lemma InsertLinked(buckets: seq<Option<nat>>, next: map<nat, Option<nat>>, chains: seq<seq<nat>>, x: nat, a: nat, b: nat)
    requires |chains| == |buckets| && a < |chains| && b < |chains| && x !in chains[a] && x !in chains[b]
    requires Linked(next, buckets[a], chains[a]) && Distinct(chains[a])
    ensures var c := chains[b := [x] + chains[b]];
            Linked(next[x := buckets[b]], buckets[b := Some(x)][a], c[a]) && Distinct(c[a])
  {
    LinkedFrame(next, buckets[a], chains[a], x, buckets[b]);
    assert ([x] + chains[b])[1..] == chains[b];
  }

  /** The nodes of every chain have a hash that leads to it. */
  ghost predicate Hashed(hash: map<nat, nat>, chains: seq<seq<nat>>, size: nat)
    requires size > 0
  {
    forall b: nat, i: nat :: b < |chains| && i < |chains[b]| ==> chains[b][i] in hash && Slot(hash[chains[b][i]], size) == b
  }

  lemma InsertHashed(hash: map<nat, nat>, chains: seq<seq<nat>>, size: nat, x: nat, h: nat, b: nat)
    requires size == |chains| > 0 && Hashed(hash, chains, size) && b == Slot(h, size)
    requires forall a: nat :: a < |chains| ==> x !in chains[a]
    ensures Hashed(hash[x := h], chains[b := [x] + chains[b]], size)
  {
    hide Slot;
    var c := chains[b := [x] + chains[b]];
    forall a: nat, i: nat | a < |c| && i < |c[a]|
      ensures c[a][i] in hash[x := h] && Slot(hash[x := h][c[a][i]], size) == a
    {
      if a == b && i > 0 {
        assert c[a][i] == chains[b][i - 1] && chains[b][i - 1] in chains[b];
      } else if a != b {
        assert c[a][i] in chains[a];
      }
    }
  }

  function Cut(chains: seq<seq<nat>>, b: nat, k: nat): seq<seq<nat>>
    requires b < |chains| && k < |chains[b]|
  {
    chains[b := chains[b][..k] + chains[b][k + 1..]]
  }

  lemma CutKeepsHashes(hash: map<nat, nat>, chains: seq<seq<nat>>, b: nat, k: nat)
    requires b < |chains| && k < |chains[b]| && Distinct(chains[b])
    requires forall a: nat, i: nat :: a < |chains| && i < |chains[a]| ==>
               chains[a][i] in hash && Slot(hash[chains[a][i]], |chains|) == a
    ensures Distinct(Cut(chains, b, k)[b])
    ensures forall a: nat, i: nat :: a < |chains| && i < |Cut(chains, b, k)[a]| ==>
              Cut(chains, b, k)[a][i] in hash && Slot(hash[Cut(chains, b, k)[a][i]], |chains|) == a
  {
    hide Slot;
    var c := Cut(chains, b, k);
    assert forall i: nat :: i < |c[b]| ==> c[b][i] == chains[b][if i < k then i else i + 1];
  }

  lemma RepRemoveFirst(buckets: seq<Option<nat>>, next: map<nat, Option<nat>>, hash: map<nat, nat>, chains: seq<seq<nat>>,
                       b: nat)
    requires Rep(buckets, next, hash, chains) && b < |chains| && chains[b] != []
    ensures chains[b][0] in next
    ensures Rep(buckets[b := next[chains[b][0]]], next, hash, Cut(chains, b, 0))
  {
    hide Slot;
    assert Linked(next, buckets[b], chains[b]);
    assert Cut(chains, b, 0)[b] == chains[b][1..];
    CutKeepsHashes(hash, chains, b, 0);
  }

  lemma RepRemoveLater(buckets: seq<Option<nat>>, next: map<nat, Option<nat>>, hash: map<nat, nat>, chains: seq<seq<nat>>,
                       b: nat, k: nat)
    requires Rep(buckets, next, hash, chains) && b < |chains| && 0 < k < |chains[b]|
    ensures chains[b][k] in next && chains[b][k - 1] in next
    ensures Rep(buckets, next[chains[b][k - 1] := next[chains[b][k]]], hash, Cut(chains, b, k))
  {
    var s := chains[b];
    LinkedAt(next, buckets[b], s, k);
    LinkedUnlink(next, buckets[b], s, k);
    CutKeepsHashes(hash, chains, b, k);
    var n1 := next[s[k - 1] := next[s[k]]];
    forall a: nat | a < |chains| && a != b
      ensures Linked(n1, buckets[a], chains[a])
    {
      assert s[k - 1] in s;
      ChainsApart(buckets, next, hash, chains, a, b, s[k - 1]);
      LinkedFrame(next, buckets[a], chains[a], s[k - 1], next[s[k]]);
    }
    hide Slot, Linked;
  }

  // ---------- Sizing ----------

  /** 2^k buckets, but never two. */
  ghost predicate IsSize(size: nat) {
    exists k: nat :: k != 1 && size == Pow2(k)
  }

  /** The mask that the source computes for a capacity. */
  function CalcMask(capacity: nat): nat
    requires capacity / 2 < Pow2(WORD)
  {
    var w := FromNat(capacity / 2, WORD);
    var l := Length(w);
    if l == 1 then 3 else Pow2(l) - 1
  }

  method ComputeMask(capacity: nat) returns (mask: nat)
    requires capacity / 2 < Pow2(WORD)
    ensures mask == CalcMask(capacity)
  {
    var w0 := FromNat(capacity / 2, WORD);
    var w := SmearDown(w0);
    // The lowest bit, moved up by one.
    w := Or(w, seq(WORD, i => i == 1 && w[0]));
    LowestBits(Length(w0));
    hide Length, FromNat, Or, ToNat;
    mask := ToNat(w);
  }

  lemma LowestBits(l: nat)
    requires l <= WORD
    ensures var w := Ones(l, WORD);
            ToNat(Or(w, seq(WORD, i => i == 1 && w[0]))) == if l == 1 then 3 else Pow2(l) - 1
  {
    var w := Ones(l, WORD);
    assert Or(w, seq(WORD, i => i == 1 && w[0])) == Ones(if l == 1 then 2 else l, WORD);
    OnesToNat(if l == 1 then 2 else l, WORD);
    assert Pow2(2) == 4;
  }

  /** Copies the highest bit set to all lower ones. */
  method SmearDown(w0: seq<bool>) returns (w: seq<bool>)
    requires |w0| == WORD
    ensures w == Ones(Length(w0), WORD)
  {
    w := w0;
    SmearNone(w0);
    hide Smeared, Or, ShiftRight;
    SmearStep(w0, w, 1);
    w := Or(w, ShiftRight(w, 1));
    SmearStep(w0, w, 2);
    w := Or(w, ShiftRight(w, 2));
    SmearStep(w0, w, 4);
    w := Or(w, ShiftRight(w, 4));
    SmearStep(w0, w, 8);
    w := Or(w, ShiftRight(w, 8));
    SmearStep(w0, w, 16);
    w := Or(w, ShiftRight(w, 16));
    SmearStep(w0, w, 32);
    w := Or(w, ShiftRight(w, 32));
    FullySmeared(w0, w, 64);
  }

  lemma SmearNone(w: seq<bool>)
    ensures Smeared(w, w, 1)
  {
    forall i: nat | i < |w|
      ensures w[i] <==> SetWithin(w, i, 1)
    {
      if w[i] {
        assert SetWithin(w, i, 1);
      }
    }
  }

  /** The mask is one less than a size, at least half the capacity, and no larger than that needs. */
  lemma CalcMaskFits(capacity: nat)
    requires capacity / 2 < Pow2(WORD)
    ensures IsSize(CalcMask(capacity) + 1) && capacity / 2 <= CalcMask(capacity)
    ensures CalcMask(capacity) == 0 <==> capacity < 2
    ensures CalcMask(capacity) > 3 ==> CalcMask(capacity) / 2 < capacity / 2
  {
    var x := capacity / 2;
    var w := FromNat(x, WORD);
    RoundTrip(x, WORD);
    LengthBounds(w);
    var l := Length(w);
    assert Pow2(2) == 4 && Pow2(1) == 2;
    assert IsSize(CalcMask(capacity) + 1) by {
      assert CalcMask(capacity) + 1 == Pow2(if l == 1 then 2 else l);
    }
    if l > 0 {
      assert Pow2(l) == 2 * Pow2(l - 1);
    }
  }

  // ---------- Rehashing ----------

  lemma {:induction false} LinkedAgree(next: map<nat, Option<nat>>, other: map<nat, Option<nat>>, head: Option<nat>, s: seq<nat>)
    requires Linked(next, head, s)
    requires forall x :: x in s && x in next ==> x in other && other[x] == next[x]
    ensures Linked(other, head, s)
    decreases |s|
  {
    if s != [] {
      assert s[0] in s;
      LinkedAgree(next, other, next[s[0]], s[1..]);
    }
  }

  lemma {:induction false} BagSplit(chains: seq<seq<nat>>, i: nat)
    requires i < |chains|
    ensures Bag(chains[..i + 1]) == Bag(chains[..i]) + multiset(chains[i])
  {
    if i == 0 {
      assert chains[..1] == [chains[0]] && chains[..1][1..] == [];
    } else {
      var t := chains[1..];
      BagSplit(t, i - 1);
      assert chains[..i + 1][1..] == t[..i] && chains[..i][1..] == t[..i - 1] && t[i - 1] == chains[i];
      calc {
        Bag(chains[..i + 1]);
        multiset(chains[0]) + Bag(t[..i]);
        multiset(chains[0]) + (Bag(t[..i - 1]) + multiset(t[i - 1]));
        Bag(chains[..i]) + multiset(chains[i]);
      }
    }
  }

  lemma {:induction false} BagEmpty(n: nat)
    ensures Bag(seq(n, _ => [])) == multiset{}
  {
    if n > 0 {
      BagEmpty(n - 1);
      assert seq<seq<nat>>(n, _ => [])[1..] == seq<seq<nat>>(n - 1, _ => []);
    }
  }

  class Hmap {
    var buckets: array<Option<nat>>
    var n: nat
    var next: map<nat, Option<nat>>
    var hash: map<nat, nat>
    ghost var chains: seq<seq<nat>>

    ghost predicate Valid()
      reads this, buckets
    {
      Rep(buckets[..], next, hash, chains) && n == |Bag(chains)| && IsSize(buckets.Length)
    }

    ghost function Nodes(): multiset<nat>
      reads this
    {
      Bag(chains)
    }

    constructor ()
      ensures Valid() && fresh(buckets) && Nodes() == multiset{} && buckets.Length == 1
    {
      buckets := new Option<nat>[1](_ => None);
      n, next, hash := 0, map[], map[];
      chains := [[]];
      assert Pow2(0) == 1;
    }

    method InsertFast(x: nat, h: nat)
      requires Valid() && x !in Nodes()
      modifies this`n, this`next, this`hash, this`chains, buckets
      ensures Valid() && Nodes() == old(Nodes()) + multiset{x}
      ensures hash == old(hash)[x := h] && n == old(n) + 1
    {
      RepInsert(buckets[..], next, hash, chains, x, h);
      hide Rep, Bag, IsSize;
      var b := Slot(h, buckets.Length);
      hash := hash[x := h];
      next := next[x := buckets[b]];
      buckets[b] := Some(x);
      n := n + 1;
      chains := chains[b := [x] + chains[b]];
    }

    /** Inserts, and expands so that there are at most two nodes for each bucket on average. */
    method Insert(x: nat, h: nat)
      requires Valid() && x !in Nodes() && n + 1 < Pow2(WORD)
      modifies this, buckets
      ensures Valid() && Nodes() == old(Nodes()) + multiset{x}
      ensures hash == old(hash)[x := h]
      ensures n / 2 <= buckets.Length - 1
      ensures buckets == old(buckets) || fresh(buckets)
    {
      hide Rep, Bag, IsSize;
      InsertFast(x, h);
      if n / 2 > buckets.Length - 1 {
        Expand();
        CalcMaskFits(n);
      }
    }

    method Expand()
      requires Valid() && n < Pow2(WORD)
      modifies this, buckets
      ensures Valid() && Nodes() == old(Nodes()) && hash == old(hash) && n == old(n)
      ensures buckets.Length == if CalcMask(n) + 1 > old(buckets.Length) then CalcMask(n) + 1 else old(buckets.Length)
      ensures buckets == old(buckets) || fresh(buckets)
    {
      hide Rep, Bag;
      CalcMaskFits(n);
      var mask := ComputeMask(n);
      if mask > buckets.Length - 1 {
        Resize(mask);
      }
    }

    method Shrink()
      requires Valid() && n < Pow2(WORD)
      modifies this, buckets
      ensures Valid() && Nodes() == old(Nodes()) && hash == old(hash) && n == old(n)
      ensures buckets.Length == if CalcMask(n) + 1 < old(buckets.Length) then CalcMask(n) + 1 else old(buckets.Length)
      ensures buckets == old(buckets) || fresh(buckets)
    {
      hide Rep, Bag;
      CalcMaskFits(n);
      var mask := ComputeMask(n);
      if mask < buckets.Length - 1 {
        Resize(mask);
      }
    }

    /** Links node `x`, which is in no bucket of `tb`, into its bucket there. */
    method MoveNode(x: nat, tb: array<Option<nat>>, ghost tc: seq<seq<nat>>) returns (ghost tc': seq<seq<nat>>)
      requires x in hash && x !in Bag(tc) && tb.Length > 0 && Rep(tb[..], next, hash, tc)
      modifies this`next, tb
      ensures Rep(tb[..], next, hash, tc') && Bag(tc') == Bag(tc) + multiset{x}
      ensures next == old(next)[x := old(tb[Slot(hash[x], tb.Length)])]
    {
      hide Slot, Rep, Bag;
      RepSize(tb[..], next, hash, tc);
      RepInsert(tb[..], next, hash, tc, x, hash[x]);
      assert hash[x := hash[x]] == hash;
      var b := Slot(hash[x], tb.Length);
      tc' := tc[b := [x] + tc[b]];
      next := next[x := tb[b]];
      tb[b] := Some(x);
    }

    /** Moves the nodes `s` of one old chain, from `first` on, into the new buckets `tb`. */
    method Rehash(first: Option<nat>, tb: array<Option<nat>>, ghost s: seq<nat>, ghost tc: seq<seq<nat>>)
      returns (ghost tc': seq<seq<nat>>)
      requires Linked(next, first, s) && Distinct(s) && (forall x :: x in s ==> x in hash && x !in Bag(tc))
      requires tb.Length > 0 && Rep(tb[..], next, hash, tc)
      modifies this`next, tb
      ensures Rep(tb[..], next, hash, tc') && Bag(tc') == Bag(tc) + multiset(s)
      ensures forall x :: x !in s && x in old(next) ==> x in next && next[x] == old(next)[x]
    {
      hide Rep, Bag, Distinct, Slot;
      var node := first;
      ghost var k := 0;
      tc' := tc;
      assert s[0..] == s;
      while node.Some?
        invariant 0 <= k <= |s| && Linked(next, node, s[k..])
        invariant Rep(tb[..], next, hash, tc') && Bag(tc') == Bag(tc) + multiset(s[..k])
        invariant forall x :: x !in s[..k] && x in old(next) ==> x in next && next[x] == old(next)[x]
        decreases |s| - k
      {
        var x := node.value;
        StepAlong(s, k);
        var following := next[x];
        LinkedFrame(next, following, s[k + 1..], x, tb[Slot(hash[x], tb.Length)]);
        tc' := MoveNode(x, tb, tc');
        node := following;
        k := k + 1;
      }
      assert s[..k] == s;
    }

    /** The same nodes in `newMask + 1` buckets. */
    method Resize(newMask: nat)
      requires Valid() && IsSize(newMask + 1)
      modifies this
      ensures Valid() && Nodes() == old(Nodes()) && hash == old(hash) && n == old(n)
      ensures buckets.Length == newMask + 1 && fresh(buckets)
    {
      RepSize(buckets[..], next, hash, chains);
      AllLinked(buckets[..], next, hash, chains);
      hide Slot, Linked, Rep, Bag, LinkedFrom, IsSize;
      var tb := new Option<nat>[newMask + 1](_ => None);
      ghost var tc: seq<seq<nat>> := seq(newMask + 1, _ => []);
      EmptyRep(tb[..], next, hash, tc);
      assert chains[..0] == [];
      for i := 0 to buckets.Length
        modifies this`next, tb
        invariant Rep(tb[..], next, hash, tc) && Bag(tc) == Bag(chains[..i])
        invariant LinkedFrom(next, buckets[..], chains, i)
      {
        tc := MoveChain(i, tb, old(next), tc);
      }
      assert chains[..buckets.Length] == chains;
      RepSize(tb[..], next, hash, tc);
      buckets := tb;
      chains := tc;
    }

    /** Moves chain `i`; `was` held the links before any chain was moved. */
    method MoveChain(i: nat, tb: array<Option<nat>>, ghost was: map<nat, Option<nat>>, ghost tc: seq<seq<nat>>)
      returns (ghost tc': seq<seq<nat>>)
      requires tb != buckets && tb.Length > 0 && i < buckets.Length
      requires Rep(buckets[..], was, hash, chains) && LinkedFrom(next, buckets[..], chains, i)
      requires Rep(tb[..], next, hash, tc) && Bag(tc) == Bag(chains[..i])
      modifies this`next, tb
      ensures Rep(tb[..], next, hash, tc') && Bag(tc') == Bag(chains[..i + 1])
      ensures LinkedFrom(next, buckets[..], chains, i + 1)
    {
      RepSize(buckets[..], was, hash, chains);
      hide Slot, Linked, Rep, Bag;
      ChainFresh(buckets[..], was, hash, chains, i);
      BagSplit(chains, i);
      tc' := Rehash(buckets[i], tb, chains[i], tc);
      OthersStayLinked(buckets[..], was, hash, chains, i, old(next), next);
    }

    /** The node before `x`, which is not the first, in its chain `s`. */
    method FindPrevious(x: nat, first: Option<nat>, ghost s: seq<nat>) returns (p: nat, ghost k: nat)
      requires Linked(next, first, s) && x in s && first != Some(x)
      ensures 0 < k < |s| && p == s[k - 1] && x == s[k]
    {
      hide Linked;
      LinkedHead(next, first, s);
      p, k := first.value, 1;
      LinkedAt(next, first, s, 0);
      assert x in s[1..];
      while next[p] != Some(x)
        invariant 0 < k < |s| && p == s[k - 1] && x in s[k..]
        invariant p in next && next[p] == Some(s[k])
        decreases |s| - k
      {
        assert s[k..] == [s[k]] + s[k + 1..];
        LinkedAt(next, first, s, k);
        p := next[p].value;
        k := k + 1;
      }
    }

    /** Takes node `x` out of its chain. */
    method Remove(x: nat)
      requires Valid() && x in Nodes()
      modifies this`n, this`next, this`chains, buckets
      ensures Valid() && Nodes() + multiset{x} == old(Nodes()) && hash == old(hash) && n == old(n) - 1
    {
      InItsChain(buckets[..], next, hash, chains, x);
      var b := Slot(hash[x], buckets.Length);
      RepSize(buckets[..], next, hash, chains);
      ChainMembers(buckets[..], next, hash, chains, b);
      hide Rep, Bag, Slot, IsSize;
      LinkedHead(next, buckets[b], chains[b]);
      hide Linked;
      if buckets[b] == Some(x) {
        RepRemoveFirst(buckets[..], next, hash, chains, b);
        BagRemove(chains, b, 0);
        chains := Cut(chains, b, 0);
        buckets[b] := next[x];
      } else {
        var p;
        ghost var k;
        p, k := FindPrevious(x, buckets[b], chains[b]);
        RepRemoveLater(buckets[..], next, hash, chains, b, k);
        BagRemove(chains, b, k);
        next := next[p := next[x]];
        chains := Cut(chains, b, k);
      }
      n := n - 1;
    }

    // ---------- Searching and iterating ----------

    /** The first node of `s`, the chain from `first` on, that has hash `h`; `rest` follows it. */
    method FindHash(first: Option<nat>, h: nat, ghost s: seq<nat>) returns (r: Option<nat>, ghost rest: seq<nat>)
      requires Linked(next, first, s) && forall x :: x in s ==> x in hash
      ensures (forall x :: x in rest ==> x in hash) && |rest| <= |s|
      ensures if r.None? then Matching(s, hash, h) == []
              else && r.value in next && Linked(next, next[r.value], rest) && |rest| < |s|
                   && Matching(s, hash, h) == [r.value] + Matching(rest, hash, h)
    {
      r := first;
      rest := s;
      while r.Some? && hash[r.value] != h
        invariant Linked(next, r, rest) && |rest| <= |s| && (forall x :: x in rest ==> x in hash)
        invariant Matching(s, hash, h) == Matching(rest, hash, h)
        decreases |rest|
      {
        r := next[r.value];
        rest := rest[1..];
      }
      if r.Some? {
        rest := rest[1..];
      }
    }

    /** Visits the nodes with hash `h` in the chain `s` from `first` on. */
    method VisitChain(first: Option<nat>, h: nat, ghost s: seq<nat>) returns (visited: seq<nat>)
      requires Linked(next, first, s) && forall x :: x in s ==> x in hash
      ensures visited == Matching(s, hash, h)
    {
      hide Matching, Linked;
      visited := [];
      var r: Option<nat>;
      ghost var rest: seq<nat>;
      r, rest := FindHash(first, h, s);
      while r.Some?
        invariant forall x :: x in rest ==> x in hash
        invariant r.Some? ==> r.value in next && Linked(next, next[r.value], rest)
        invariant Matching(s, hash, h) == visited + if r.Some? then [r.value] + Matching(rest, hash, h) else []
        decreases r.Some?, |rest|
      {
        visited := visited + [r.value];
        r, rest := FindHash(next[r.value], h, rest);
      }
      assert visited + [] == visited;
    }

    /** Visits the nodes with hash `h`: exactly those of the map, once each. */
    method VisitHash(h: nat) returns (visited: seq<nat>)
      requires Valid()
      ensures Distinct(visited)
      ensures forall x :: x in visited <==> x in Nodes() && x in hash && hash[x] == h
    {
      var b := Slot(h, buckets.Length);
      ChainMembers(buckets[..], next, hash, chains, b);
      InBucket(buckets[..], next, hash, chains, h);
      MatchingIsExact(chains[b], hash, h);
      hide Rep, Bag, Slot, Matching, Linked;
      visited := VisitChain(buckets[b], h, chains[b]);
    }

    /** The first node in or after bucket `start`. */
    method NextBucket(start: nat) returns (r: Option<nat>, ghost b: nat)
      requires Valid() && start <= |chains|
      ensures start <= b <= |chains| && Bag(chains[b..]) == Bag(chains[start..])
      ensures r.None? ==> b == |chains|
      ensures r.Some? ==> b < |chains| && chains[b] != [] && r == Some(chains[b][0])
    {
      var i := start;
      while i < buckets.Length
        invariant start <= i <= |chains| && Bag(chains[i..]) == Bag(chains[start..])
      {
        assert Linked(next, buckets[i], chains[i]);
        if buckets[i].Some? {
          return buckets[i], i;
        }
        assert chains[i..][1..] == chains[i + 1..] && chains[i..][0] == [];
        i := i + 1;
      }
      return None, i;
    }

    /** Where an iteration stands: at `r`, the first of `rest`, in bucket `b`. */
    ghost predicate Standing(r: Option<nat>, b: nat, rest: seq<nat>)
      reads this, buckets
    {
      r.Some? ==> b < |chains| && buckets.Length > 0 && InChain(next, hash, r, rest, b, buckets.Length)
    }

    /** The nodes it has yet to visit. */
    ghost function Remaining(r: Option<nat>, b: nat, rest: seq<nat>): multiset<nat>
      reads this
    {
      if r.None? || b >= |chains| then multiset{} else multiset(rest) + Bag(chains[b + 1..])
    }

    /** The first node in or after bucket `start`, where all that is left is still to come. */
    method EnterBucket(start: nat) returns (r: Option<nat>, ghost b: nat, ghost rest: seq<nat>)
      requires Valid() && start <= |chains|
      ensures Standing(r, b, rest) && Remaining(r, b, rest) == Bag(chains[start..])
      ensures r.Some? ==> start <= b
    {
      r, b := NextBucket(start);
      rest := [];
      if r.Some? {
        rest := chains[b];
        StartChain(buckets[..], next, hash, chains, b);
      } else {
        assert chains[b..] == [];
      }
    }

    /** `hmap_first`. */
    method First() returns (r: Option<nat>, ghost b: nat, ghost rest: seq<nat>)
      requires Valid()
      ensures Standing(r, b, rest) && Remaining(r, b, rest) == Nodes()
    {
      assert chains[0..] == chains;
      r, b, rest := EnterBucket(0);
    }

    /** `hmap_next`: leaves `x` behind, and nothing else. */
    method Next(x: nat, ghost b0: nat, ghost rest0: seq<nat>) returns (r: Option<nat>, ghost b: nat, ghost rest: seq<nat>)
      requires Valid() && Standing(Some(x), b0, rest0)
      ensures Standing(r, b, rest)
      ensures multiset{x} + Remaining(r, b, rest) == Remaining(Some(x), b0, rest0)
      ensures r.Some? ==> b0 <= b && (b == b0 ==> |rest| < |rest0|)
    {
      ChainStep(next, hash, Some(x), rest0, b0, buckets.Length);
      hide Bag, Linked, Slot, Rep, InChain;
      if next[x].Some? {
        r, b, rest := next[x], b0, rest0[1..];
      } else {
        r, b, rest := EnterBucket(Slot(hash[x], buckets.Length) + 1);
      }
    }

    /** Visits every node of the map exactly once. */
    method VisitAll() returns (visited: seq<nat>)
      requires Valid()
      ensures multiset(visited) == Nodes()
    {
      hide Valid, Standing, Remaining, Bag;
      visited := [];
      var r: Option<nat>;
      ghost var b: nat;
      ghost var rest: seq<nat>;
      r, b, rest := First();
      while r.Some?
        invariant Standing(r, b, rest)
        invariant multiset(visited) + Remaining(r, b, rest) == Nodes()
        decreases r.Some?, if b < |chains| then |chains| - b else 0, |rest|
      {
        var x := r.value;
        StandingInRange(r, b, rest);
        visited := visited + [x];
        r, b, rest := Next(x, b, rest);
      }
      NothingRemains(b, rest);
    }

    lemma StandingInRange(r: Option<nat>, b: nat, rest: seq<nat>)
      requires Standing(r, b, rest) && r.Some?
      ensures b < |chains|
    {
    }

    lemma NothingRemains(b: nat, rest: seq<nat>)
      ensures Remaining(None, b, rest) == multiset{}
    {
    }
  }

  /** `r` heads the rest of the chain of bucket `b`. */
  ghost predicate InChain(next: map<nat, Option<nat>>, hash: map<nat, nat>, r: Option<nat>, rest: seq<nat>, b: nat, size: nat)
    requires size > 0
  {
    && rest != [] && Linked(next, r, rest)
    && forall x :: x in rest ==> x in hash && Slot(hash[x], size) == b
  }

  lemma StartChain(buckets: seq<Option<nat>>, next: map<nat, Option<nat>>, hash: map<nat, nat>, chains: seq<seq<nat>>, b: nat)
    requires Rep(buckets, next, hash, chains) && b < |chains| && chains[b] != []
    ensures InChain(next, hash, buckets[b], chains[b], b, |buckets|) && buckets[b] == Some(chains[b][0])
    ensures Bag(chains[b..]) == multiset(chains[b]) + Bag(chains[b + 1..])
  {
    assert chains[b..][1..] == chains[b + 1..];
  }

  lemma ChainStep(next: map<nat, Option<nat>>, hash: map<nat, nat>, r: Option<nat>, rest: seq<nat>, b: nat, size: nat)
    requires size > 0 && InChain(next, hash, r, rest, b, size)
    ensures r == Some(rest[0]) && rest[0] in next && rest[0] in hash && Slot(hash[rest[0]], size) == b
    ensures multiset(rest) == multiset{rest[0]} + multiset(rest[1..])
    ensures if next[rest[0]].Some? then InChain(next, hash, next[rest[0]], rest[1..], b, size) else rest[1..] == []
  {
    hide Slot;
    assert rest == [rest[0]] + rest[1..];
    LinkedHead(next, next[rest[0]], rest[1..]);
  }

  /** The nodes of `s` that have hash `h`, in order. */
  ghost function Matching(s: seq<nat>, hash: map<nat, nat>, h: nat): seq<nat>
    requires forall x :: x in s ==> x in hash
  {
    if s == [] then []
    else (if hash[s[0]] == h then [s[0]] else []) + Matching(s[1..], hash, h)
  }

  lemma {:induction false} MatchingIsExact(s: seq<nat>, hash: map<nat, nat>, h: nat)
    requires Distinct(s) && forall x :: x in s ==> x in hash
    ensures Distinct(Matching(s, hash, h))
    ensures forall x :: x in Matching(s, hash, h) <==> x in s && hash[x] == h
  {
    if s != [] {
      MatchingIsExact(s[1..], hash, h);
      assert s[0] !in s[1..];
      assert forall x :: x in s <==> x == s[0] || x in s[1..];
    }
  }

  lemma ChainMembers(buckets: seq<Option<nat>>, next: map<nat, Option<nat>>, hash: map<nat, nat>, chains: seq<seq<nat>>, b: nat)
    requires Rep(buckets, next, hash, chains) && b < |chains|
    ensures Linked(next, buckets[b], chains[b]) && Distinct(chains[b]) && forall x :: x in chains[b] ==> x in hash
  {
  }

  /** The nodes with hash `h` are those of one bucket that have it. */
  lemma InBucket(buckets: seq<Option<nat>>, next: map<nat, Option<nat>>, hash: map<nat, nat>, chains: seq<seq<nat>>, h: nat)
    requires Rep(buckets, next, hash, chains)
    ensures forall x :: x in Bag(chains) && x in hash && hash[x] == h <==>
                        x in chains[Slot(h, |buckets|)] && x in hash && hash[x] == h
  {
    forall x | x in hash && hash[x] == h
      ensures x in Bag(chains) <==> x in chains[Slot(h, |buckets|)]
    {
      InBag(chains, x);
      if x in Bag(chains) {
        InItsChain(buckets, next, hash, chains, x);
      }
    }
  }

  lemma LinkedHead(next: map<nat, Option<nat>>, head: Option<nat>, s: seq<nat>)
    requires Linked(next, head, s)
    ensures head == if s == [] then None else Some(s[0])
  {
  }

  /** Chain `i` and the later ones are linked. */
  ghost predicate LinkedFrom(next: map<nat, Option<nat>>, buckets: seq<Option<nat>>, chains: seq<seq<nat>>, i: nat) {
    |buckets| == |chains| && forall j: nat :: i <= j < |chains| ==> Linked(next, buckets[j], chains[j])
  }

  lemma AllLinked(buckets: seq<Option<nat>>, next: map<nat, Option<nat>>, hash: map<nat, nat>, chains: seq<seq<nat>>)
    requires Rep(buckets, next, hash, chains)
    ensures LinkedFrom(next, buckets, chains, 0)
  {
  }

  lemma EmptyRep(buckets: seq<Option<nat>>, next: map<nat, Option<nat>>, hash: map<nat, nat>, chains: seq<seq<nat>>)
    requires |buckets| == |chains| > 0
    requires forall b: nat :: b < |buckets| ==> buckets[b] == None && chains[b] == []
    ensures Rep(buckets, next, hash, chains) && Bag(chains) == multiset{} && Bag([]) == multiset{}
  {
    var e: seq<seq<nat>> := seq(|chains|, _ => []);
    assert chains == e;
    BagEmpty(|chains|);
  }

  /** Relinking the nodes of chain `i` leaves the later chains linked. */
  lemma OthersStayLinked(buckets: seq<Option<nat>>, next: map<nat, Option<nat>>, hash: map<nat, nat>, chains: seq<seq<nat>>,
                         i: nat, before: map<nat, Option<nat>>, after: map<nat, Option<nat>>)
    requires Rep(buckets, next, hash, chains) && i < |chains|
    requires LinkedFrom(before, buckets, chains, i)
    requires forall x :: x !in chains[i] && x in before ==> x in after && after[x] == before[x]
    ensures LinkedFrom(after, buckets, chains, i + 1)
  {
    forall j: nat | i + 1 <= j < |chains|
      ensures Linked(after, buckets[j], chains[j])
    {
      forall x | x in chains[j]
        ensures x !in chains[i]
      {
        ChainsApart(buckets, next, hash, chains, i, j, x);
      }
      LinkedAgree(before, after, buckets[j], chains[j]);
    }
  }

  lemma RepSize(buckets: seq<Option<nat>>, next: map<nat, Option<nat>>, hash: map<nat, nat>, chains: seq<seq<nat>>)
    requires Rep(buckets, next, hash, chains)
    ensures |chains| == |buckets|
  {
  }

  /** No node of chain `i` is in an earlier chain. */
  lemma ChainFresh(buckets: seq<Option<nat>>, next: map<nat, Option<nat>>, hash: map<nat, nat>, chains: seq<seq<nat>>, i: nat)
    requires Rep(buckets, next, hash, chains) && i < |chains|
    ensures Distinct(chains[i]) && forall x :: x in chains[i] ==> x in hash && x !in Bag(chains[..i])
  {
    forall x | x in chains[i]
      ensures x in hash && x !in Bag(chains[..i])
    {
      InBag(chains[..i], x);
      forall b: nat | b < i
        ensures x !in chains[b]
      {
        ChainsApart(buckets, next, hash, chains, b, i, x);
      }
    }
  }
}
