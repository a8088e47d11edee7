/**
 The sparse array of lib/port-array.c: a trie of three levels over 16-bit
 indexes in which all empty parts of all arrays share two sentinel nodes.
 */
module PortArrays {
  import Bits
  import opened Options

  type Value = Option<nat>               // None is the null pointer

  type Node3 = array<Value>
  type Node2 = array<Node3>

  const L1_SIZE: nat := 32
  const L2_SIZE: nat := 32
  const L3_SIZE: nat := 64
  const SIZE: nat := 65536
  const WORD: nat := 32

  /** The `count` bits of `data` above the lowest `start` ones. */
  function ExtractBits(data: nat, start: nat, count: nat): nat {
    Bits.ToNat(Bits.And(Bits.ShiftRight(Bits.FromNat(data, WORD), start), Bits.Ones(count, WORD)))
  }

  function L1(idx: nat): nat {
    idx / 2048 % 32
  }

  function L2(idx: nat): nat {
    idx / 64 % 32
  }

  function L3(idx: nat): nat {
    idx % 64
  }

  function Index(i: nat, k: nat, m: nat): nat {
    i * 2048 + k * 64 + m
  }

  lemma Powers()
    ensures Bits.Pow2(0) == 1 && Bits.Pow2(5) == 32 && Bits.Pow2(6) == 64 && Bits.Pow2(11) == 2048
  {
    assert Bits.Pow2(5) == 32 && Bits.Pow2(6) == 2 * Bits.Pow2(5);
    assert Bits.Pow2(11) == 2 * Bits.Pow2(10) && Bits.Pow2(10) == 2 * Bits.Pow2(9) && Bits.Pow2(9) == 2 * Bits.Pow2(8);
    assert Bits.Pow2(8) == 2 * Bits.Pow2(7) && Bits.Pow2(7) == 2 * Bits.Pow2(6);
  }

  lemma ExtractIsArithmetic(data: nat, start: nat, count: nat)
    requires data < Bits.Pow2(WORD) && count <= WORD
    ensures ExtractBits(data, start, count) == data / Bits.Pow2(start) % Bits.Pow2(count)
  {
    var w := Bits.FromNat(data, WORD);
    Bits.RoundTrip(data, WORD);
    Bits.ShiftIsDivision(w, start);
    Bits.MaskIsRemainder(Bits.ShiftRight(w, start), count);
  }

  /** The levels of an index are the bits that the source's shifts and masks extract. */
  lemma LevelsAreBits(idx: nat)
    requires idx < Bits.Pow2(WORD)
    ensures L1(idx) == ExtractBits(idx, 11, 5) && L2(idx) == ExtractBits(idx, 6, 5) && L3(idx) == ExtractBits(idx, 0, 6)
  {
    hide Bits.Pow2, ExtractBits;
    ExtractIsArithmetic(idx, 11, 5);
    ExtractIsArithmetic(idx, 6, 5);
    ExtractIsArithmetic(idx, 0, 6);
    Powers();
  }

  /** The three bit fields of an index name it. */
  lemma LevelsOfIndex(idx: nat)
    requires idx < SIZE
    ensures L1(idx) < L1_SIZE && L2(idx) < L2_SIZE && L3(idx) < L3_SIZE
    ensures Index(L1(idx), L2(idx), L3(idx)) == idx
  {
    var q := idx / 64;
    var r := q / 32;
    assert idx == q * 64 + idx % 64 && q == r * 32 + q % 32 && r < 32;
    assert idx == r * 2048 + (q % 32) * 64 + idx % 64;
    assert idx / 2048 == r;
  }

  lemma TopLevel(idx: nat)
    ensures idx / 2048 < L1_SIZE <==> idx < SIZE
    ensures idx < SIZE ==> idx / 2048 == L1(idx)
  {
  }

  lemma IndexOfLevels(i: nat, k: nat, m: nat)
    requires i < L1_SIZE && k < L2_SIZE && m < L3_SIZE
    ensures Index(i, k, m) < SIZE
    ensures L1(Index(i, k, m)) == i && L2(Index(i, k, m)) == k && L3(Index(i, k, m)) == m
  {
    Div64(i * 32 + k, m);
    Div32(i, k);
    Div2048(i, k * 64 + m);
  }

  lemma Div64(q: nat, r: nat)
    requires r < 64
    ensures (q * 64 + r) / 64 == q && (q * 64 + r) % 64 == r
  {
  }

  lemma Div32(q: nat, r: nat)
    requires q < 32 && r < 32
    ensures (q * 32 + r) % 32 == r && q % 32 == q
  {
  }

  lemma Div2048(q: nat, r: nat)
    requires r < 2048
    ensures (q * 2048 + r) / 2048 == q
  {
  }

  /** The nodes that stand for every empty part of every array. */
  class Sentinels {
    const l2: Node2
    const l3: Node3

    ghost predicate Valid()
      reads l2, l3
    {
      && l2.Length == L2_SIZE && l3.Length == L3_SIZE
      && (forall k: nat :: k < L2_SIZE ==> l2[k] == l3)
      && (forall m: nat :: m < L3_SIZE ==> l3[m] == None)
    }

    constructor ()
      ensures Valid() && fresh(l2) && fresh(l3)
    {
      var n3 := new Value[64](_ => None);
      l3 := n3;
      l2 := new Node3[32](_ => n3);
    }
  }

  class PortArray {
    const shared: Sentinels
    const l1: array<Node2>
    ghost var repr: set<object>          // the nodes of this array alone

    ghost predicate Valid()
      reads this, repr, shared.l2, shared.l3
    {
      && shared.Valid()
      && l1 in repr && shared.l2 !in repr && shared.l3 !in repr
      && l1.Length == L1_SIZE
      && (forall i: nat :: i < L1_SIZE ==>
            (l1[i] == shared.l2 || l1[i] in repr) && l1[i].Length == L2_SIZE)
      && (forall i: nat, k: nat :: i < L1_SIZE && k < L2_SIZE ==>
            (l1[i][k] == shared.l3 || l1[i][k] in repr) && l1[i][k].Length == L3_SIZE)
      && (forall i: nat, j: nat :: i < j < L1_SIZE && l1[i] == l1[j] ==> l1[i] == shared.l2)
      && (forall i: nat, k: nat, j: nat, l: nat ::
            i < L1_SIZE && k < L2_SIZE && j < L1_SIZE && l < L2_SIZE && l1[i][k] == l1[j][l] && (i != j || k != l) ==>
              l1[i][k] == shared.l3)
    }

    ghost function At(i: nat, k: nat, m: nat): Value
      requires Valid() && i < L1_SIZE && k < L2_SIZE && m < L3_SIZE
      reads this, repr, shared.l2, shared.l3
    {
      l1[i][k][m]
    }

    /** The flat array that the trie stands for. */
    ghost function Elem(idx: nat): Value
      requires Valid() && idx < SIZE
      reads this, repr, shared.l2, shared.l3
    {
      At(L1(idx), L2(idx), L3(idx))
    }

    constructor (shared: Sentinels)
      requires shared.Valid()
      ensures Valid() && this.shared == shared && fresh(repr)
      ensures forall idx: nat :: idx < SIZE ==> Elem(idx) == None
    {
      this.shared := shared;
      var n2 := shared.l2;
      l1 := new Node2[32](_ => n2);
      repr := {l1};
    }

    method Get(idx: nat) returns (v: Value)
      requires Valid() && idx < SIZE
      ensures v == Elem(idx)
    {
      v := l1[L1(idx)][L2(idx)][L3(idx)];
    }

    /** Gives slot `i` a node of its own; no element changes. */
    method OwnL2(i: nat)
      requires Valid() && i < L1_SIZE
      modifies l1, this`repr
      ensures Valid() && repr >= old(repr) && fresh(repr - old(repr))
      ensures l1[i] != shared.l2
      ensures forall j: nat, k: nat :: j < L1_SIZE && k < L2_SIZE ==> l1[j][k] == old(l1[j][k])
    {
      if l1[i] == shared.l2 {
        var s := shared.l2[..];
        var n := new Node3[32](k requires 0 <= k < |s| => s[k]);
        l1[i] := n;
        repr := repr + {n};
      }
    }

    /** Gives slot `k` of the own node at `i` a node of its own; no element changes. */
    method OwnL3(i: nat, k: nat)
      requires Valid() && i < L1_SIZE && k < L2_SIZE && l1[i] != shared.l2
      modifies l1[i], this`repr
      ensures Valid() && repr >= old(repr) && fresh(repr - old(repr))
      ensures l1[i] == old(l1[i]) && l1[i][k] != shared.l3 && (l1[i][k] == old(l1[i][k]) || fresh(l1[i][k]))
      ensures forall j: nat, l: nat, m: nat :: j < L1_SIZE && l < L2_SIZE && m < L3_SIZE ==> At(j, l, m) == old(At(j, l, m))
    {
      if l1[i][k] == shared.l3 {
        var s := shared.l3[..];
        var n := new Value[64](m requires 0 <= m < |s| => s[m]);
        l1[i][k] := n;
        repr := repr + {n};
      }
    }

    /** Writes through nodes that this array owns. */
    method Write(i: nat, k: nat, m: nat, p: Value)
      requires Valid() && i < L1_SIZE && k < L2_SIZE && m < L3_SIZE && l1[i][k] != shared.l3
      modifies l1[i][k]
      ensures Valid()
      ensures forall j: nat, l: nat, n: nat :: j < L1_SIZE && l < L2_SIZE && n < L3_SIZE ==>
                At(j, l, n) == if j == i && l == k && n == m then p else old(At(j, l, n))
    {
      l1[i][k][m] := p;
    }

    /** Sets element `idx` and nothing else. */
    method Set(idx: nat, p: Value)
      requires Valid() && idx < SIZE
      modifies this, repr
      ensures Valid() && fresh(repr - old(repr))
      ensures forall x: nat :: x < SIZE ==> Elem(x) == if x == idx then p else old(Elem(x))
    {
      hide L1, L2, L3;
      LevelsOfIndex(idx);
      var i, k, m := L1(idx), L2(idx), L3(idx);
      OwnL2(i);
      OwnL3(i, k);
      Write(i, k, m, p);
      forall x: nat | x < SIZE
        ensures Elem(x) == if x == idx then p else old(Elem(x))
      {
        LevelsOfIndex(x);
        assert Elem(x) == At(L1(x), L2(x), L3(x));
      }
    }

    // ---------- Iteration ----------

    /** The innermost loop: the first element of a node from position `from` on. */
    method SearchNode3(i: nat, k: nat, from: nat) returns (v: Value, m: nat)
      requires Valid() && i < L1_SIZE && k < L2_SIZE && from <= L3_SIZE
      ensures from <= m <= L3_SIZE && NoneIn(Index(i, k, from), Index(i, k, m))
      ensures v.Some? ==> m < L3_SIZE && Elem(Index(i, k, m)) == v
      ensures v.None? ==> m == L3_SIZE
    {
      hide L1, L2, L3;
      m := from;
      while m < L3_SIZE
        invariant from <= m <= L3_SIZE && NoneIn(Index(i, k, from), Index(i, k, m))
      {
        var p: Value := l1[i][k][m];
        IndexOfLevels(i, k, m);
        if p.Some? {
          return p, m;
        }
        m := m + 1;
      }
      return None, m;
    }

    /** The middle loop: the first element of a node from `(from, m0)` on. */
    method SearchNode2(i: nat, from: nat, m0: nat) returns (v: Value, k: nat, m: nat)
      requires Valid() && i < L1_SIZE && from < L2_SIZE && m0 < L3_SIZE
      ensures v.Some? ==> k < L2_SIZE && m < L3_SIZE && Elem(Index(i, k, m)) == v
      ensures v.Some? ==> Index(i, from, m0) <= Index(i, k, m) && NoneIn(Index(i, from, m0), Index(i, k, m))
      ensures v.None? ==> NoneIn(Index(i, from, m0), Index(i + 1, 0, 0))
    {
      hide L1, L2, L3;
      k, m := from, m0;
      while k < L2_SIZE
        invariant from <= k <= L2_SIZE && m < L3_SIZE && NoneIn(Index(i, from, m0), Index(i, k, m))
        invariant Index(i, from, m0) <= Index(i, k, m)
        invariant k == L2_SIZE ==> m == 0
        decreases L2_SIZE - k
      {
        var l3: Node3 := l1[i][k];
        if l3 != shared.l3 {
          v, m := SearchNode3(i, k, m);
          if v.Some? {
            IndexOfLevels(i, k, m);
            return;
          }
        } else {
          EmptyNode3(i, k, m);
        }
        k := k + 1;
        m := 0;
      }
      v := None;
    }

    /** The outer loop: the first element from `(from, k0, m0)` on. */
    method SearchNode1(from: nat, k0: nat, m0: nat) returns (v: Value, idx: nat)
      requires Valid() && from < L1_SIZE && k0 < L2_SIZE && m0 < L3_SIZE
      ensures v.Some? ==> Index(from, k0, m0) <= idx < SIZE && Elem(idx) == v && NoneIn(Index(from, k0, m0), idx)
      ensures v.None? ==> idx == SIZE && NoneIn(Index(from, k0, m0), SIZE)
    {
      var i: nat, k: nat, m: nat := from, k0, m0;
      ghost var start := Index(from, k0, m0);
      hide L1, L2, L3, PortArray.Elem;
      assert Index(L1_SIZE, 0, 0) == SIZE;
      while i < L1_SIZE
        invariant from <= i <= L1_SIZE && k < L2_SIZE && m < L3_SIZE && (i == L1_SIZE ==> k == m == 0)
        invariant start <= Index(i, k, m) && NoneIn(start, Index(i, k, m))
      {
        var l2: Node2 := l1[i];
        if l2 != shared.l2 {
          var k1, m1;
          v, k1, m1 := SearchNode2(i, k, m);
          if v.Some? {
            IndexOfLevels(i, k1, m1);
            return v, Index(i, k1, m1);
          }
        } else {
          EmptyNode2(i, k, m);
        }
        i := i + 1;
        k, m := 0, 0;
      }
      return None, SIZE;
    }

    /** The least non-empty element from `start` on, or 65536 and null; any `start` will do. */
    method Search(start: nat) returns (v: Value, idx: nat)
      requires Valid()
      ensures v.Some? ==> start <= idx < SIZE && Elem(idx) == v && NoneIn(start, idx)
      ensures v.None? ==> idx == SIZE && NoneIn(start, SIZE)
    {
      hide L1, L2, L3, PortArray.Elem;
      TopLevel(start);
      var i: nat := start / 2048;
      if i >= L1_SIZE {
        return None, SIZE;
      }
      LevelsOfIndex(start);
      hide Index;
      v, idx := SearchNode1(i, L2(start), L3(start));
    }

    ghost predicate NoneIn(from: nat, to: nat)
      requires Valid()
      reads this, repr, shared.l2, shared.l3
    {
      forall x: nat :: from <= x < to && x < SIZE ==> Elem(x) == None
    }

    lemma EmptyNode3(i: nat, k: nat, m: nat)
      requires Valid() && i < L1_SIZE && k < L2_SIZE && m <= L3_SIZE && l1[i][k] == shared.l3
      ensures NoneIn(Index(i, k, m), Index(i, k + 1, 0))
    {
      forall x: nat | Index(i, k, m) <= x < Index(i, k + 1, 0) && x < SIZE
        ensures Elem(x) == None
      {
        IndexOfLevels(i, k, x - Index(i, k, 0));
      }
    }

    lemma EmptyNode2(i: nat, k: nat, m: nat)
      requires Valid() && i < L1_SIZE && k <= L2_SIZE && m <= L3_SIZE && l1[i] == shared.l2
      ensures NoneIn(Index(i, k, m), Index(i + 1, 0, 0))
    {
      forall x: nat | Index(i, k, m) <= x < Index(i + 1, 0, 0) && x < SIZE
        ensures Elem(x) == None
      {
        LevelsOfIndex(x);
        assert L1(x) == i;
      }
    }

    /** `port_array_first`. */
    method First() returns (v: Value, idx: nat)
      requires Valid()
      ensures v.Some? ==> idx < SIZE && Elem(idx) == v && NoneIn(0, idx)
      ensures v.None? ==> idx == SIZE && NoneIn(0, SIZE)
    {
      v, idx := Search(0);
    }

    /**
     `port_array_next`, which counts on in 32 bits: it finds the least non-empty
     element above `after`, except that above the largest number it starts over.
     */
    method Next(after: nat) returns (v: Value, idx: nat)
      requires Valid() && after <= 0xffff_ffff
      ensures v.Some? ==> idx < SIZE && Elem(idx) == v
      ensures (if v.Some? then idx > after && NoneIn(after + 1, idx) else idx == SIZE && NoneIn(after + 1, SIZE)) <==>
              after != 0xffff_ffff || NoneIn(0, SIZE)
      ensures after == 0xffff_ffff ==> if v.Some? then NoneIn(0, idx) else NoneIn(0, SIZE)
    {
      hide L1, L2, L3;
      var start := if after == 0xffff_ffff then 0 else after + 1;
      v, idx := Search(start);
      assert after == 0xffff_ffff ==> NoneIn(after + 1, SIZE);
    }
  }

  /** Iterating from the first to the last element visits exactly the non-empty ones, once each and in order. */
  method Visit(a: PortArray) returns (visited: seq<nat>)
    requires a.Valid()
    ensures forall i: nat, j: nat :: i < j < |visited| ==> visited[i] < visited[j]
    ensures forall x: nat :: x in visited <==> x < SIZE && a.Elem(x).Some?
  {
    hide PortArray.Valid, PortArray.Elem;
    visited := [];
    var v, idx := a.First();
    while v.Some?
      invariant v.Some? ==> idx < SIZE && a.Elem(idx) == v
      invariant v.None? ==> idx == SIZE
      invariant forall i: nat, j: nat :: i < j < |visited| ==> visited[i] < visited[j]
      invariant forall x: nat :: x in visited <==> x < idx && x < SIZE && a.Elem(x).Some?
      decreases SIZE - idx
    {
      assert forall i: nat :: i < |visited| ==> visited[i] in visited;
      visited := visited + [idx];
      v, idx := a.Next(idx);
    }
  }

  /** Arrays that share the sentinels do not interfere. */
  method SetLeavesOthersAlone(a: PortArray, b: PortArray, idx: nat, p: Value)
    requires a.Valid() && b.Valid() && a.shared == b.shared && a != b && a.repr !! b.repr && idx < SIZE
    requires a !in b.repr && b !in a.repr
    modifies a, a.repr
    ensures a.Valid() && b.Valid() && a.repr !! b.repr
    ensures forall x: nat :: x < SIZE ==> b.Elem(x) == old(b.Elem(x))
    ensures a.Elem(idx) == p
  {
    a.Set(idx, p);
  }

  /** Above the largest number, which no element can have, the search starts over and finds a smaller one. */
  method StartsOver(shared: Sentinels) returns (v: Value, idx: nat)
    requires shared.Valid()
    ensures v == Some(1) && idx == 5
  {
    var a := new PortArray(shared);
    a.Set(5, Some(1));
    v, idx := a.Next(0xffff_ffff);
    assert a.Elem(5) == Some(1);
  }
}
