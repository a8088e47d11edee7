/**
 Circular doubly linked lists (lib/list.c).  The nodes of the lists live in one
 pool and are named by their index, as the nodes embedded in one struct are by
 their address; `next` and `prev` hold the links, which every operation
 rewrites in place.
 */
module Lists {

  /** The node at position `i` of the ring that starts and ends at `head`. */
  function Node(head: nat, s: seq<nat>, i: nat): nat
    requires i <= |s| + 1
  {
    if i == 0 || i == |s| + 1 then head else s[i - 1]
  }

  /** The links lead from `head` through exactly the nodes of `s`, in order, and back. */
  ghost predicate Ring(next: seq<nat>, prev: seq<nat>, head: nat, s: seq<nat>) {
    && |next| == |prev| && head < |next|
    && (forall i: nat :: i < |s| ==> s[i] < |next| && s[i] != head)
    && (forall i: nat, j: nat :: i < j < |s| ==> s[i] != s[j])
    && (forall i: nat :: i <= |s| ==>
          next[Node(head, s, i)] == Node(head, s, i + 1) && prev[Node(head, s, i + 1)] == Node(head, s, i))
  }

  function InsertAt(s: seq<nat>, k: nat, e: nat): seq<nat>
    requires k <= |s|
  {
    s[..k] + [e] + s[k..]
  }

  function RemoveAt(s: seq<nat>, k: nat): seq<nat>
    requires k < |s|
  {
    s[..k] + s[k + 1..]
  }

  // ---------- What the operations do to the links ----------

  ghost predicate Links(next: seq<nat>, prev: seq<nat>) {
    && |next| == |prev|
    && forall i: nat :: i < |next| ==> next[i] < |next| && prev[i] < |next|
  }

  function InsertNext(next: seq<nat>, prev: seq<nat>, before: nat, e: nat): seq<nat>
    requires before < |prev| && e < |next| && prev[before] < |next|
  {
    next[e := before][prev[before] := e]
  }

  function InsertPrev(prev: seq<nat>, before: nat, e: nat): seq<nat>
    requires before < |prev| && e < |prev|
  {
    prev[e := prev[before]][before := e]
  }

  function RemoveNext(next: seq<nat>, prev: seq<nat>, e: nat): seq<nat>
    requires e < |next| && e < |prev| && prev[e] < |next|
  {
    next[prev[e] := next[e]]
  }

  function RemovePrev(next: seq<nat>, prev: seq<nat>, e: nat): seq<nat>
    requires e < |next| && e < |prev| && next[e] < |prev|
  {
    prev[next[e] := prev[e]]
  }

  /** Inserting before position `k` of a ring. */
  lemma RingInsert(next: seq<nat>, prev: seq<nat>, head: nat, s: seq<nat>, k: nat, e: nat)
    requires Ring(next, prev, head, s) && k <= |s| && e < |next| && e != head && e !in s
    requires prev[Node(head, s, k + 1)] < |next|
    ensures Ring(InsertNext(next, prev, Node(head, s, k + 1), e), InsertPrev(prev, Node(head, s, k + 1), e),
                 head, InsertAt(s, k, e))
  {
    var before := Node(head, s, k + 1);
    var t := InsertAt(s, k, e);
    var n, p := InsertNext(next, prev, before, e), InsertPrev(prev, before, e);
    assert prev[before] == Node(head, s, k);
    forall i: nat | i <= |t|
      ensures n[Node(head, t, i)] == Node(head, t, i + 1) && p[Node(head, t, i + 1)] == Node(head, t, i)
    {
      assert Node(head, t, i) == if i <= k then Node(head, s, i) else if i == k + 1 then e else Node(head, s, i - 1);
      assert Node(head, t, i + 1) ==
             if i + 1 <= k then Node(head, s, i + 1) else if i == k then e else Node(head, s, i);
    }
  }

  /** Removing position `k` of a ring. */
  lemma RingRemove(next: seq<nat>, prev: seq<nat>, head: nat, s: seq<nat>, k: nat)
    requires Ring(next, prev, head, s) && k < |s|
    requires next[s[k]] < |next| && prev[s[k]] < |next|
    ensures Ring(RemoveNext(next, prev, s[k]), RemovePrev(next, prev, s[k]), head, RemoveAt(s, k))
  {
    var e := s[k];
    var t := RemoveAt(s, k);
    var n, p := RemoveNext(next, prev, e), RemovePrev(next, prev, e);
    assert e == Node(head, s, k + 1) && prev[e] == Node(head, s, k) && next[e] == Node(head, s, k + 2);
    forall i: nat | i <= |t|
      ensures n[Node(head, t, i)] == Node(head, t, i + 1) && p[Node(head, t, i + 1)] == Node(head, t, i)
    {
      assert Node(head, t, i) == if i <= k then Node(head, s, i) else Node(head, s, i + 1);
      assert Node(head, t, i + 1) == if i + 1 <= k then Node(head, s, i + 1) else Node(head, s, i + 2);
    }
  }

  /** A ring none of whose nodes is written stays as it is. */
  lemma RingFrame(next: seq<nat>, prev: seq<nat>, n: seq<nat>, p: seq<nat>, head: nat, s: seq<nat>)
    requires Ring(next, prev, head, s) && |n| == |next| && |p| == |prev|
    requires n[head] == next[head] && p[head] == prev[head]
    requires forall i: nat :: i < |s| ==> n[s[i]] == next[s[i]] && p[s[i]] == prev[s[i]]
    ensures Ring(n, p, head, s)
  {
    forall i: nat | i <= |s|
      ensures n[Node(head, s, i)] == Node(head, s, i + 1) && p[Node(head, s, i + 1)] == Node(head, s, i)
    {
      assert next[Node(head, s, i)] == Node(head, s, i + 1);
    }
  }

  /** Two rings with different heads have no node in common. */
  lemma {:induction false} RingsDisjoint(next: seq<nat>, prev: seq<nat>, h: nat, s: seq<nat>, g: nat, t: seq<nat>, i: nat, j: nat)
    requires Ring(next, prev, h, s) && Ring(next, prev, g, t) && h != g && i <= |s| && j <= |t|
    requires g !in s && h !in t
    ensures Node(h, s, i) != Node(g, t, j)
    decreases i
  {
    if i > 0 && j > 0 {
      assert prev[Node(h, s, i)] == Node(h, s, i - 1);
      assert prev[Node(g, t, j)] == Node(g, t, j - 1);
      RingsDisjoint(next, prev, h, s, g, t, i - 1, j - 1);
    }
  }

  /** The two rings have different heads and share no node. */
  ghost predicate Apart(h: nat, s: seq<nat>, g: nat, t: seq<nat>) {
    && h != g && g !in s && h !in t
    && forall x :: x in s ==> x !in t
  }

  /** Inserting into one ring leaves another one alone. */
  lemma InsertLeavesOther(next: seq<nat>, prev: seq<nat>, h: nat, s: seq<nat>, k: nat, e: nat, g: nat, t: seq<nat>)
    requires Ring(next, prev, h, s) && Ring(next, prev, g, t) && Apart(h, s, g, t) && k <= |s|
    requires e < |next| && e != g && e !in t
    requires prev[Node(h, s, k + 1)] < |next|
    ensures Ring(InsertNext(next, prev, Node(h, s, k + 1), e), InsertPrev(prev, Node(h, s, k + 1), e), g, t)
  {
    assert prev[Node(h, s, k + 1)] == Node(h, s, k);
    assert forall i: nat :: i <= |s| + 1 ==> Node(h, s, i) == h || Node(h, s, i) in s;
    assert forall i: nat :: i < |t| ==> t[i] in t && t[i] !in s;
    RingFrame(next, prev, InsertNext(next, prev, Node(h, s, k + 1), e), InsertPrev(prev, Node(h, s, k + 1), e), g, t);
  }

  /** Removing from one ring leaves another one alone. */
  lemma RemoveLeavesOther(next: seq<nat>, prev: seq<nat>, h: nat, s: seq<nat>, k: nat, g: nat, t: seq<nat>)
    requires Ring(next, prev, h, s) && Ring(next, prev, g, t) && Apart(h, s, g, t) && k < |s|
    requires next[s[k]] < |next| && prev[s[k]] < |next|
    ensures Ring(RemoveNext(next, prev, s[k]), RemovePrev(next, prev, s[k]), g, t)
  {
    assert s[k] == Node(h, s, k + 1);
    assert prev[s[k]] == Node(h, s, k) && next[s[k]] == Node(h, s, k + 2);
    assert forall i: nat :: i <= |s| + 1 ==> Node(h, s, i) == h || Node(h, s, i) in s;
    assert forall i: nat :: i < |t| ==> t[i] in t && t[i] !in s;
    RingFrame(next, prev, RemoveNext(next, prev, s[k]), RemovePrev(next, prev, s[k]), g, t);
  }

  // ---------- The lists in place ----------

  class Pool {
    const next: array<nat>
    const prev: array<nat>

    ghost predicate Valid()
      reads next, prev
    {
      next != prev && next.Length == prev.Length && Links(next[..], prev[..])
    }

    ghost predicate Has(head: nat, s: seq<nat>)
      reads next, prev
    {
      Ring(next[..], prev[..], head, s)
    }

    /** `n` nodes, each a ring of its own. */
    constructor (n: nat)
      ensures Valid() && fresh(next) && fresh(prev) && next.Length == n
      ensures forall i: nat :: i < n ==> Has(i, [])
    {
      next := new nat[n](i => i);
      prev := new nat[n](i => i);
    }

    method Insert(before: nat, e: nat)
      requires Valid() && before < next.Length && e < next.Length
      modifies next, prev
      ensures Valid()
      ensures next[..] == InsertNext(old(next[..]), old(prev[..]), before, e)
      ensures prev[..] == InsertPrev(old(prev[..]), before, e)
    {
      ghost var p := prev[..];
      assert p[before] < next.Length;
      var b := prev[before];
      prev[e] := b;
      next[e] := before;
      next[b] := e;
      prev[before] := e;
    }

    method Remove(e: nat) returns (following: nat)
      requires Valid() && e < next.Length
      modifies next, prev
      ensures Valid() && following == old(next[e])
      ensures next[..] == RemoveNext(old(next[..]), old(prev[..]), e)
      ensures prev[..] == RemovePrev(old(next[..]), old(prev[..]), e)
    {
      ghost var n, p := next[..], prev[..];
      assert n[e] < next.Length && p[e] < next.Length;
      following := next[e];
      next[prev[e]] := following;
      prev[following] := prev[e];
    }

    method PushFront(list: nat, e: nat, ghost s: seq<nat>)
      requires Valid() && Has(list, s) && e < next.Length && e != list && e !in s
      modifies next, prev
      ensures Valid() && Has(list, [e] + s)
      ensures next[..] == InsertNext(old(next[..]), old(prev[..]), Node(list, s, 1), e)
      ensures prev[..] == InsertPrev(old(prev[..]), Node(list, s, 1), e)
    {
      assert next[Node(list, s, 0)] == Node(list, s, 1);
      RingInsert(next[..], prev[..], list, s, 0, e);
      assert InsertAt(s, 0, e) == [e] + s;
      Insert(next[list], e);
    }

    method PushBack(list: nat, e: nat, ghost s: seq<nat>)
      requires Valid() && Has(list, s) && e < next.Length && e != list && e !in s
      modifies next, prev
      ensures Valid() && Has(list, s + [e])
      ensures next[..] == InsertNext(old(next[..]), old(prev[..]), list, e)
      ensures prev[..] == InsertPrev(old(prev[..]), list, e)
    {
      RingInsert(next[..], prev[..], list, s, |s|, e);
      assert InsertAt(s, |s|, e) == s + [e];
      Insert(list, e);
    }

    method PopFront(list: nat, ghost s: seq<nat>) returns (front: nat)
      requires Valid() && Has(list, s) && s != []
      modifies next, prev
      ensures Valid() && front == s[0] && Has(list, s[1..])
    {
      assert next[Node(list, s, 0)] == Node(list, s, 1);
      front := next[list];
      assert next[..][front] < next.Length && prev[..][front] < next.Length;
      RingRemove(next[..], prev[..], list, s, 0);
      assert RemoveAt(s, 0) == s[1..];
      var _ := Remove(front);
    }

    method PopBack(list: nat, ghost s: seq<nat>) returns (back: nat)
      requires Valid() && Has(list, s) && s != []
      modifies next, prev
      ensures Valid() && back == s[|s| - 1] && Has(list, s[..|s| - 1])
    {
      assert prev[Node(list, s, |s| + 1)] == Node(list, s, |s|);
      back := prev[list];
      assert next[..][back] < next.Length && prev[..][back] < next.Length;
      RingRemove(next[..], prev[..], list, s, |s| - 1);
      assert RemoveAt(s, |s| - 1) == s[..|s| - 1];
      var _ := Remove(back);
    }

    method IsEmpty(list: nat, ghost s: seq<nat>) returns (r: bool)
      requires Has(list, s)
      ensures r == (s == [])
    {
      assert next[Node(list, s, 0)] == Node(list, s, 1);
      r := next[list] == list;
    }

    method Size(list: nat, ghost s: seq<nat>) returns (n: nat)
      requires Has(list, s)
      ensures n == |s|
    {
      n := 0;
      assert next[Node(list, s, 0)] == Node(list, s, 1);
      var e := next[list];
      while e != list
        invariant n <= |s| && e == Node(list, s, n + 1)
        decreases |s| - n
      {
        assert next[Node(list, s, n + 1)] == Node(list, s, n + 2);
        e := next[e];
        n := n + 1;
      }
    }
  }
}
