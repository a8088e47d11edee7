/**
 Machine words as sequences of bits, lowest first, and the arithmetic meaning
 of the bit operations that the hash map and the port array use.
 */
module Bits {
  type Word = seq<bool>

  function Pow2(n: nat): (r: nat)
    ensures r >= 1
  {
    if n == 0 then 1 else 2 * Pow2(n - 1)
  }

  function ToNat(w: Word): (r: nat)
    ensures r < Pow2(|w|)
  {
    if w == [] then 0 else (if w[0] then 1 else 0) + 2 * ToNat(w[1..])
  }

  function FromNat(x: nat, n: nat): (w: Word)
    ensures |w| == n
  {
    if n == 0 then [] else [x % 2 == 1] + FromNat(x / 2, n - 1)
  }

  lemma {:induction false} RoundTrip(x: nat, n: nat)
    requires x < Pow2(n)
    ensures ToNat(FromNat(x, n)) == x
  {
    if n > 0 {
      RoundTrip(x / 2, n - 1);
      assert FromNat(x, n)[1..] == FromNat(x / 2, n - 1);
    }
  }

  function Or(a: Word, b: Word): (r: Word)
    requires |a| == |b|
    ensures |r| == |a|
  {
    seq(|a|, i requires 0 <= i < |a| => a[i] || b[i])
  }

  function And(a: Word, b: Word): (r: Word)
    requires |a| == |b|
    ensures |r| == |a|
  {
    seq(|a|, i requires 0 <= i < |a| => a[i] && b[i])
  }

  function ShiftRight(a: Word, s: nat): (r: Word)
    ensures |r| == |a|
  {
    seq(|a|, i requires 0 <= i < |a| => i + s < |a| && a[i + s])
  }

  /** The `k` lowest bits set. */
  function Ones(k: nat, n: nat): (r: Word)
    ensures |r| == n
  {
    seq(n, i => i < k)
  }

  lemma {:induction false} OnesToNat(k: nat, n: nat)
    requires k <= n
    ensures ToNat(Ones(k, n)) == Pow2(k) - 1
  {
    if n > 0 {
      if k == 0 {
        assert Ones(0, n)[1..] == Ones(0, n - 1);
        OnesToNat(0, n - 1);
      } else {
        assert Ones(k, n)[1..] == Ones(k - 1, n - 1);
        OnesToNat(k - 1, n - 1);
      }
    }
  }

  /** Masking with 2^k - 1 is taking the remainder by 2^k. */
  lemma {:induction false} MaskIsRemainder(w: Word, k: nat)
    requires k <= |w|
    ensures ToNat(And(w, Ones(k, |w|))) == ToNat(w) % Pow2(k)
  {
    if w != [] {
      var a := And(w, Ones(k, |w|));
      var low := if w[0] then 1 else 0;
      if k == 0 {
        assert a[1..] == And(w[1..], Ones(0, |w| - 1));
        MaskIsRemainder(w[1..], 0);
      } else {
        assert a[1..] == And(w[1..], Ones(k - 1, |w| - 1));
        MaskIsRemainder(w[1..], k - 1);
        EvenOddRemainder(ToNat(w[1..]), low, Pow2(k - 1));
      }
    }
  }

  lemma EvenOddRemainder(x: nat, low: nat, p: nat)
    requires low <= 1 && p >= 1
    ensures (low + 2 * x) % (2 * p) == low + 2 * (x % p)
  {
    var q, r := x / p, x % p;
    assert x == q * p + r;
    assert low + 2 * x == q * (2 * p) + (low + 2 * r);
    DivModUnique(low + 2 * x, 2 * p, q, low + 2 * r);
  }

  lemma AtLeastOnce(k: nat, d: nat)
    requires k >= 1
    ensures k * d >= d
  {
  }

  lemma SmallMultiple(k: int, d: nat)
    requires 0 - d < k * d < d
    ensures k == 0
  {
    if k != 0 {
      AtLeastOnce(if k > 0 then k else -k, d);
    }
  }

  lemma DivModUnique(x: nat, d: nat, q: nat, r: nat)
    requires d >= 1 && r < d && x == q * d + r
    ensures x % d == r
  {
    var q1, r1 := x / d, x % d;
    assert x == q1 * d + r1;
    assert (q - q1) * d == r1 - r;
    SmallMultiple(q - q1, d);
  }

  lemma {:induction false} HighZero(v: Word)
    ensures ToNat(v + [false]) == ToNat(v)
  {
    if v == [] {
      assert [false][1..] == [];
    } else {
      HighZero(v[1..]);
      assert (v + [false])[1..] == v[1..] + [false];
    }
  }

  lemma HalfAgain(x: nat, p: nat)
    requires p >= 1
    ensures x / (2 * p) == x / 2 / p
  {
    var h, low := x / 2, x % 2;
    var q, r := h / p, h % p;
    assert h == q * p + r;
    assert q * (2 * p) == 2 * (q * p);
    DivUnique(x, 2 * p, q, 2 * r + low);
  }

  lemma DivUnique(x: nat, d: nat, q: nat, r: nat)
    requires d >= 1 && r < d && x == q * d + r
    ensures x / d == q
  {
    var q1, r1 := x / d, x % d;
    assert x == q1 * d + r1;
    assert (q - q1) * d == r1 - r;
    SmallMultiple(q - q1, d);
  }

  /** Shifting right by `s` is dividing by 2^s. */
  lemma {:induction false} ShiftIsDivision(w: Word, s: nat)
    ensures ToNat(ShiftRight(w, s)) == ToNat(w) / Pow2(s)
    decreases s
  {
    if s == 0 {
      assert ShiftRight(w, 0) == w;
    } else {
      var v := ShiftRight(w, 1);
      ShiftIsDivision(v, s - 1);
      assert ShiftRight(v, s - 1) == ShiftRight(w, s);
      if w != [] {
        assert v == w[1..] + [false];
        HighZero(w[1..]);
      } else {
        assert v == [];
      }
      HalfAgain(ToNat(w), Pow2(s - 1));
    }
  }

  // ---------- Smearing ----------

  /** Some bit of `w` among `d` bits from number `i` on is set. */
  ghost predicate SetWithin(w: Word, i: nat, d: nat) {
    exists j: nat :: i <= j < i + d && j < |w| && w[j]
  }

  /** `v` has a bit set where `w` has one set at most `d - 1` higher. */
  ghost predicate Smeared(w: Word, v: Word, d: nat) {
    |v| == |w| && forall i: nat :: i < |w| ==> (v[i] <==> SetWithin(w, i, d))
  }

  lemma SmearStep(w: Word, v: Word, d: nat)
    requires Smeared(w, v, d)
    ensures Smeared(w, Or(v, ShiftRight(v, d)), 2 * d)
  {
    var u := Or(v, ShiftRight(v, d));
    forall i: nat | i < |w|
      ensures u[i] <==> SetWithin(w, i, 2 * d)
    {
      assert i + d < |w| ==> (v[i + d] <==> SetWithin(w, i + d, d));
      if SetWithin(w, i, 2 * d) {
        var j: nat :| i <= j < i + 2 * d && j < |w| && w[j];
        if j < i + d {
          assert SetWithin(w, i, d);
        } else {
          assert SetWithin(w, i + d, d);
        }
      }
    }
  }

  /** The number of bits up to the highest one set. */
  function Length(w: Word): (r: nat)
    ensures r <= |w|
    ensures r > 0 ==> w[r - 1]
    ensures forall i: nat :: r <= i < |w| ==> !w[i]
  {
    if w == [] then 0
    else if w[|w| - 1] then |w|
    else Length(w[..|w| - 1])
  }

  /** Smeared all the way down, a word is the ones up to its highest bit. */
  lemma FullySmeared(w: Word, v: Word, d: nat)
    requires Smeared(w, v, d) && d >= |w|
    ensures v == Ones(Length(w), |w|)
  {
    forall i: nat | i < |w|
      ensures v[i] <==> i < Length(w)
    {
      if i < Length(w) {
        assert w[Length(w) - 1];
        assert SetWithin(w, i, d);
      }
    }
  }

  lemma {:induction false} LengthBounds(w: Word)
    ensures ToNat(w) < Pow2(Length(w))
    ensures Length(w) > 0 ==> Pow2(Length(w) - 1) <= ToNat(w)
  {
    if w != [] {
      var l := Length(w);
      if l == 0 {
        AllZero(w);
      } else {
        LengthBounds(w[1..]);
        assert Length(w[1..]) == l - 1 by { LengthTail(w); }
        if l == 1 {
          AllZero(w[1..]);
        }
      }
    }
  }

  lemma {:induction false} AllZero(w: Word)
    requires forall i: nat :: i < |w| ==> !w[i]
    ensures ToNat(w) == 0
  {
    if w != [] {
      AllZero(w[1..]);
    }
  }

  lemma LengthTail(w: Word)
    requires Length(w) > 0
    ensures Length(w[1..]) == Length(w) - 1
  {
    var l, m := Length(w), Length(w[1..]);
    assert m > 0 ==> w[1..][m - 1] == w[m];
    assert l >= 2 ==> w[1..][l - 2] == w[l - 1];
  }
}
