/**
 Tags (lib/tag.c, lib/tag.h): superimposed codes of 32 bits, and the four-way
 set that accumulates the tags to revalidate.
 */
module Tags {
  type Tag = bv32

  const TAG_SET_SIZE: nat := 4

  /** `a` and `b` have at least two 1-bits in common, and so some tag in common. */
  predicate Intersects(a: Tag, b: Tag) {
    var x := a & b;
    x & (x - 1) != 0
  }

  /** Exactly two 1-bits. */
  predicate IsValid(tag: Tag) {
    var x := tag & (tag - 1);
    var y := x & (x - 1);
    x != 0 && y == 0
  }

  function Or(a: Tag, b: Tag): Tag {
    a | b
  }

  predicate IsFull(t: Tag) {
    t == 0xffff_ffff
  }

  /** Every 1-bit of `a` is one of `b`. */
  predicate Within(a: Tag, b: Tag) {
    a & b == a
  }

  lemma WithinIntersects(a: Tag, b: Tag, t: Tag)
    requires Within(a, b) && Intersects(a, t)
    ensures Intersects(b, t)
  {
  }

  lemma ValidIntersectsSelf(t: Tag)
    requires IsValid(t)
    ensures t != 0 && Intersects(t, t)
  {
  }

  lemma OrWithin(a: Tag, t: Tag)
    ensures Within(a, Or(a, t)) && Within(t, Or(a, t))
  {
  }

  lemma WithinSelfAndFull(a: Tag, f: Tag)
    ensures Within(a, a)
    ensures IsFull(f) ==> Within(a, f)
  {
  }

  // ---------- Making tags ----------

  /** The tag with 1-bits number `x` and `y`. */
  function TwoBits(x: nat, y: nat): Tag
    requires x < 32 && y < 32
  {
    ((1 as Tag) << (x as bv5)) | ((1 as Tag) << (y as bv5))
  }

  lemma DistinctBits(x: nat, y: nat)
    requires x < 32 && y < 32 && x != y
    ensures x as bv5 != y as bv5
  {
    assert (x as bv5) as nat == x;
    assert (y as bv5) as nat == y;
  }

  lemma ShiftsAreValid(x: bv5, y: bv5)
    requires x != y
    ensures IsValid(((1 as Tag) << x) | ((1 as Tag) << y))
  {
  }

  /** Two different bit numbers make a valid tag. */
  lemma TwoBitsAreValid(x: nat, y: nat)
    requires x < 32 && y < 32 && x != y
    ensures IsValid(TwoBits(x, y))
  {
    hide IsValid;
    DistinctBits(x, y);
    ShiftsAreValid(x as bv5, y as bv5);
  }

  function CreateDeterministic(seed: nat): (tag: Tag)
    ensures IsValid(tag)
  {
    var x := seed % 32;
    var y0 := (seed / 32) % 31;
    var y := if y0 >= x then y0 + 1 else y0;
    TwoBitsAreValid(x, y);
    TwoBits(x, y)
  }

  predicate TwoDifferentBits(r: nat) {
    r % 32 != r / 2048
  }

  /** Draws 16-bit numbers until the low and the high five bits differ. */
  method CreateRandom(draws: seq<nat>) returns (tag: Tag)
    requires forall r :: r in draws ==> r < 0x1_0000
    requires exists r :: r in draws && TwoDifferentBits(r)
    ensures IsValid(tag)
  {
    var i := 0;
    while !TwoDifferentBits(draws[i])
      invariant 0 <= i < |draws|
      invariant exists k :: i <= k < |draws| && TwoDifferentBits(draws[k])
      decreases |draws| - i
    {
      i := i + 1;
    }
    assert draws[i] in draws;
    TwoBitsAreValid(draws[i] % 32, draws[i] / 2048);
    tag := TwoBits(draws[i] % 32, draws[i] / 2048);
  }

  // ---------- Tag sets ----------

  datatype TagSetValue = TagSetValue(total: Tag, tags: seq<Tag>, n: nat)
  {
    predicate Valid() {
      |tags| == TAG_SET_SIZE
    }

    predicate Meets(t: Tag)
      requires Valid()
    {
      && Intersects(total, t)
      && (Intersects(tags[0], t) || Intersects(tags[1], t) || Intersects(tags[2], t) || Intersects(tags[3], t))
    }
  }

  const EmptySet := TagSetValue(0, [0, 0, 0, 0], 0)

  function Add(s: TagSetValue, t: Tag): (r: TagSetValue)
    requires s.Valid()
    ensures r.Valid()
  {
    if t == 0 || (IsValid(t) && s.Meets(t)) then s
    else
      var k := s.n % TAG_SET_SIZE;
      var slot := Or(s.tags[k], t);
      var tags := s.tags[k := slot];
      TagSetValue(Or(s.total, t), if IsFull(slot) then tags[0 := slot] else tags, s.n + 1)
  }

  function AddAll(s: TagSetValue, ts: seq<Tag>): (r: TagSetValue)
    requires s.Valid()
    ensures r.Valid()
  {
    if ts == [] then s else Add(AddAll(s, ts[..|ts| - 1]), ts[|ts| - 1])
  }

  /** Every slot of `s` and its total only gained 1-bits on the way to `r`. */
  ghost predicate Grows(s: TagSetValue, r: TagSetValue)
    requires s.Valid() && r.Valid()
  {
    Within(s.total, r.total) && forall k: nat :: k < TAG_SET_SIZE ==> Within(s.tags[k], r.tags[k])
  }

  lemma AddGrows(s: TagSetValue, t: Tag)
    requires s.Valid()
    ensures Grows(s, Add(s, t))
  {
    hide Intersects, Within, IsValid, Or, IsFull;
    OrWithin(s.total, t);
    OrWithin(s.tags[s.n % TAG_SET_SIZE], t);
    WithinSelfAndFull(s.total, s.total);
    forall k: nat | k < TAG_SET_SIZE
      ensures Within(s.tags[k], s.tags[k])
      ensures IsFull(Add(s, t).tags[0]) ==> Within(s.tags[k], Add(s, t).tags[0])
    {
      WithinSelfAndFull(s.tags[k], Add(s, t).tags[0]);
    }
  }

  /** Unless the set meets it already, a tag that is not 0 goes into the total and into some slot. */
  lemma AddStores(s: TagSetValue, t: Tag)
    requires s.Valid() && t != 0 && !(IsValid(t) && s.Meets(t))
    ensures Within(t, Add(s, t).total)
    ensures exists k: nat :: k < TAG_SET_SIZE && Within(t, Add(s, t).tags[k])
  {
    hide Intersects, Within, IsValid, Or, IsFull, TagSetValue.Meets;
    var k := s.n % TAG_SET_SIZE;
    OrWithin(s.total, t);
    OrWithin(s.tags[k], t);
    assert Within(t, Add(s, t).tags[k]);
  }

  lemma GrowingKeepsMeeting(s: TagSetValue, r: TagSetValue, t: Tag)
    requires s.Valid() && r.Valid() && Grows(s, r) && s.Meets(t)
    ensures r.Meets(t)
  {
    hide Intersects, Within, IsValid, Or, IsFull;
    WithinIntersects(s.total, r.total, t);
    var k: nat :| k < TAG_SET_SIZE && Intersects(s.tags[k], t);
    WithinIntersects(s.tags[k], r.tags[k], t);
  }

  /** A tag that was just added is met exactly if it has at least two 1-bits. */
  lemma AddedIsMet(s: TagSetValue, t: Tag)
    requires s.Valid()
    ensures Add(s, t).Meets(t) <==> Intersects(t, t)
  {
    hide Intersects, Within, IsValid, Or, IsFull;
    var r := Add(s, t);
    if Intersects(t, t) {
      ZeroMeetsNothing();
      if !(IsValid(t) && s.Meets(t)) {
        AddStores(s, t);
        var k: nat :| k < TAG_SET_SIZE && Within(t, r.tags[k]);
        WithinIntersects(t, r.total, t);
        WithinIntersects(t, r.tags[k], t);
      }
    } else {
      FewBitsMeetNothing(r.total, t);
    }
  }

  lemma ZeroMeetsNothing()
    ensures !Intersects(0, 0)
  {
  }

  lemma FewBitsMeetNothing(a: Tag, t: Tag)
    requires !Intersects(t, t)
    ensures !Intersects(a, t)
  {
  }

  /**
   No invalidation is missed: after any number of additions the set meets a tag
   that is among them if and only if the tag has at least two 1-bits, as every
   tag made by the two functions above has.
   */
  lemma {:induction false} NothingForgotten(s: TagSetValue, ts: seq<Tag>, t: Tag)
    requires s.Valid() && t in ts
    ensures AddAll(s, ts).Meets(t) <==> Intersects(t, t)
    ensures IsValid(t) ==> AddAll(s, ts).Meets(t)
  {
    hide Intersects, Within, IsValid, Or, IsFull;
    var last := |ts| - 1;
    var before := AddAll(s, ts[..last]);
    if ts[last] == t {
      AddedIsMet(before, t);
    } else {
      assert t in ts[..last];
      NothingForgotten(s, ts[..last], t);
      if Intersects(t, t) {
        AddGrows(before, ts[last]);
        GrowingKeepsMeeting(before, AddAll(s, ts), t);
      } else {
        FewBitsMeetNothing(AddAll(s, ts).total, t);
      }
    }
    if IsValid(t) {
      ValidIntersectsSelf(t);
    }
  }

  /** Whatever the set met before further additions it still meets after them. */
  lemma {:induction false} AddAllKeepsMeeting(s: TagSetValue, ts: seq<Tag>, t: Tag)
    requires s.Valid() && s.Meets(t)
    ensures AddAll(s, ts).Meets(t)
  {
    hide Intersects, Within, IsValid, Or, IsFull;
    if ts != [] {
      AddAllKeepsMeeting(s, ts[..|ts| - 1], t);
      AddGrows(AddAll(s, ts[..|ts| - 1]), ts[|ts| - 1]);
      GrowingKeepsMeeting(AddAll(s, ts[..|ts| - 1]), AddAll(s, ts), t);
    }
  }

  /** The set in place. */
  class TagSet {
    var total: Tag
    const tags: array<Tag>
    var n: nat

    ghost predicate Valid()
      reads this
    {
      tags.Length == TAG_SET_SIZE
    }

    ghost function View(): (v: TagSetValue)
      requires Valid()
      reads this, tags
      ensures v.Valid()
    {
      TagSetValue(total, tags[..], n)
    }

    constructor ()
      ensures Valid() && fresh(tags) && View() == EmptySet
    {
      total, n := 0, 0;
      tags := new Tag[4](_ => 0);
    }

    method IntersectsTag(t: Tag) returns (r: bool)
      requires Valid()
      ensures r == View().Meets(t)
    {
      r := && Intersects(total, t)
           && (Intersects(tags[0], t) || Intersects(tags[1], t) || Intersects(tags[2], t) || Intersects(tags[3], t));
    }

    method AddTag(t: Tag)
      requires Valid()
      modifies this, tags
      ensures Valid() && View() == Add(old(View()), t)
    {
      hide Intersects, IsValid, Or, IsFull, TagSetValue.Meets;
      if t != 0 {
        var met := IntersectsTag(t);
        if !IsValid(t) || !met {
          var k := n % TAG_SET_SIZE;
          var slot := Or(tags[k], t);
          n := n + 1;
          tags[k] := slot;
          if IsFull(slot) {
            tags[0] := slot;
          }
          total := Or(total, t);
        }
      }
    }
  }
}
