module Bytes {
  newtype Byte = b: int | 0 <= b < 256

  /** The pieces of `ss` laid end to end. */
  function Concat(ss: seq<seq<Byte>>): seq<Byte> {
    if ss == [] then [] else ss[0] + Concat(ss[1..])
  }

  lemma {:induction false} ConcatPush(ss: seq<seq<Byte>>, s: seq<Byte>)
    ensures Concat(ss + [s]) == Concat(ss) + s
  {
    if ss == [] {
      assert [s][1..] == [];
    } else {
      ConcatPush(ss[1..], s);
      assert (ss + [s])[1..] == ss[1..] + [s];
    }
  }

  lemma {:induction false} ConcatSplit(ss: seq<seq<Byte>>, i: nat)
    requires i <= |ss|
    ensures Concat(ss) == Concat(ss[..i]) + Concat(ss[i..])
  {
    if i > 0 {
      ConcatSplit(ss[1..], i - 1);
      assert ss[..i][1..] == ss[1..][..i - 1] && ss[1..][i - 1..] == ss[i..];
    } else {
      assert ss[..0] == [] && ss[0..] == ss;
    }
  }
}
