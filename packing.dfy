/** The flat parameter vector of `Component.charge` in hyperspy/component.py: the parameters'
    values laid end to end, each taking as many entries as it has elements. */
module Packing {

  /** Sum of the lengths. */
  function Total(lens: seq<nat>): nat
  {
    if lens == [] then 0 else lens[0] + Total(lens[1..])
  }

  /** The running offset of the `k`-th parameter: the sum of the lengths before it. */
  function Offset(lens: seq<nat>, k: nat): nat
    requires k <= |lens|
  {
    Total(lens[..k])
  }

  lemma {:induction false} TotalAppend(a: seq<nat>, b: seq<nat>)
    ensures Total(a + b) == Total(a) + Total(b)
  {
    if a != [] {
      assert (a + b)[1..] == a[1..] + b;
      TotalAppend(a[1..], b);
    } else {
      assert a + b == b;
    }
  }

  /** The offset advances by the length just consumed, and the consumed part never passes the
      total. */
  lemma OffsetStep(lens: seq<nat>, k: nat)
    requires k < |lens|
    ensures Offset(lens, k + 1) == Offset(lens, k) + lens[k]
    ensures Offset(lens, k) + lens[k] <= Total(lens)
  {
    assert lens[..k + 1] == lens[..k] + [lens[k]];
    TotalAppend(lens[..k], [lens[k]]);
    assert lens == lens[..k + 1] + lens[k + 1..];
    TotalAppend(lens[..k + 1], lens[k + 1..]);
  }

  /** Offsets past the first length, seen from the rest of the list. */
  lemma OffsetTail(lens: seq<nat>, k: nat)
    requires 0 < |lens| && k < |lens|
    ensures Offset(lens, k + 1) == lens[0] + Offset(lens[1..], k)
  {
    assert lens[..k + 1][1..] == lens[1..][..k];
  }

  /** Cuts `p` into consecutive pieces of the given lengths. */
  function Unpack(p: seq<real>, lens: seq<nat>): (r: seq<seq<real>>)
    requires Total(lens) <= |p|
    ensures |r| == |lens|
  {
    if lens == [] then [] else [p[..lens[0]]] + Unpack(p[lens[0]..], lens[1..])
  }

  /** Piece `k` is the slice of `p` that starts at the running offset `Offset(lens, k)` and
      has length `lens[k]`. */
  lemma {:induction false} UnpackOffsets(p: seq<real>, lens: seq<nat>)
    requires Total(lens) <= |p|
    ensures forall k | 0 <= k < |lens| ::
      Offset(lens, k) + lens[k] <= |p| && Unpack(p, lens)[k] == p[Offset(lens, k)..Offset(lens, k) + lens[k]]
  {
    if lens != [] {
      var rest := Unpack(p[lens[0]..], lens[1..]);
      UnpackOffsets(p[lens[0]..], lens[1..]);
      var r := Unpack(p, lens);
      assert r == [p[..lens[0]]] + rest;
      forall k | 0 <= k < |lens|
        ensures Offset(lens, k) + lens[k] <= |p| && r[k] == p[Offset(lens, k)..Offset(lens, k) + lens[k]]
      {
        OffsetStep(lens, k);
        if k > 0 {
          OffsetTail(lens, k - 1);
          assert lens[1..][k - 1] == lens[k];
          assert r[k] == rest[k - 1];
        } else {
          assert lens[..0] == [];
        }
      }
    }
  }

  /** Cutting the vector from offset `i` on: the first piece starts at `i`, the rest are cut
      from after it. */
  lemma UnpackFrom(p: seq<real>, i: nat, lens: seq<nat>)
    requires lens != [] && i + Total(lens) <= |p|
    ensures i + lens[0] <= |p|
    ensures Unpack(p[i..], lens) == [p[i..i + lens[0]]] + Unpack(p[i + lens[0]..], lens[1..])
  {
    assert p[i..][lens[0]..] == p[i + lens[0]..];
    assert p[i..][..lens[0]] == p[i..i + lens[0]];
  }

  /** numpy's slice `p[i:i + n]`, which stops at the end of `p` instead of failing. */
  function Slice(p: seq<real>, i: nat, n: nat): (r: seq<real>)
    ensures i + n <= |p| ==> r == p[i..i + n]
    ensures |r| <= n
    ensures |r| == n <==> i + n <= |p| || n == 0
  {
    if i >= |p| then [] else if i + n <= |p| then p[i..i + n] else p[i..]
  }

  /** The pieces laid end to end again. */
  function Flatten(cs: seq<seq<real>>): (r: seq<real>)
    ensures |r| == Total(Lengths(cs))
  {
    if cs == [] then []
    else
      assert Lengths(cs)[1..] == Lengths(cs[1..]);
      cs[0] + Flatten(cs[1..])
  }

  /** The length of each piece. */
  function Lengths(cs: seq<seq<real>>): (r: seq<nat>)
    ensures |r| == |cs| && forall k | 0 <= k < |cs| :: r[k] == |cs[k]|
  {
    seq(|cs|, k requires 0 <= k < |cs| => |cs[k]|)
  }

  /** Cutting a vector of exactly the total length and laying the pieces end to end gives the
      vector back. */
  lemma {:induction false} FlattenUnpack(p: seq<real>, lens: seq<nat>)
    requires Total(lens) == |p|
    ensures Flatten(Unpack(p, lens)) == p
  {
    if lens != [] {
      var u := Unpack(p, lens);
      var rest := Unpack(p[lens[0]..], lens[1..]);
      assert Offset(lens, 0) == 0 by { assert lens[..0] == []; }
      FlattenUnpack(p[lens[0]..], lens[1..]);
      assert u[1..] == rest;
      assert u[0] == p[..lens[0]];
      assert p == p[..lens[0]] + p[lens[0]..];
    } else {
      assert Unpack(p, lens) == [];
    }
  }

  /** Laying pieces end to end and cutting by their lengths gives the pieces back. */
  lemma {:induction false} UnpackFlatten(cs: seq<seq<real>>)
    ensures Unpack(Flatten(cs), Lengths(cs)) == cs
  {
    var p := Flatten(cs);
    var lens := Lengths(cs);
    var u := Unpack(p, lens);
    if cs != [] {
      assert lens[1..] == Lengths(cs[1..]);
      assert p[..|cs[0]|] == cs[0] && p[|cs[0]|..] == Flatten(cs[1..]);
      UnpackFlatten(cs[1..]);
      assert u == [cs[0]] + Unpack(Flatten(cs[1..]), Lengths(cs[1..]));
    }
  }
}
