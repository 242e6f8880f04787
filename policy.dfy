/** The value policy of the `value` setter of hyperspy/component.py, on the stored value of an
    untwinned parameter: optional absolute value, then clipping to `bmin`/`bmax`, both applied
    only when the parameter is externally bounded. A scalar parameter is a one-element sequence;
    a missing bound is `None`, which the source writes as `None` or as an infinity. */
module Policy {
  import opened Wrappers

  function Abs(x: real): (r: real)
    ensures r >= 0.0 && (r == x || r == -x)
  {
    if x < 0.0 then -x else x
  }

  /** `np.abs` over a value. */
  function AbsAll(v: seq<real>): (r: seq<real>)
    ensures |r| == |v|
  {
    if v == [] then [] else [Abs(v[0])] + AbsAll(v[1..])
  }

  /** `AbsAll` element by element. */
  lemma {:induction false} AbsAllAt(v: seq<real>)
    ensures forall i | 0 <= i < |v| :: AbsAll(v)[i] == Abs(v[i])
  {
    if v != [] {
      AbsAllAt(v[1..]);
      forall i | 1 <= i < |v| ensures AbsAll(v)[i] == Abs(v[i]) {
        assert AbsAll(v)[i] == AbsAll(v[1..])[i - 1];
      }
    }
  }

  /** `np.clip` of one element: the larger of `x` and the lower bound, then the smaller of that
      and the upper bound (so an upper bound below the lower one wins). */
  function ClipOne(x: real, lo: Option<real>, hi: Option<real>): (r: real)
    ensures lo.Some? && (hi.None? || lo.value <= hi.value) ==> lo.value <= r
    ensures hi.Some? ==> r <= hi.value
    ensures (lo.None? || lo.value <= x) && (hi.None? || x <= hi.value) ==> r == x
  {
    var up := if lo.Some? && x < lo.value then lo.value else x;
    if hi.Some? && hi.value < up then hi.value else up
  }

  /** `np.clip` of a whole value. */
  function Clip(v: seq<real>, lo: Option<real>, hi: Option<real>): (r: seq<real>)
    ensures |r| == |v|
  {
    if v == [] then [] else [ClipOne(v[0], lo, hi)] + Clip(v[1..], lo, hi)
  }

  /** `Clip` element by element. */
  lemma {:induction false} ClipAt(v: seq<real>, lo: Option<real>, hi: Option<real>)
    ensures forall i | 0 <= i < |v| :: Clip(v, lo, hi)[i] == ClipOne(v[i], lo, hi)
  {
    if v != [] {
      ClipAt(v[1..], lo, hi);
      forall i | 1 <= i < |v| ensures Clip(v, lo, hi)[i] == ClipOne(v[i], lo, hi) {
        assert Clip(v, lo, hi)[i] == Clip(v[1..], lo, hi)[i - 1];
      }
    }
  }

  /** What the setter stores for the argument `v` (already checked against the number of
      elements). Unbounded: `v` itself, whatever `forcePositive` says. Bounded: the absolute value
      first if `forcePositive`; then, for one element, `bmin` when the value is at or below it,
      else `bmax` when at or above it; for several elements, a clip whose upper bound is dropped
      whenever `bmin` is missing. */
  function Constrain(v: seq<real>, bounded: bool, forcePositive: bool,
                     bmin: Option<real>, bmax: Option<real>): (r: seq<real>)
    ensures |r| == |v|
  {
    if !bounded then v
    else
      var a := if forcePositive then AbsAll(v) else v;
      if |a| == 1 then
        if bmin.Some? && a[0] <= bmin.value then [bmin.value]
        else if bmax.Some? && a[0] >= bmax.value then [bmax.value]
        else a
      else
        Clip(a, bmin, if bmin.Some? then bmax else None)
  }

  /** Both bounds, when both are given, are in order. */
  predicate Ordered(bmin: Option<real>, bmax: Option<real>)
  {
    bmin.Some? && bmax.Some? ==> bmin.value <= bmax.value
  }

  /** Every element lies within the bounds that are given. */
  predicate Within(v: seq<real>, bmin: Option<real>, bmax: Option<real>)
  {
    forall i | 0 <= i < |v| :: (bmin.None? || bmin.value <= v[i]) && (bmax.None? || v[i] <= bmax.value)
  }

  /** Unbounded, the argument is stored as given: force-positive does nothing outside the
      bounded branch. */
  lemma UnboundedStoresArgument(v: seq<real>, forcePositive: bool, bmin: Option<real>, bmax: Option<real>)
    ensures Constrain(v, false, forcePositive, bmin, bmax) == v
  {
  }

  /** Bounded, a one-element value is stored exactly as the source's three branches say. */
  lemma SingleBranches(x: real, forcePositive: bool, bmin: Option<real>, bmax: Option<real>)
    ensures var a := if forcePositive then Abs(x) else x;
      Constrain([x], true, forcePositive, bmin, bmax)
        == if bmin.Some? && a <= bmin.value then [bmin.value]
           else if bmax.Some? && a >= bmax.value then [bmax.value]
           else [a]
  {
    if forcePositive {
      assert AbsAll([x]) == [Abs(x)];
    }
  }

  /** Bounded, whatever the argument, what is stored lies within ordered bounds; for several
      elements only when a lower bound is given, since without it the upper bound is ignored. */
  lemma BoundedStoresWithin(v: seq<real>, forcePositive: bool, bmin: Option<real>, bmax: Option<real>)
    requires Ordered(bmin, bmax)
    requires |v| != 1 ==> bmin.Some?
    ensures Within(Constrain(v, true, forcePositive, bmin, bmax), bmin, bmax)
  {
    var a := if forcePositive then AbsAll(v) else v;
    ClipAt(a, bmin, bmax);
  }

  /** The quirk of the several-element branch: with no lower bound, an upper bound is not
      applied; the argument (after the absolute value, if asked) is stored as is. */
  lemma UpperBoundNeedsLowerBound(v: seq<real>, forcePositive: bool, hi: real)
    requires |v| >= 2
    ensures Constrain(v, true, forcePositive, None, Some(hi)) == if forcePositive then AbsAll(v) else v
  {
    var a := if forcePositive then AbsAll(v) else v;
    assert Clip(a, None, None) == a;
  }

  /** A concrete instance of that quirk: an element above the upper bound is kept. */
  lemma UpperBoundIgnoredExample()
    ensures Constrain([5.0, 1.0], true, false, None, Some(2.0)) == [5.0, 1.0]
  {
    UpperBoundNeedsLowerBound([5.0, 1.0], false, 2.0);
  }

  /** Bounded with force-positive and non-negative bounds, nothing negative is stored. */
  lemma ForcePositiveStoresNonNegative(v: seq<real>, bmin: Option<real>, bmax: Option<real>)
    requires bmin.Some? ==> bmin.value >= 0.0
    requires bmax.Some? ==> bmax.value >= 0.0
    ensures forall i | 0 <= i < |v| :: Constrain(v, true, true, bmin, bmax)[i] >= 0.0
  {
    AbsAllAt(v);
    ClipAt(AbsAll(v), bmin, if bmin.Some? then bmax else None);
  }

  /** A value that already conforms (within the bounds, and non-negative when force-positive is
      on) is stored unchanged. */
  lemma ConformingIsKept(v: seq<real>, bounded: bool, forcePositive: bool, bmin: Option<real>, bmax: Option<real>)
    requires Within(v, bmin, bmax)
    requires forcePositive ==> forall i | 0 <= i < |v| :: v[i] >= 0.0
    ensures Constrain(v, bounded, forcePositive, bmin, bmax) == v
  {
    if bounded {
      AbsAllAt(v);
      var a := if forcePositive then AbsAll(v) else v;
      assert a == v;
      ClipAt(v, bmin, if bmin.Some? then bmax else None);
    }
  }

  /** Re-applying the policy to what it stored stores the same value again (this is what the
      bound and flag setters do by assigning the value to itself). One element needs ordered
      bounds; several elements never do. */
  lemma Idempotent(v: seq<real>, bounded: bool, forcePositive: bool, bmin: Option<real>, bmax: Option<real>)
    requires |v| == 1 ==> Ordered(bmin, bmax)
    ensures var r := Constrain(v, bounded, forcePositive, bmin, bmax);
      Constrain(r, bounded, forcePositive, bmin, bmax) == r
  {
    var r := Constrain(v, bounded, forcePositive, bmin, bmax);
    if bounded {
      var a := if forcePositive then AbsAll(r) else r;
      if |v| == 1 {
        SingleBranches(v[0], forcePositive, bmin, bmax);
        SingleBranches(r[0], forcePositive, bmin, bmax);
        assert v == [v[0]] && r == [r[0]];
      } else {
        var hi := if bmin.Some? then bmax else None;
        var a0 := if forcePositive then AbsAll(v) else v;
        AbsAllAt(v);
        AbsAllAt(r);
        ClipAt(a0, bmin, hi);
        ClipAt(a, bmin, hi);
        forall i | 0 <= i < |r|
          ensures Clip(a, bmin, hi)[i] == r[i]
        {
          if forcePositive {
            assert a[i] == Abs(r[i]);
          }
        }
      }
    }
  }

  /** The single-element case needs ordered bounds: with `bmin` above `bmax`, a value above
      both is first stored as `bmax` and then, on re-application, moved to `bmin`. */
  lemma SingleNotIdempotentWhenBoundsCross()
    ensures Constrain([7.0], true, false, Some(5.0), Some(1.0)) == [1.0]
    ensures Constrain([1.0], true, false, Some(5.0), Some(1.0)) == [5.0]
  {
  }
}
