/** The per-pixel map of a parameter in hyperspy/component.py: a structured numpy array with
    one record per navigation position holding `values`, `std` and `is_set`. The model lays
    the records out flat, in row-major order, and addresses them through `Flat`. */
module PixelMaps {
  import opened Wrappers

  /** One record of the map; an unknown standard deviation (NaN in the source) is `None`. */
  datatype Cell = Cell(values: seq<real>, std: seq<Option<real>>, isSet: bool)

  /** The record `np.zeros` makes and `create_array` then fills with NaN deviations. */
  function EmptyCell(width: nat): (c: Cell)
    ensures |c.values| == width && |c.std| == width && !c.isSet
    ensures forall i | 0 <= i < width :: c.values[i] == 0.0 && c.std[i].None?
  {
    Cell(seq(width, _ => 0.0), seq(width, _ => None), false)
  }

  /** Number of records of a map of the given shape. */
  function Cells(shape: seq<nat>): nat
  {
    if shape == [] then 1 else shape[0] * Cells(shape[1..])
  }

  /** `create_array` turns the shape `(0,)` of a map without navigation axes into `[1]`. */
  function NormalizeShape(shape: seq<nat>): (r: seq<nat>)
    ensures shape == [0] ==> r == [1]
    ensures shape != [0] ==> r == shape
  {
    if |shape| == 1 && shape[0] == 0 then [1] else shape
  }

  /** The component methods turn the empty index of a single spectrum into `(0,)`. */
  function NormalizeIndex(idx: seq<int>): (r: seq<int>)
    ensures idx == [] ==> r == [0]
    ensures idx != [] ==> r == idx
  {
    if idx == [] then [0] else idx
  }

  /** A full index into the map: one integer per axis, negative ones counting from the end as
      numpy does. */
  predicate InRange(shape: seq<nat>, idx: seq<int>)
  {
    |idx| == |shape| && forall i | 0 <= i < |idx| :: -(shape[i] as int) <= idx[i] < shape[i]
  }

  /** The position along one axis that a possibly negative index names. */
  function Wrap(n: nat, x: int): (r: nat)
    requires -(n as int) <= x < n
    ensures r < n && (r == x || r == x + n)
  {
    if x < 0 then x + n else x
  }

  /** Row-major position of the record at `idx`. */
  function Flat(shape: seq<nat>, idx: seq<int>): (r: nat)
    requires InRange(shape, idx)
    ensures r < Cells(shape)
  {
    if shape == [] then 0
    else
      var rest := Flat(shape[1..], idx[1..]);
      var w := Wrap(shape[0], idx[0]);
      RowMajorBound(w, shape[0], rest, Cells(shape[1..]));
      w * Cells(shape[1..]) + rest
  }

  lemma RowMajorBound(a: nat, n: nat, b: nat, m: nat)
    requires a < n && b < m
    ensures a * m + b < n * m
  {
    calc {
      a * m + b;
    <  a * m + m;
    == (a + 1) * m;
    <= { assert a + 1 <= n; } n * m;
    }
  }

  /** Row-major positions of different rows and columns differ. */
  lemma RowMajorInjective(a: nat, b: nat, c: nat, d: nat, m: nat)
    requires b < m && d < m && a * m + b == c * m + d
    ensures a == c && b == d
  {
    if a < c {
      calc {
        a * m + b;
      <  (a + 1) * m;
      <= { assert a + 1 <= c; } c * m;
      <= c * m + d;
      }
    } else if c < a {
      calc {
        c * m + d;
      <  (c + 1) * m;
      <= { assert c + 1 <= a; } a * m;
      <= a * m + b;
      }
    }
  }

  /** Two indices address the same record only when they name the same position on every axis,
      so writing one record leaves every other index's record alone. */
  lemma {:induction false} FlatInjective(shape: seq<nat>, i: seq<int>, j: seq<int>)
    requires InRange(shape, i) && InRange(shape, j)
    requires Flat(shape, i) == Flat(shape, j)
    ensures forall k | 0 <= k < |shape| :: Wrap(shape[k], i[k]) == Wrap(shape[k], j[k])
  {
    if shape != [] {
      RowMajorInjective(Wrap(shape[0], i[0]), Flat(shape[1..], i[1..]),
                        Wrap(shape[0], j[0]), Flat(shape[1..], j[1..]), Cells(shape[1..]));
      FlatInjective(shape[1..], i[1..], j[1..]);
      forall k | 1 <= k < |shape|
        ensures Wrap(shape[k], i[k]) == Wrap(shape[k], j[k])
      {
        assert shape[1..][k - 1] == shape[k] && i[1..][k - 1] == i[k] && j[1..][k - 1] == j[k];
      }
    }
  }

  /** numpy's assignment of a value into a record field of the given width: a value of that
      width, or a scalar broadcast to it; anything else raises. */
  function Fit<T>(v: seq<T>, width: nat): (r: Option<seq<T>>)
    ensures r.Some? <==> |v| == width || |v| == 1
    ensures r.Some? ==> |r.value| == width
    ensures r.Some? && |v| == width ==> r.value == v
    ensures r.Some? && |v| == 1 ==> forall i | 0 <= i < width :: r.value[i] == v[0]
  {
    if |v| == width then Some(v)
    else if |v| == 1 then Some(seq(width, _ => v[0]))
    else None
  }
}
