/** The histogram segmenter of hyperspy/_samfire_utils/_segmenters/histogram.py: it bins the
    values every parameter took over the map, then reports, per parameter, the centre of each
    bin that is a strict local maximum of the counts. The binning itself (`np.histogram`, and
    the astroML `histogram` that applies a bin-width rule) is supplied as a function. */
module Histograms {
  import opened Wrappers

  /** `(hist, bin_edges)` as a histogram routine returns it: one count per bin and the edges
      of the bins, one more than the counts. */
  datatype Histogram = Histogram(counts: seq<nat>, edges: seq<real>)

  type Hist = h: Histogram | |h.edges| == |h.counts| + 1 witness Histogram([], [0.0])

  /** How many bins to use: a fixed number, or a named bin-width rule such as `'freedman'`. */
  datatype Bins = Count(n: nat) | Rule(name: string)

  /** A histogram routine applied to an ensemble of values with a bin setting. */
  type Binner = (seq<real>, Bins) -> Hist

  /** `np.append(0, hist)`: the counts behind a zero sentinel. */
  function Padded(counts: seq<nat>): (r: seq<nat>)
    ensures |r| == |counts| + 1 && r[0] == 0
  {
    [0] + counts
  }

  /** `argrelextrema(a, np.greater, mode='wrap')` at position `m`: strictly greater than both
      neighbours, positions being taken modulo the length, so that the neighbour before the
      first position is the last one and the neighbour after the last is the first. */
  predicate RelMax(a: seq<nat>, m: nat)
    requires m < |a|
  {
    a[m] > a[if m == 0 then |a| - 1 else m - 1] && a[m] > a[if m + 1 == |a| then 0 else m + 1]
  }

  /** The positions from `m` on that `argrelextrema` reports, in ascending order. */
  function RelMaxFrom(a: seq<nat>, m: nat): (r: seq<nat>)
    decreases |a| - m
  {
    if m >= |a| then []
    else (if RelMax(a, m) then [m] else []) + RelMaxFrom(a, m + 1)
  }

  /** `0.5 * (bin_edges[m] + bin_edges[m - 1])` for each reported position `m`, where
      `bin_edges[-1]` is the last edge, as Python indexing has it. */
  function Centres(edges: seq<real>, ms: seq<nat>): (r: seq<real>)
    requires forall k | 0 <= k < |ms| :: ms[k] < |edges|
    ensures |r| == |ms|
  {
    if ms == [] then []
    else [0.5 * (edges[ms[0]] + edges[if ms[0] == 0 then |edges| - 1 else ms[0] - 1])] + Centres(edges, ms[1..])
  }

  /** Every position `RelMaxFrom` reports lies between `m` and the end, in strictly
      ascending order. */
  lemma {:induction false} RelMaxFromRange(a: seq<nat>, m: nat)
    ensures forall k | 0 <= k < |RelMaxFrom(a, m)| :: m <= RelMaxFrom(a, m)[k] < |a|
    ensures forall k, l | 0 <= k < l < |RelMaxFrom(a, m)| :: RelMaxFrom(a, m)[k] < RelMaxFrom(a, m)[l]
    decreases |a| - m
  {
    if m < |a| {
      RelMaxFromRange(a, m + 1);
    }
  }

  /** `most_frequent` for one histogram: the values it reports for one parameter. */
  function Modes(h: Hist): (r: seq<real>)
  {
    var ms := RelMaxFrom(Padded(h.counts), 0);
    RelMaxFromRange(Padded(h.counts), 0);
    Centres(h.edges, ms)
  }

  // A reference definition of the modes, stated on the counts themselves.

  /** The count beside bin `j` on the left, and on the right; beyond either end it is 0. */
  function LeftOf(counts: seq<nat>, j: nat): nat
    requires j < |counts|
  {
    if j == 0 then 0 else counts[j - 1]
  }

  function RightOf(counts: seq<nat>, j: nat): nat
    requires j < |counts|
  {
    if j + 1 == |counts| then 0 else counts[j + 1]
  }

  /** Bin `j` is a peak: its count is strictly above both neighbours. */
  predicate PeakBin(counts: seq<nat>, j: nat)
    requires j < |counts|
  {
    counts[j] > LeftOf(counts, j) && counts[j] > RightOf(counts, j)
  }

  /** The peak bins from `j` on, in ascending order. */
  function PeaksFrom(counts: seq<nat>, j: nat): (r: seq<nat>)
    decreases |counts| - j
  {
    if j >= |counts| then []
    else (if PeakBin(counts, j) then [j] else []) + PeaksFrom(counts, j + 1)
  }

  function Peaks(counts: seq<nat>): seq<nat>
  {
    PeaksFrom(counts, 0)
  }

  /** The centre of bin `j`. */
  function BinCentre(edges: seq<real>, j: nat): real
    requires j + 1 < |edges|
  {
    0.5 * (edges[j] + edges[j + 1])
  }

  /** Each position shifted by one: bin `j` sits at position `j + 1` behind the sentinel. */
  function Shifted(ps: seq<nat>): (r: seq<nat>)
    ensures |r| == |ps|
  {
    if ps == [] then [] else [ps[0] + 1] + Shifted(ps[1..])
  }

  /** Behind the sentinel, position `j + 1` is a relative maximum exactly when bin `j` is a
      peak; and the sentinel itself never is one, since counts are not negative. */
  lemma PaddedRelMax(counts: seq<nat>, j: nat)
    requires j < |counts|
    ensures RelMax(Padded(counts), j + 1) <==> PeakBin(counts, j)
    ensures !RelMax(Padded(counts), 0)
  {
    var a := Padded(counts);
    assert a[j + 1] == counts[j] && a[j] == LeftOf(counts, j);
    if j + 1 < |counts| {
      assert a[j + 2] == counts[j + 1];
    }
  }

  /** Behind the sentinel, the maxima from position `j + 1` on are the peak bins from `j` on,
      each shifted by one. */
  lemma {:induction false} RelMaxIsShiftedPeaks(counts: seq<nat>, j: nat)
    requires j <= |counts|
    ensures RelMaxFrom(Padded(counts), j + 1) == Shifted(PeaksFrom(counts, j))
    decreases |counts| - j
  {
    if j < |counts| {
      RelMaxIsShiftedPeaks(counts, j + 1);
      PaddedRelMax(counts, j);
      var rest := PeaksFrom(counts, j + 1);
      if PeakBin(counts, j) {
        assert Shifted([j] + rest) == [j + 1] + Shifted(rest) by {
          assert ([j] + rest)[1..] == rest;
        }
      } else {
        assert [] + rest == rest;
      }
    }
  }

  lemma {:induction false} ShiftedAt(ps: seq<nat>)
    ensures forall k | 0 <= k < |ps| :: Shifted(ps)[k] == ps[k] + 1
  {
    if ps != [] {
      ShiftedAt(ps[1..]);
    }
  }

  /** Centres read behind the sentinel are the centres of the bins themselves. */
  lemma {:induction false} CentresOfShifted(edges: seq<real>, ps: seq<nat>)
    requires forall k | 0 <= k < |ps| :: ps[k] + 1 < |edges|
    ensures forall k | 0 <= k < |ps| :: Shifted(ps)[k] < |edges|
    ensures Centres(edges, Shifted(ps)) == seq(|ps|, k requires 0 <= k < |ps| => BinCentre(edges, ps[k]))
  {
    ShiftedAt(ps);
    if ps != [] {
      CentresOfShifted(edges, ps[1..]);
      assert Shifted(ps)[1..] == Shifted(ps[1..]);
    }
  }

  /** The peak bins from `j` on are exactly the bins from `j` on that are peaks, in strictly
      ascending order. */
  lemma {:induction false} PeaksFromMeaning(counts: seq<nat>, j: nat)
    ensures forall i: nat :: i in PeaksFrom(counts, j) <==> j <= i < |counts| && PeakBin(counts, i)
    ensures forall k, l | 0 <= k < l < |PeaksFrom(counts, j)| :: PeaksFrom(counts, j)[k] < PeaksFrom(counts, j)[l]
    ensures forall k | 0 <= k < |PeaksFrom(counts, j)| :: j <= PeaksFrom(counts, j)[k] < |counts|
    decreases |counts| - j
  {
    if j < |counts| {
      PeaksFromMeaning(counts, j + 1);
    }
  }

  /** What `most_frequent` reports for one histogram: one value per peak bin, in ascending
      bin order, each the centre of its bin; and a bin is reported exactly when its count is
      strictly above both neighbours, counting 0 beyond either end. */
  lemma ModesMeaning(h: Hist)
    ensures forall j: nat :: j in Peaks(h.counts) <==> j < |h.counts| && PeakBin(h.counts, j)
    ensures forall k, l | 0 <= k < l < |Peaks(h.counts)| :: Peaks(h.counts)[k] < Peaks(h.counts)[l]
    ensures |Modes(h)| == |Peaks(h.counts)|
    ensures forall k | 0 <= k < |Peaks(h.counts)| ::
      Peaks(h.counts)[k] < |h.counts| && Modes(h)[k] == BinCentre(h.edges, Peaks(h.counts)[k])
  {
    var a := Padded(h.counts);
    if h.counts == [] {
      assert !RelMax(a, 0);
      assert RelMaxFrom(a, 0) == [];
    } else {
      PaddedRelMax(h.counts, 0);
      assert RelMaxFrom(a, 0) == RelMaxFrom(a, 1);
    }
    RelMaxIsShiftedPeaks(h.counts, 0);
    PeaksFromMeaning(h.counts, 0);
    CentresOfShifted(h.edges, Peaks(h.counts));
  }

  /** No two neighbouring bins are both peaks: the comparison is strict. */
  lemma NoAdjacentPeaks(counts: seq<nat>, j: nat)
    requires j + 1 < |counts|
    ensures !(PeakBin(counts, j) && PeakBin(counts, j + 1))
  {
  }

  /** Counts that are all equal, over at least two bins, have no peak, so nothing is
      reported. */
  lemma FlatHasNoModes(h: Hist)
    requires |h.counts| >= 2 && forall j | 0 <= j < |h.counts| :: h.counts[j] == h.counts[0]
    ensures Modes(h) == []
  {
    forall j: nat | j < |h.counts|
      ensures !PeakBin(h.counts, j)
    {
      if j == 0 {
        assert RightOf(h.counts, 0) == h.counts[1];
      } else {
        assert LeftOf(h.counts, j) == h.counts[j - 1];
      }
    }
    NoPeakBins(h.counts, 0);
    ModesMeaning(h);
  }

  /** Where no bin from `j` on is a peak, none is reported. */
  lemma {:induction false} NoPeakBins(counts: seq<nat>, j: nat)
    requires forall i: nat | j <= i < |counts| :: !PeakBin(counts, i)
    ensures PeaksFrom(counts, j) == []
    decreases |counts| - j
  {
    if j < |counts| {
      NoPeakBins(counts, j + 1);
    }
  }

  /** Over ascending edges, the value reported for a bin lies inside it. */
  lemma CentreInBin(edges: seq<real>, j: nat)
    requires j + 1 < |edges| && edges[j] <= edges[j + 1]
    ensures edges[j] <= BinCentre(edges, j) <= edges[j + 1]
  {
  }

  /** `most_frequent` over a whole database: for each component and each of its
      parameters, the modes of its histogram. */
  function Frequent(db: map<string, map<string, Hist>>): (r: map<string, map<string, seq<real>>>)
    ensures r.Keys == db.Keys
    ensures forall c | c in r :: r[c].Keys == db[c].Keys
    ensures forall c, p | c in r && p in r[c] :: r[c][p] == Modes(db[c][p])
  {
    map c | c in db :: map p | p in db[c] :: Modes(db[c][p])
  }

  /** A map filled key by key: once `k` is taken from the keys still to do and entered, the
      keys present are again those of `all` not left to do. */
  lemma FilledStep<K, V>(m: map<K, V>, todo: set<K>, all: set<K>, k: K, v: V)
    requires k in todo && todo <= all && m.Keys == all - todo
    ensures m[k := v].Keys == all - (todo - {k})
  {
  }

  /** `Histogram_segmenter`: the binned values of the last `update`, if any, and the bin
      setting used for ensembles larger than `minPoints`. */
  class HistogramSegmenter {
    var database: Option<map<string, map<string, Hist>>>
    var bins: Bins
    /** `_min_points`: ensembles of at most this many values get a fixed number of bins. */
    const minPoints: nat := 4

    /** A segmenter with no database yet; `'freedman'` is the source's default setting. */
    constructor (bins: Bins)
      ensures database == None && this.bins == bins
    {
      database := None;
      this.bins := bins;
    }

    /** The bin setting for an ensemble: `max(10, minPoints)` bins for one of at most
        `minPoints` values, which makes exactly 10, and the configured setting for a larger
        one. */
    function BinsFor(v: seq<real>): (r: Bins)
      reads this`bins
      ensures |v| <= 4 ==> r == Count(10)
      ensures |v| > 4 ==> r == bins
    {
      if |v| <= minPoints then Count(if 10 < minPoints then minPoints else 10) else bins
    }

    /** The histograms of one component's parameters. */
    function BinnedComponent(comp: map<string, seq<real>>, binner: Binner): (r: map<string, Hist>)
      reads this`bins
      ensures r.Keys == comp.Keys
    {
      map p | p in comp :: binner(comp[p], BinsFor(comp[p]))
    }

    /** The database `update` builds from the values of every parameter of every component. */
    function Binned(values: map<string, map<string, seq<real>>>, binner: Binner): (r: map<string, map<string, Hist>>)
      reads this`bins
      ensures r.Keys == values.Keys
      ensures forall c | c in r :: r[c].Keys == values[c].Keys
    {
      map c | c in values :: BinnedComponent(values[c], binner)
    }

    /** `most_frequent`: the modes of every histogram of the database; without a database
        (before any `update`) the source fails reading it. */
    function MostFrequent(): (r: Option<map<string, map<string, seq<real>>>>)
      reads this`database
      ensures r.Some? <==> database.Some?
      ensures r.Some? ==> r.value.Keys == database.value.Keys
      ensures r.Some? ==> forall c | c in r.value :: r.value[c].Keys == database.value[c].Keys
      ensures r.Some? ==> forall c, p | c in r.value && p in r.value[c] :: r.value[c][p] == Modes(database.value[c][p])
    {
      if database.None? then None else Some(Frequent(database.value))
    }

    /** The inner loop of `update`: bins every parameter of one component. */
    method BinComponent(comp: map<string, seq<real>>, binner: Binner) returns (c: map<string, Hist>)
      ensures c == BinnedComponent(comp, binner)
    {
      c := map[];
      var todo := comp.Keys;
      while todo != {}
        invariant todo <= comp.Keys
        invariant c.Keys == comp.Keys - todo
        invariant forall p | p in c :: c[p] == binner(comp[p], BinsFor(comp[p]))
        decreases todo
      {
        var p :| p in todo;
        FilledStep(c, todo, comp.Keys, p, binner(comp[p], BinsFor(comp[p])));
        var par := comp[p];
        if |par| <= minPoints {
          c := c[p := binner(par, Count(if 10 < minPoints then minPoints else 10))];
        } else {
          c := c[p := binner(par, bins)];
        }
        todo := todo - {p};
      }
    }

    /** `update`: replaces the database by the histograms of the values given, one per
        parameter of each component; nothing of the previous database survives. */
    method Update(values: map<string, map<string, seq<real>>>, binner: Binner)
      modifies this`database
      ensures database == Some(Binned(values, binner))
    {
      database := Some(map[]);
      var db: map<string, map<string, Hist>> := map[];
      var todo := values.Keys;
      while todo != {}
        invariant db.Keys == values.Keys - todo
        invariant forall c | c in db :: db[c] == BinnedComponent(values[c], binner)
        decreases todo
      {
        var name :| name in todo;
        var c := BinComponent(values[name], binner);
        FilledStep(db, todo, values.Keys, name, c);
        db := db[name := c];
        todo := todo - {name};
      }
      assert db == Binned(values, binner);
      database := Some(db);
    }
  }
}
