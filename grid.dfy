/** The m-by-n lattice of neurons: the row-major enumeration of their grid
    locations, and the regrouping of per-neuron values into rows. */
module Grid {

  /** A neuron's place on the map. */
  datatype Loc = Loc(row: int, col: int)

  /** The locations of row `i`, columns `0 .. n - 1`, in column order. */
  function RowLocations(i: nat, n: nat): (r: seq<Loc>)
    ensures |r| == n
  {
    if n == 0 then [] else RowLocations(i, n - 1) + [Loc(i, n - 1)]
  }

  /** Every neuron location, rows outer and columns inner, as the nested
      enumeration of the source yields them. */
  function NeuronLocations(m: nat, n: nat): (r: seq<Loc>)
    ensures |r| == m * n
  {
    if m == 0 then [] else NeuronLocations(m - 1, n) + RowLocations(m - 1, n)
  }

  lemma {:induction false} RowLocationsAt(i: nat, n: nat, j: nat)
    requires j < n
    ensures RowLocations(i, n)[j] == Loc(i, j)
  {
    if j < n - 1 {
      RowLocationsAt(i, n - 1, j);
    }
  }

  lemma MulMono(a: nat, b: nat, n: nat)
    requires a <= b
    ensures a * n <= b * n
  {
  }

  lemma MulSucc(a: nat, n: nat)
    ensures (a + 1) * n == a * n + n
  {
  }

  lemma PositiveSides(m: nat, n: nat)
    requires m * n > 0
    ensures m > 0 && n > 0
  {
  }

  lemma DivBelow(k: nat, m: nat, n: nat)
    requires k < m * n
    ensures n > 0 && k / n < m
  {
    PositiveSides(m, n);
    var q := k / n;
    if q >= m {
      MulMono(m, q, n);
    }
  }

  /** Euclidean division by a positive divisor recovers quotient and remainder. */
  lemma DivModOf(q: nat, j: nat, n: nat)
    requires j < n
    ensures (q * n + j) / n == q && (q * n + j) % n == j
  {
    var k := q * n + j;
    var q', j' := k / n, k % n;
    assert q' * n + j' == k;
    if q' < q {
      MulMono(q' + 1, q, n);
      MulSucc(q', n);
    } else if q' > q {
      MulMono(q + 1, q', n);
      MulSucc(q, n);
    }
  }

  /** Neuron `k` sits at row `k / n`, column `k % n`. */
  lemma {:induction false} NeuronLocationsAt(m: nat, n: nat, k: nat)
    requires k < m * n
    ensures NeuronLocations(m, n)[k] == Loc(k / n, k % n)
  {
    var prefix := NeuronLocations(m - 1, n);
    if k < (m - 1) * n {
      NeuronLocationsAt(m - 1, n, k);
    } else {
      var j := k - (m - 1) * n;
      RowLocationsAt(m - 1, n, j);
      DivModOf(m - 1, j, n);
    }
  }

  /** Every location lies on the m-by-n grid. */
  lemma NeuronLocationsInGrid(m: nat, n: nat, k: nat)
    requires k < m * n
    ensures 0 <= NeuronLocations(m, n)[k].row < m
    ensures 0 <= NeuronLocations(m, n)[k].col < n
  {
    PositiveSides(m, n);
    NeuronLocationsAt(m, n, k);
    DivBelow(k, m, n);
  }

  /** The cell in row `r`, column `c` is neuron `r * n + c`: every cell of the
      grid is enumerated. */
  lemma NeuronLocationsCover(m: nat, n: nat, r: nat, c: nat)
    requires r < m && c < n
    ensures r * n + c < m * n
    ensures NeuronLocations(m, n)[r * n + c] == Loc(r, c)
  {
    MulSucc(r, n);
    MulMono(r + 1, m, n);
    NeuronLocationsAt(m, n, r * n + c);
    DivModOf(r, c, n);
  }

  /** No two neurons share a location. */
  lemma NeuronLocationsDistinct(m: nat, n: nat, k1: nat, k2: nat)
    requires k1 < m * n && k2 < m * n
    requires NeuronLocations(m, n)[k1] == NeuronLocations(m, n)[k2]
    ensures k1 == k2
  {
    PositiveSides(m, n);
    NeuronLocationsAt(m, n, k1);
    NeuronLocationsAt(m, n, k2);
    DivModDetermines(k1, k2, n);
  }

  /** A natural number is determined by its quotient and remainder. */
  lemma DivModDetermines(k1: nat, k2: nat, n: nat)
    requires n > 0 && k1 / n == k2 / n && k1 % n == k2 % n
    ensures k1 == k2
  {
    assert k1 == (k1 / n) * n + k1 % n;
    assert k2 == (k2 / n) * n + k2 % n;
  }

  /** The values, in index order, of those entries whose location lies in row
      `r`: what the source appends to grid row `r` while it scans the
      neurons. */
  function RowMembers<T>(r: int, locs: seq<Loc>, vals: seq<T>): (g: seq<T>)
    requires |locs| == |vals|
    ensures |g| <= |locs|
  {
    if |locs| == 0 then []
    else
      var last := |locs| - 1;
      RowMembers(r, locs[..last], vals[..last]) + (if locs[last].row == r then [vals[last]] else [])
  }

  /** Scanning one more entry appends its value to its own row only. */
  lemma RowMembersExtend<T>(r: int, locs: seq<Loc>, vals: seq<T>, k: nat)
    requires |locs| == |vals| && k < |locs|
    ensures RowMembers(r, locs[..k + 1], vals[..k + 1])
         == RowMembers(r, locs[..k], vals[..k]) + (if locs[k].row == r then [vals[k]] else [])
  {
    assert locs[..k + 1][..k] == locs[..k] && vals[..k + 1][..k] == vals[..k];
  }

  /** The centroid grid: `m` rows, row `r` holding the row members of `r`. */
  function CentroidGrid<T>(m: nat, locs: seq<Loc>, vals: seq<T>): (g: seq<seq<T>>)
    requires |locs| == |vals|
    ensures |g| == m
  {
    seq(m, r => RowMembers(r, locs, vals))
  }

  /** When the entries located in row `r` are exactly those at indices
      `lo .. hi - 1`, the row members of `r` are that slice of the values. */
  lemma {:induction false} RowMembersOfInterval<T>(r: int, locs: seq<Loc>, vals: seq<T>, lo: nat, hi: nat)
    requires |locs| == |vals| && lo <= hi <= |locs|
    requires forall k :: 0 <= k < |locs| ==> (locs[k].row == r <==> lo <= k < hi)
    ensures RowMembers(r, locs, vals) == vals[lo..hi]
    decreases |locs|
  {
    if |locs| > 0 {
      var last := |locs| - 1;
      var locs', vals' := locs[..last], vals[..last];
      if lo <= last < hi {
        RowMembersOfInterval(r, locs', vals', lo, last);
        assert vals'[lo..last] + [vals[last]] == vals[lo..hi];
      } else if hi <= last {
        RowMembersOfInterval(r, locs', vals', lo, hi);
        assert vals'[lo..hi] == vals[lo..hi];
      } else {
        RowMembersOfInterval(r, locs', vals', last, last);
      }
    }
  }

  /** Index `k` falls in row `r` of an n-column lattice exactly when it lies
      between `r * n` and `r * n + n`. */
  lemma RowOfIndex(k: nat, r: nat, n: nat)
    requires n > 0
    ensures r * n + n == (r + 1) * n
    ensures k / n == r <==> r * n <= k < r * n + n
  {
    MulSucc(r, n);
    if r * n <= k < r * n + n {
      DivModOf(r, k - r * n, n);
    }
    var q := k / n;
    assert q * n + k % n == k;
    if q == r {
      assert r * n <= k < r * n + n;
    }
  }

  /** Regrouping the row-major neuron values of an m-by-n map gives `m` rows
      of `n` values each; row `r` holds the values of neurons `r * n` to
      `r * n + n - 1` in column order. */
  lemma CentroidGridRows<T>(m: nat, n: nat, vals: seq<T>, r: nat)
    requires |vals| == m * n
    requires r < m
    ensures r * n + n <= m * n
    ensures CentroidGrid(m, NeuronLocations(m, n), vals)[r] == vals[r * n .. r * n + n]
  {
    var locs := NeuronLocations(m, n);
    assert CentroidGrid(m, locs, vals)[r] == RowMembers(r, locs, vals);
    RowMembersOfLatticeRow(m, n, vals, r);
  }

  /** On the lattice, the row members of a row `r` of the map are the `n`
      values of that row. */
  lemma RowMembersOfLatticeRow<T>(m: nat, n: nat, vals: seq<T>, r: nat)
    requires |vals| == m * n && r < m
    ensures r * n + n <= m * n
    ensures RowMembers(r, NeuronLocations(m, n), vals) == vals[r * n .. r * n + n]
  {
    var locs := NeuronLocations(m, n);
    RowEnd(m, n, r);
    forall k | 0 <= k < |locs|
      ensures locs[k].row == r <==> r * n <= k < r * n + n
    {
      NeuronLocationsAt(m, n, k);
      PositiveSides(m, n);
      RowOfIndex(k, r, n);
    }
    RowMembersOfInterval(r, locs, vals, r * n, r * n + n);
  }

  /** On the lattice, no value belongs to a row outside the map. */
  lemma RowMembersOffLattice<T>(m: nat, n: nat, vals: seq<T>, r: int)
    requires |vals| == m * n && !(0 <= r < m)
    ensures RowMembers(r, NeuronLocations(m, n), vals) == []
  {
    var locs := NeuronLocations(m, n);
    forall k | 0 <= k < |locs|
      ensures locs[k].row != r
    {
      NeuronLocationsInGrid(m, n, k);
    }
    RowMembersOfInterval(r, locs, vals, 0, 0);
  }

  /** Row `r` of an m-by-n lattice ends within the lattice. */
  lemma RowEnd(m: nat, n: nat, r: nat)
    requires r < m
    ensures r * n + n <= m * n
  {
    MulSucc(r, n);
    MulMono(r + 1, m, n);
  }
}
