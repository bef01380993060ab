/** The self-organizing map: best-matching-unit search, the per-step update of
    every neuron, the training pass, and the map itself as an object whose
    weights, trained flag and centroid grid change in place. */
module Som {
  import opened Vectors
  import opened Grid
  import opened Schedule

  datatype Error = NotTrained
  datatype Result<T> = Success(value: T) | Failure(error: Error)

  /** The neighbourhood factor for a squared grid distance from the BMU and a
      radius (the source uses the Gaussian `exp(-d2 / sigma^2)`). */
  type Kernel = (int, real) -> real

  /** Every vector of `ws` has `dim` components. */
  predicate SameDim(ws: seq<Vec>, dim: nat)
  {
    forall k :: 0 <= k < |ws| ==> |ws[k]| == dim
  }

  /** `k` is the first index whose vector is at minimal distance from `x`. */
  predicate IsFirstNearest(ws: seq<Vec>, x: Vec, k: nat)
    requires SameDim(ws, |x|)
  {
    k < |ws|
    && (forall j :: 0 <= j < |ws| ==> SqDist(x, ws[k]) <= SqDist(x, ws[j]))
    && (forall j :: 0 <= j < k ==> SqDist(x, ws[k]) < SqDist(x, ws[j]))
  }

  /** The best matching unit: a left-to-right scan that replaces its candidate
      only on a strictly smaller distance, as Python's `min` does. */
  function Nearest(ws: seq<Vec>, x: Vec): (k: nat)
    requires |ws| > 0 && SameDim(ws, |x|)
    ensures IsFirstNearest(ws, x, k)
  {
    if |ws| == 1 then 0
    else
      var last := |ws| - 1;
      var best := Nearest(ws[..last], x);
      if SqDist(x, ws[last]) < SqDist(x, ws[best]) then last else best
  }

  /** A neuron that equals the input, when no other neuron does, is the BMU. */
  lemma ExactMatchIsNearest(ws: seq<Vec>, x: Vec, j: nat)
    requires SameDim(ws, |x|)
    requires j < |ws| && ws[j] == x
    requires forall i :: 0 <= i < |ws| && i != j ==> ws[i] != x
    ensures Nearest(ws, x) == j
  {
    var k := Nearest(ws, x);
    SqDistZeroIff(x, ws[j]);
    SqDistZeroIff(x, ws[k]);
    SqDistSymmetric(x, ws[k]);
  }

  /** Squared distance between two grid cells: never negative, and zero
      exactly at the same cell. */
  function GridSqDist(a: Loc, b: Loc): (d: int)
    ensures d >= 0
    ensures d == 0 <==> a == b
  {
    (a.row - b.row) * (a.row - b.row) + (a.col - b.col) * (a.col - b.col)
  }

  /** Per-neuron learning rates for one step: the step's learning rate scaled
      by the neighbourhood factor of the neuron's grid distance from the BMU. */
  function Rates(locs: seq<Loc>, bmu: Loc, alphaT: real, sigmaT: real, kernel: Kernel): (rates: seq<real>)
    ensures |rates| == |locs|
  {
    seq(|locs|, k requires 0 <= k < |locs| => alphaT * kernel(GridSqDist(locs[k], bmu), sigmaT))
  }

  /** The update of one step: every neuron is pulled towards the input by its
      own rate, each computed from the weights before the step. */
  function Step(ws: seq<Vec>, x: Vec, rates: seq<real>): (ws': seq<Vec>)
    requires |rates| == |ws| && SameDim(ws, |x|)
    ensures |ws'| == |ws| && SameDim(ws', |x|)
  {
    seq(|ws|, k requires 0 <= k < |ws| => Pull(ws[k], x, rates[k]))
  }

  /** A neuron's new vector depends only on its own old vector, the input and
      its own rate, never on another neuron's value in the same step. */
  lemma StepIsPointwise(ws1: seq<Vec>, ws2: seq<Vec>, x: Vec, rates1: seq<real>, rates2: seq<real>, k: nat)
    requires |rates1| == |ws1| && SameDim(ws1, |x|)
    requires |rates2| == |ws2| && SameDim(ws2, |x|)
    requires k < |ws1| && k < |ws2|
    requires ws1[k] == ws2[k] && rates1[k] == rates2[k]
    ensures Step(ws1, x, rates1)[k] == Step(ws2, x, rates2)[k]
  {
  }

  /** A neuron whose rate is zero keeps its vector. */
  lemma StepZeroRate(ws: seq<Vec>, x: Vec, rates: seq<real>, k: nat)
    requires |rates| == |ws| && SameDim(ws, |x|)
    requires k < |ws| && rates[k] == 0.0
    ensures Step(ws, x, rates)[k] == ws[k]
  {
    PullZero(ws[k], x);
  }

  /** One update for the input `x` with learning rate `alphaT` and radius
      `sigmaT`: find the BMU in the current weights, then pull every neuron
      with the rates centred on the BMU's location. */
  function Update(locs: seq<Loc>, kernel: Kernel, ws: seq<Vec>, x: Vec, alphaT: real, sigmaT: real): (ws': seq<Vec>)
    requires |ws| == |locs| > 0 && SameDim(ws, |x|)
    ensures |ws'| == |ws| && SameDim(ws', |x|)
  {
    var bmu := Nearest(ws, x);
    Step(ws, x, Rates(locs, locs[bmu], alphaT, sigmaT, kernel))
  }

  /** With a kernel worth 1 at distance 0 (as the Gaussian is) and a learning
      rate strictly between 0 and 1, an update moves the BMU strictly closer to
      the input unless it already equals it. */
  lemma UpdatePullsBmu(locs: seq<Loc>, kernel: Kernel, ws: seq<Vec>, x: Vec, alphaT: real, sigmaT: real)
    requires |ws| == |locs| > 0 && SameDim(ws, |x|)
    requires kernel(0, sigmaT) == 1.0
    requires 0.0 < alphaT < 1.0
    requires ws[Nearest(ws, x)] != x
    ensures SqDist(x, Update(locs, kernel, ws, x, alphaT, sigmaT)[Nearest(ws, x)]) < SqDist(x, ws[Nearest(ws, x)])
  {
    var bmu := Nearest(ws, x);
    var rates := Rates(locs, locs[bmu], alphaT, sigmaT, kernel);
    assert GridSqDist(locs[bmu], locs[bmu]) == 0;
    assert rates[bmu] == alphaT;
    PullApproaches(ws[bmu], x, alphaT);
  }

  /** The training step at iteration `t`: an update with the decayed learning
      rate and radius of that iteration. */
  function TrainStep(locs: seq<Loc>, h: Hyper, kernel: Kernel, ws: seq<Vec>, x: Vec, t: nat): (ws': seq<Vec>)
    requires h.nIterations > 0
    requires |ws| == |locs| > 0 && SameDim(ws, |x|)
    ensures |ws'| == |ws| && SameDim(ws', |x|)
  {
    Update(locs, kernel, ws, x, AlphaAt(h, t), SigmaAt(h, t))
  }

  /** For an initial learning rate in (0, 1] and an iteration number strictly
      between 0 and the configured count, a training step moves the BMU
      strictly closer to the input unless it already equals it. */
  lemma TrainStepPullsBmu(locs: seq<Loc>, h: Hyper, kernel: Kernel, ws: seq<Vec>, x: Vec, t: nat)
    requires h.nIterations > 0 && 0.0 < h.alpha <= 1.0
    requires 0 < t < h.nIterations
    requires |ws| == |locs| > 0 && SameDim(ws, |x|)
    requires kernel(0, SigmaAt(h, t)) == 1.0
    requires ws[Nearest(ws, x)] != x
    ensures SqDist(x, TrainStep(locs, h, kernel, ws, x, t)[Nearest(ws, x)]) < SqDist(x, ws[Nearest(ws, x)])
  {
    AlphaAtBetween(h, t);
    UpdatePullsBmu(locs, kernel, ws, x, AlphaAt(h, t), SigmaAt(h, t));
  }

  /** At iteration `N` the decayed learning rate is 0, so every rate is 0 and
      the step leaves every neuron where it was. */
  lemma TrainStepAtCount(locs: seq<Loc>, h: Hyper, kernel: Kernel, ws: seq<Vec>, x: Vec)
    requires h.nIterations > 0
    requires |ws| == |locs| > 0 && SameDim(ws, |x|)
    ensures TrainStep(locs, h, kernel, ws, x, h.nIterations) == ws
  {
    var ws' := TrainStep(locs, h, kernel, ws, x, h.nIterations);
    var rates := Rates(locs, locs[Nearest(ws, x)], AlphaAt(h, h.nIterations), SigmaAt(h, h.nIterations), kernel);
    assert ws' == Step(ws, x, rates);
    forall k | 0 <= k < |ws|
      ensures ws'[k] == ws[k]
    {
      assert rates[k] == 0.0;
      StepZeroRate(ws, x, rates, k);
    }
  }

  /** All inputs have `dim` components. */
  predicate InputsOfDim(xs: seq<Vec>, dim: nat)
  {
    forall i :: 0 <= i < |xs| ==> |xs[i]| == dim
  }

  /** A training step as a value: the weights after one input fed at a given
      iteration number. */
  type StepFn = (seq<Vec>, Vec, nat) -> seq<Vec>

  /** The map's training step. The `else ws` branch only makes the step total,
      as `Feed` needs; the map never holds or accepts weights or inputs of the
      wrong shape, on which the source would raise instead. */
  function SomStep(locs: seq<Loc>, h: Hyper, kernel: Kernel): (step: StepFn)
    ensures forall ws: seq<Vec>, x: Vec, t: nat {:trigger step(ws, x, t)} ::
      h.nIterations > 0 && |ws| == |locs| > 0 && SameDim(ws, |x|) ==>
        step(ws, x, t) == TrainStep(locs, h, kernel, ws, x, t)
  {
    (ws: seq<Vec>, x: Vec, t: nat) =>
      if h.nIterations > 0 && |ws| == |locs| > 0 && SameDim(ws, |x|)
      then TrainStep(locs, h, kernel, ws, x, t)
      else ws
  }

  /** The weights after feeding `xs` one at a time, the `i`-th input with
      iteration number `t0 + i`. */
  function Feed(step: StepFn, ws: seq<Vec>, xs: seq<Vec>, t0: nat): (r: seq<Vec>)
    ensures |xs| == 0 ==> r == ws
  {
    if |xs| == 0 then ws
    else step(Feed(step, ws, xs[..|xs| - 1], t0), xs[|xs| - 1], t0 + |xs| - 1)
  }

  /** Feeding `xs ++ ys` is feeding `xs`, then `ys` with iteration numbers
      continuing from `t0 + |xs|`: numbering runs on with the inputs and is
      never reset or capped. */
  lemma {:induction false} FeedAppend(step: StepFn, ws: seq<Vec>, xs: seq<Vec>, ys: seq<Vec>, t0: nat)
    ensures Feed(step, ws, xs + ys, t0) == Feed(step, Feed(step, ws, xs, t0), ys, t0 + |xs|)
    decreases |ys|
  {
    if |ys| == 0 {
      assert xs + ys == xs;
    } else {
      var last := |ys| - 1;
      var zs := xs + ys;
      assert zs[..|zs| - 1] == xs + ys[..last];
      assert zs[|zs| - 1] == ys[last];
      FeedAppend(step, ws, xs, ys[..last], t0);
    }
  }

  /** The `i`-th input (counting from 0) is fed with iteration number `t0 + i`
      to the weights left by the inputs before it, whatever `i` is relative to
      the configured iteration count. */
  lemma FeedStepAt(step: StepFn, ws: seq<Vec>, xs: seq<Vec>, t0: nat, i: nat)
    requires i < |xs|
    ensures Feed(step, ws, xs[..i + 1], t0) == step(Feed(step, ws, xs[..i], t0), xs[i], t0 + i)
  {
    assert xs[..i + 1][..i] == xs[..i];
  }

  /** Training keeps one vector of `dim` components per neuron. */
  lemma {:induction false} FeedKeepsShape(locs: seq<Loc>, h: Hyper, kernel: Kernel, ws: seq<Vec>, xs: seq<Vec>, t0: nat, dim: nat)
    requires |ws| == |locs| > 0 && SameDim(ws, dim) && InputsOfDim(xs, dim)
    ensures |Feed(SomStep(locs, h, kernel), ws, xs, t0)| == |ws|
    ensures SameDim(Feed(SomStep(locs, h, kernel), ws, xs, t0), dim)
  {
    if |xs| > 0 {
      FeedKeepsShape(locs, h, kernel, ws, xs[..|xs| - 1], t0, dim);
    }
  }

  /** Appends each neuron's vector to the row list of its location, scanning
      the neurons in index order; the result is the centroid grid. */
  method GroupRows(m: nat, n: nat, locs: seq<Loc>, ws: seq<Vec>) returns (grid: seq<seq<Vec>>)
    requires locs == NeuronLocations(m, n) && |ws| == m * n
    ensures grid == CentroidGrid(m, locs, ws)
  {
    grid := seq(m, _ => []);
    var k := 0;
    while k < |locs|
      invariant 0 <= k <= |locs| && |grid| == m
      invariant forall r :: 0 <= r < m ==> grid[r] == RowMembers(r, locs[..k], ws[..k])
    {
      NeuronLocationsInGrid(m, n, k);
      var row := locs[k].row;
      forall r | 0 <= r < m {
        RowMembersExtend(r, locs, ws, k);
      }
      grid := grid[row := grid[row] + [ws[k]]];
      k := k + 1;
    }
    assert locs[..k] == locs && ws[..k] == ws;
  }

  /** The self-organizing map object. */
  class SelfOrganizingMap {
    const m: nat
    const n: nat
    const dim: nat
    const hyper: Hyper
    const kernel: Kernel
    /** Neuron `k`'s grid location; fixed at construction. */
    const locations: seq<Loc>
    /** Neuron `k`'s weight vector. */
    var weights: seq<Vec>
    var trained: bool
    /** Row `r` holds the weight vectors of row `r`'s neurons, as of the end of
        the last training pass. */
    var centroidGrid: seq<seq<Vec>>

    ghost predicate Valid()
      reads this
    {
      m > 0 && n > 0
      && locations == NeuronLocations(m, n)
      && |weights| == m * n && SameDim(weights, dim)
      && (trained ==> centroidGrid == CentroidGrid(m, locations, weights))
    }

    /** Builds an untrained map from the given initial weights, one vector of
        `dim` components per neuron in row-major order. */
    constructor (m: nat, n: nat, dim: nat, initialWeights: seq<Vec>, kernel: Kernel,
                 nIterations: real := 42.0, alpha: Option<real> := None, sigma: Option<real> := None)
      requires m > 0 && n > 0
      requires |initialWeights| == m * n && SameDim(initialWeights, dim)
      ensures Valid() && !trained
      ensures this.m == m && this.n == n && this.dim == dim && this.kernel == kernel
      ensures weights == initialWeights
      ensures hyper == Normalize(m, n, nIterations, alpha, sigma)
    {
      this.m, this.n, this.dim, this.kernel := m, n, dim, kernel;
      hyper := Normalize(m, n, nIterations, alpha, sigma);
      locations := NeuronLocations(m, n);
      weights := initialWeights;
      trained := false;
      centroidGrid := [];
    }

    /** One pass over `inputs` in order, with iteration numbers 1, 2, ...;
        then the centroid grid is rebuilt from the final weights and the map
        is marked trained. Returns the final weights. */
    method Train(inputs: seq<Vec>) returns (result: seq<Vec>)
      requires Valid()
      requires InputsOfDim(inputs, dim)
      requires |inputs| > 0 ==> hyper.nIterations > 0
      modifies this
      ensures Valid() && trained
      ensures weights == Feed(SomStep(locations, hyper, kernel), old(weights), inputs, 1)
      ensures centroidGrid == CentroidGrid(m, locations, weights)
      ensures result == weights
    {
      var start := weights;
      var ws := weights;
      var iterNo := 1;
      var i := 0;
      while i < |inputs|
        invariant 0 <= i <= |inputs| && iterNo == i + 1
        invariant |ws| == m * n && SameDim(ws, dim)
        invariant ws == Feed(SomStep(locations, hyper, kernel), start, inputs[..i], 1)
      {
        FeedStepAt(SomStep(locations, hyper, kernel), start, inputs, 1, i);
        ws := TrainStep(locations, hyper, kernel, ws, inputs[i], iterNo);
        iterNo := iterNo + 1;
        i := i + 1;
      }
      assert inputs[..i] == inputs;
      var grid := GroupRows(m, n, locations, ws);
      weights := ws;
      centroidGrid := grid;
      trained := true;
      result := weights;
    }

    /** The grid location of each input's BMU among the trained weights, in
        input order; refused with `NotTrained` before the first training pass.
        Changes nothing. */
    method MapVects(inputs: seq<Vec>) returns (r: Result<seq<Loc>>)
      requires Valid()
      requires trained ==> InputsOfDim(inputs, dim)
      ensures r.Failure? <==> !trained
      ensures r.Failure? ==> r.error == NotTrained
      ensures r.Success? ==> |r.value| == |inputs|
      ensures r.Success? ==> forall i :: 0 <= i < |inputs| ==> r.value[i] == locations[Nearest(weights, inputs[i])]
    {
      if !trained {
        return Failure(NotTrained);
      }
      var found: seq<Loc> := [];
      for i := 0 to |inputs|
        invariant |found| == i
        invariant forall j :: 0 <= j < i ==> found[j] == locations[Nearest(weights, inputs[j])]
      {
        var minIndex := Nearest(weights, inputs[i]);
        found := found + [locations[minIndex]];
      }
      r := Success(found);
    }
  }
}
