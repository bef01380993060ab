# Self-organizing map, modelled in Dafny

This project models `clustering/som.py`, a 2-D self-organizing map (SOM). The
map is an `m` by `n` lattice of neurons. Each neuron holds a weight vector of
`dim` components. The model covers:

- **The lattice** (`grid.dfy`, module `Grid`). Neurons are enumerated row by
  row, rows outer and columns inner, so neuron `k` sits at `(k / n, k % n)`.
  After training, the weight vectors are regrouped into the centroid grid: row
  `r` lists the vectors of the neurons whose location is in row `r`, in neuron
  order.
- **The hyperparameters** (`schedule.dfy`, module `Schedule`):
  - the constructor's defaults: learning rate 0.3, radius `max(m, n) / 2`, and
    iteration count `|int(n_iterations)|`;
  - the linear decay `1 - t / N`, which scales both the learning rate and the
    radius at iteration `t`.
- **Vectors** (`vectors.dfy`, module `Vectors`):
  - the squared Euclidean distance, which ranks neurons;
  - the pull `w + rate * (x - w)` that a training step applies to each neuron.
- **The map** (`som.dfy`, module `Som`):
  - the best-matching unit (BMU): the first neuron at minimal distance;
  - the per-neuron rates and the update of one training step, which for every
    neuron is computed from the weights before the step;
  - the training pass, which feeds each input once, in order, with iteration
    numbers 1, 2, …;
  - the class `SelfOrganizingMap`, which holds the weights, the trained flag
    and the centroid grid. `Train` changes them in place. `MapVects` is
    refused until the map is trained, and changes nothing.

Modelling choices:

- Reals stand in for floating point.
- Distances are squared. The source takes the square root, which is monotone,
  so both rank neurons the same way.
- The Gaussian neighbourhood `exp(-d2 / sigma_t^2)` is a function value
  `kernel(d2, sigma_t)` that the map is built with.
- The initial weights are a constructor argument.
- `Feed` folds any step function over the inputs. `SomStep` is the map's
  step as such a function: `TrainStep` on weights and inputs of the map's
  shape, and the weights unchanged otherwise, only so that the step is total.

## Model

| member | source | states |
|---|---|---|
| `Grid.RowLocations` | clustering/som.py:185-186 | one row of the lattice has exactly `n` locations |
| `Grid.RowLocationsAt` | clustering/som.py:185-186 | column `j` of row `i` is the location `(i, j)`: columns run in increasing order |
| `Grid.NeuronLocations` | clustering/som.py:176-186 | the lattice has exactly `m * n` locations |
| `Grid.NeuronLocationsAt` | clustering/som.py:184-186 | neuron `k` sits at `(k / n, k % n)`: rows outer, columns inner |
| `Grid.NeuronLocationsInGrid` | clustering/som.py:184-186 | every location has `0 <= row < m` and `0 <= col < n` |
| `Grid.NeuronLocationsCover` | clustering/som.py:184-186 | every cell `(r, c)` of the grid is enumerated, as neuron `r * n + c` |
| `Grid.NeuronLocationsDistinct` | clustering/som.py:184-186 | no two neurons share a location |
| `Grid.RowMembers` | clustering/som.py:221-222 | a row collects at most as many vectors as there are neurons |
| `Grid.RowMembersExtend` | clustering/som.py:221-222 | scanning one more neuron appends its vector to the end of its own row and leaves every other row as it was |
| `Grid.CentroidGrid` | clustering/som.py:217 | the centroid grid has exactly `m` rows |
| `Grid.RowMembersOfInterval` | clustering/som.py:221-222 | if the neurons located in row `r` are exactly the index range `lo .. hi - 1`, row `r` is that slice of the vectors, in index order |
| `Grid.RowMembersOfLatticeRow` | clustering/som.py:217-223 | on the lattice, row `r < m` holds the vectors of neurons `r * n` to `r * n + n - 1` in column order, so it has `n` entries |
| `Grid.RowMembersOffLattice` | clustering/som.py:217-223 | no vector is filed under a row outside `0 .. m - 1` |
| `Grid.CentroidGridRows` | clustering/som.py:217-223 | row `r` of the centroid grid is the slice of the weight vectors for neurons `r * n .. r * n + n - 1` |
| `Schedule.Truncate` | clustering/som.py:41 | `int()` truncates toward zero: the result lies on the same side of zero as `x` and less than 1 closer to zero |
| `Schedule.Abs` | clustering/som.py:41 | `abs()` gives `i` or `-i`, and never a negative number |
| `Schedule.AbsTruncate` | clustering/som.py:41 | `abs(int(x))` is the whole part of `abs(x)`: non-negative, at most `abs(x)`, and more than `abs(x) - 1` |
| `Schedule.Normalize` | clustering/som.py:33-41 | the learning rate is the given one or 0.3; the radius is the given one or `max(m, n) / 2`; the iteration count is the whole part of `abs(n_iterations)` |
| `Schedule.Decay` | clustering/som.py:118-119 | the factor `1 - t / N` is at most 1; it equals 1 exactly at `t = 0` and 0 exactly at `t = N`; it is negative exactly when `t > N`, since `t` is not capped |
| `Schedule.DecayDecreasing` | clustering/som.py:118-119 | the factor falls strictly as the iteration number grows |
| `Schedule.AlphaAt` | clustering/som.py:120 | the learning rate is the initial rate at `t = 0` and 0 at `t = N` |
| `Schedule.AlphaAtBetween` | clustering/som.py:118-120 | for `0 < t < N` and a positive initial rate, the learning rate lies strictly between 0 and the initial rate |
| `Schedule.SigmaAt` | clustering/som.py:121 | the radius is the initial radius at `t = 0` and 0 at `t = N` |
| `Vectors.SqDist` | clustering/som.py:93-103 | a squared distance is never negative |
| `Vectors.SqDistZeroIff` | clustering/som.py:93-103 | the distance is zero exactly when the two vectors are equal |
| `Vectors.SqDistSymmetric` | clustering/som.py:254-256 | the distance does not depend on the order of its arguments |
| `Vectors.Pull` | clustering/som.py:156-161 | a pulled vector keeps its number of components |
| `Vectors.PullZero` | clustering/som.py:156-161 | a pull with rate 0 leaves the vector unchanged |
| `Vectors.PullOne` | clustering/som.py:156-161 | a pull with rate 1 moves the vector onto the input |
| `Vectors.PullScalesDistance` | clustering/som.py:156-161 | after a pull with rate `r`, the squared distance to the input is `(1 - r)^2` times what it was |
| `Vectors.PullApproaches` | clustering/som.py:156-161 | a pull with `0 < r < 1` brings a vector that differs from the input strictly closer to it |
| `Som.Nearest` | clustering/som.py:93-103 | the BMU is a neuron at minimal distance from the input, and every neuron before it is strictly farther (the first minimum) |
| `Som.ExactMatchIsNearest` | clustering/som.py:254-256 | a neuron equal to the input, when no other neuron is, is the BMU |
| `Som.GridSqDist` | clustering/som.py:130-132 | the squared grid distance between two cells is never negative and is 0 exactly when they are the same cell |
| `Som.Rates` | clustering/som.py:130-135 | one learning rate per neuron |
| `Som.Step` | clustering/som.py:156-163 | one step keeps `m * n` vectors of `dim` components |
| `Som.StepIsPointwise` | clustering/som.py:156-163 | a neuron's new vector depends only on its own old vector, the input and its own rate, never on another neuron's update in the same step |
| `Som.StepZeroRate` | clustering/som.py:156-161 | a neuron whose rate is 0 keeps its vector |
| `Som.Update` | clustering/som.py:93-163 | the update for one input keeps the shape of the weights |
| `Som.UpdatePullsBmu` | clustering/som.py:130-163 | if the kernel is 1 at distance 0 and `0 < alpha_t < 1`, the BMU moves strictly closer to the input unless it already equals it |
| `Som.TrainStep` | clustering/som.py:116-163 | the step at iteration `t` keeps the shape of the weights |
| `Som.TrainStepPullsBmu` | clustering/som.py:116-163 | for `0 < t < N` and `0 < alpha <= 1`, the step at iteration `t` moves the BMU strictly closer to the input unless it already equals it |
| `Som.TrainStepAtCount` | clustering/som.py:116-163 | at iteration `t = N` the learning rate is 0, so the step leaves every neuron's vector unchanged |
| `Som.Feed` | clustering/som.py:204-210 | feeding no inputs leaves the weights as they were; `FeedStepAt` and `FeedAppend` state what each input does |
| `Som.FeedAppend` | clustering/som.py:204-210 | feeding `xs` then `ys` equals feeding `xs + ys`; the numbering of `ys` continues from where `xs` stopped and is never reset or capped |
| `Som.FeedStepAt` | clustering/som.py:204-210 | the `i`-th input is fed with iteration number `t0 + i` to the weights left by the inputs before it |
| `Som.FeedKeepsShape` | clustering/som.py:204-210 | a training pass keeps one vector of `dim` components per neuron |
| `Som.GroupRows` | clustering/som.py:217-223 | appending each neuron's vector to its location's row, in neuron order, builds the centroid grid |
| `Som.SelfOrganizingMap.constructor` | clustering/som.py:14-67 | a new map is untrained; it holds the given weights and the lattice locations, and the hyperparameters are normalised |
| `Som.SelfOrganizingMap.Train` | clustering/som.py:188-227 | the new weights are those left by feeding the inputs once, in order, with iteration numbers 1, 2, …; the centroid grid is regrouped from them; the map is marked trained; the weights are returned |
| `Som.SelfOrganizingMap.MapVects` | clustering/som.py:238-259 | it fails with `NotTrained` exactly when the map is untrained, whatever the inputs; otherwise it returns one location per input, in input order, each the location of that input's first nearest neuron; it changes nothing |

## Left out

- TensorFlow graph, session, placeholder and variable mechanics
  (clustering/som.py:45-170). They are library plumbing. The model keeps
  what they compute.
- Random-normal initialisation of the weights (clustering/som.py:57-59). It
  draws from an external random source. The weights are always a constructor
  argument, which is the `weight_after_insertion` branch.
- The Gaussian `exp` neighbourhood (clustering/som.py:133-134) is a
  transcendental float function. It is the `kernel` function value.
  `UpdatePullsBmu` and `TrainStepPullsBmu` assume only that the kernel is 1 at
  grid distance 0, as the Gaussian is whenever `sigma_t` is not 0.
- The square roots of the distances (clustering/som.py:94, 255). The model
  ranks neurons by squared distance.
- Floating-point rounding, infinities and NaN. All arithmetic is on exact
  reals.
- `tf.argmin`'s tie rule (clustering/som.py:93-103) is not visible in the
  source. The training step uses the first-minimum rule of `map_vects`.
- Som.SelfOrganizingMap.Train: requires `N > 0` when there are inputs. With
  `n_iterations` 0, the source divides by zero in floating point. Exact
  reals have no value for that result.
- Som.SelfOrganizingMap.Train: at `t = N` both `alpha_t` and `sigma_t` are
  0. In the source the BMU's rate is then `0 * exp(-(0 / 0))`, which is NaN
  (clustering/som.py:133-135). The BMU's vector becomes NaN and stays NaN,
  and every other neuron gets rate 0. The model gives every neuron rate 0,
  so nothing changes (`TrainStepAtCount`). Train's weights therefore differ
  from the source's for any pass of `N` or more inputs (42 or more with the
  default count). With an explicit `sigma = 0`, `sigma_t` is 0 at every `t`,
  so the source's BMU rate is `alpha_t * exp(-(0 / 0))` = NaN on every step,
  from the first input on; the model then gives the BMU rate
  `alpha_t * kernel(0, 0)` and its weights differ from the first step.
- Som.SelfOrganizingMap.Train: requires every input to have `dim`
  components. In the source, a wrong-length input `i > 0` is rejected by
  `sess.run` (clustering/som.py:75, 206-208) after inputs `0 .. i - 1` have
  already changed the weight variable. Lines 217-225 then never run, so
  `_weightages`, `_centroid_grid` and `_trained` keep their old values, and
  the next `train` starts from the partly updated variable. The model does
  not capture this partial update.
- Schedule.Decay: requires `N > 0` for the same reason.
- For `t > N`, with positive `alpha` and `sigma`, the radius and the
  learning rate are negative, because `t` is not capped. `sigma_t^2` is
  then positive again, so the source computes a value, and the model passes
  the same radius to the kernel.
- The `print` calls (clustering/som.py:202, 226) are output only.
- Shapes are preconditions, not checked errors: `m` and `n` are positive,
  there are `m * n` weight vectors of `dim` components each, and each input
  has `dim` components. The source never checks them itself. Weights of the
  wrong shape fail while `__init__` builds the graph: `tf.subtract` rejects
  shapes that cannot broadcast (clustering/som.py:97-100), and `tf.assign`
  rejects any shape that broadcasts (clustering/som.py:162). An input of the
  wrong length fails in `train`, against the `[dim]` placeholder
  (clustering/som.py:75). On a trained map, `MapVects`'s `InputsOfDim` also
  excludes inputs that NumPy accepts silently by broadcasting
  (clustering/som.py:255): an input of one component, or a scalar, is
  compared with every component of a weight vector. An untrained map takes
  inputs of any shape and refuses them all.
- `float(alpha)`, `float(sigma)` and `int(n_iterations)` on arbitrary Python
  objects. The model takes reals; `int()` truncates toward zero.
- The snapshots `_weightages` and `_locations` (clustering/som.py:218-220)
  are not separate fields. `train` takes them after the pass, and nothing
  else changes the weights or the locations, so, as long as every `train`
  call completes, they equal `weights` and `locations` whenever `map_vects`
  can run.
- `_trained` is a class attribute in the source (clustering/som.py:12). It
  becomes an instance attribute on the first `train`. The model gives each
  map its own field, which starts false.
- The end-to-end two-cluster example of a trained 2-by-2 map needs concrete
  values of `exp`. The abstract kernel cannot supply them, so the model does
  not prove it.
