/** Hyperparameters of the map and their linear decay over the iterations. */
module Schedule {

  datatype Option<T> = None | Some(value: T)

  /** The normalised hyperparameters: initial learning rate, initial
      neighbourhood radius and the iteration count the decay is scaled by. */
  datatype Hyper = Hyper(alpha: real, sigma: real, nIterations: nat)

  /** Python's `int()` on a number: truncation toward zero, so the result is
      the whole number nearest `x` on the side of zero. */
  function Truncate(x: real): (i: int)
    ensures x >= 0.0 ==> 0 <= i && i as real <= x < i as real + 1.0
    ensures x < 0.0 ==> i <= 0 && i as real - 1.0 < x <= i as real
  {
    if x >= 0.0 then x.Floor else -((-x).Floor)
  }

  /** Python's `abs()` on a whole number. */
  function Abs(i: int): (a: nat)
    ensures a == i || a == -i
  {
    if i < 0 then -i else i
  }

  /** The iteration count is made a non-negative whole number: the magnitude of
      the given count with its fraction dropped. */
  lemma AbsTruncate(x: real)
    ensures Abs(Truncate(x)) == (if x < 0.0 then -x else x).Floor
    ensures Abs(Truncate(x)) as real <= (if x < 0.0 then -x else x) < Abs(Truncate(x)) as real + 1.0
  {
  }

  /** The constructor's defaults: learning rate 0.3 and radius max(m, n) / 2
      when not given, and the iteration count |int(n_iterations)|. */
  function Normalize(m: nat, n: nat, nIterations: real, alpha: Option<real>, sigma: Option<real>): (h: Hyper)
    ensures h.nIterations == (if nIterations < 0.0 then -nIterations else nIterations).Floor
    ensures h.alpha == if alpha.Some? then alpha.value else 0.3
    ensures h.sigma == if sigma.Some? then sigma.value else (if m < n then n else m) as real / 2.0
  {
    AbsTruncate(nIterations);
    Hyper(
      if alpha.None? then 0.3 else alpha.value,
      if sigma.None? then (if m > n then m else n) as real / 2.0 else sigma.value,
      Abs(Truncate(nIterations)))
  }

  /** The linear decay factor `1 - t / N` at iteration `t`. */
  function Decay(t: nat, nIterations: nat): (d: real)
    requires nIterations > 0
    ensures d <= 1.0
    ensures d == 1.0 <==> t == 0
    ensures d == 0.0 <==> t == nIterations
    ensures d < 0.0 <==> t > nIterations
  {
    var frac := t as real / nIterations as real;
    FractionAboveOne(t, nIterations);
    1.0 - frac
  }

  lemma FractionAboveOne(t: nat, nIterations: nat)
    requires nIterations > 0
    ensures t as real / nIterations as real > 1.0 <==> t > nIterations
    ensures t as real / nIterations as real == 1.0 <==> t == nIterations
    ensures t as real / nIterations as real == 0.0 <==> t == 0
  {
    ScaledAboveOne(t as real / nIterations as real, nIterations as real, t as real);
  }

  lemma ScaledAboveOne(frac: real, big: real, product: real)
    requires big > 0.0 && frac * big == product
    ensures frac > 1.0 <==> product > big
    ensures frac == 1.0 <==> product == big
    ensures frac == 0.0 <==> product == 0.0
  {
    SignOfProduct(frac - 1.0, big, product - big);
    SignOfProduct(frac, big, product);
  }

  /** A product with a positive factor has the sign of the other factor. */
  lemma SignOfProduct(x: real, big: real, product: real)
    requires big > 0.0 && x * big == product
    ensures x > 0.0 <==> product > 0.0
    ensures x == 0.0 <==> product == 0.0
  {
    if x > 0.0 {
      assert x * big > 0.0;
    } else if x < 0.0 {
      assert (-x) * big > 0.0;
    }
  }

  /** The decay falls strictly as the iteration number grows. */
  lemma DecayDecreasing(t1: nat, t2: nat, nIterations: nat)
    requires nIterations > 0
    requires t1 < t2
    ensures Decay(t2, nIterations) < Decay(t1, nIterations)
  {
    var f1, f2 := t1 as real / nIterations as real, t2 as real / nIterations as real;
    assert f1 * nIterations as real == t1 as real;
    assert f2 * nIterations as real == t2 as real;
  }

  /** The learning rate at iteration `t`: `alpha * (1 - t / N)`. */
  function AlphaAt(h: Hyper, t: nat): (a: real)
    requires h.nIterations > 0
    ensures t == h.nIterations ==> a == 0.0
    ensures t == 0 ==> a == h.alpha
  {
    h.alpha * Decay(t, h.nIterations)
  }

  /** Before the configured count is reached, and after the first iteration,
      the learning rate lies strictly between 0 and its initial value. */
  lemma AlphaAtBetween(h: Hyper, t: nat)
    requires h.nIterations > 0 && h.alpha > 0.0
    requires 0 < t < h.nIterations
    ensures 0.0 < AlphaAt(h, t) < h.alpha
  {
    ShrinkBetween(h.alpha, Decay(t, h.nIterations), AlphaAt(h, t));
  }

  lemma ShrinkBetween(a: real, d: real, product: real)
    requires a > 0.0 && 0.0 < d < 1.0 && product == a * d
    ensures 0.0 < product < a
  {
    SignOfProduct(d, a, product);
    SignOfProduct(1.0 - d, a, a - product);
  }

  /** The neighbourhood radius at iteration `t`: `sigma * (1 - t / N)`. */
  function SigmaAt(h: Hyper, t: nat): (s: real)
    requires h.nIterations > 0
    ensures t == h.nIterations ==> s == 0.0
    ensures t == 0 ==> s == h.sigma
  {
    h.sigma * Decay(t, h.nIterations)
  }
}
