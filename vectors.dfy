/** Real-valued feature vectors: the squared Euclidean distance that ranks
    neurons, and the pull of a prototype towards an input that one training
    step applies to every neuron. */
module Vectors {

  type Vec = seq<real>

  /** The identity on reals; a proof aid only, which `Sq` multiplies by. */
  function Same(e: real): real { e }

  /** The square of a real. */
  function Sq(e: real): real { e * Same(e) }

  lemma MulPositive(x: real, y: real)
    requires x > 0.0 && y > 0.0
    ensures x * y > 0.0
  {
  }

  lemma SqNonNegative(e: real)
    ensures Sq(e) >= 0.0
    ensures e != 0.0 ==> Sq(e) > 0.0
  {
    if e > 0.0 { MulPositive(e, e); } else if e < 0.0 { MulPositive(-e, -e); }
  }

  /** Squared Euclidean distance. The map ranks neurons by the Euclidean norm;
      the square root is monotone, so the squared distance ranks them the same. */
  function SqDist(a: Vec, b: Vec): (d: real)
    requires |a| == |b|
    ensures d >= 0.0
  {
    SqNonNegative(if |a| == 0 then 0.0 else a[0] - b[0]);
    if |a| == 0 then 0.0
    else Sq(a[0] - b[0]) + SqDist(a[1..], b[1..])
  }

  /** `w + rate * (x - w)`, component by component. */
  function Pull(w: Vec, x: Vec, rate: real): (v: Vec)
    requires |w| == |x|
    ensures |v| == |w|
  {
    seq(|w|, i requires 0 <= i < |w| => w[i] + rate * (x[i] - w[i]))
  }

  /** The distance is zero exactly when the two vectors are equal. */
  lemma {:induction false} SqDistZeroIff(a: Vec, b: Vec)
    requires |a| == |b|
    ensures SqDist(a, b) == 0.0 <==> a == b
  {
    if |a| > 0 {
      SqDistZeroIff(a[1..], b[1..]);
      SqNonNegative(a[0] - b[0]);
      if a == b {
        assert a[1..] == b[1..];
      }
    }
  }

  lemma SqOpposite(d: real, e: real)
    requires d == -e
    ensures Sq(d) == Sq(e)
  {
  }

  /** The distance is symmetric. */
  lemma {:induction false} SqDistSymmetric(a: Vec, b: Vec)
    requires |a| == |b|
    ensures SqDist(a, b) == SqDist(b, a)
  {
    if |a| > 0 {
      SqDistSymmetric(a[1..], b[1..]);
      SqOpposite(a[0] - b[0], b[0] - a[0]);
    }
  }

  /** Pulling with rate 0 leaves the prototype unchanged. */
  lemma PullZero(w: Vec, x: Vec)
    requires |w| == |x|
    ensures Pull(w, x, 0.0) == w
  {
  }

  /** Pulling with rate 1 moves the prototype onto the input. */
  lemma PullOne(w: Vec, x: Vec)
    requires |w| == |x|
    ensures Pull(w, x, 1.0) == x
  {
  }

  /** `t` times `d`; a proof aid only, naming the product in contracts that
      relate a distance to a scaled distance. */
  function Scale(t: real, d: real): real { t * d }

  lemma ScaleSum(t: real, a: real, b: real)
    ensures Scale(t, a + b) == Scale(t, a) + Scale(t, b)
  {
  }

  lemma SqScale(s: real, e: real)
    ensures Sq(Scale(s, e)) == Scale(Sq(s), Sq(e))
  {
  }

  lemma PullComponent(wi: real, xi: real, r: real)
    ensures xi - (wi + r * (xi - wi)) == Scale(1.0 - r, xi - wi)
  {
  }

  /** After a pull with rate `r` the prototype is `1 - r` times as far from the
      input in every component, so the squared distance scales by `(1 - r)^2`. */
  lemma {:induction false} PullScalesDistance(w: Vec, x: Vec, r: real)
    requires |w| == |x|
    ensures SqDist(x, Pull(w, x, r)) == Scale(Sq(1.0 - r), SqDist(x, w))
  {
    if |w| > 0 {
      var p := Pull(w, x, r);
      var q := Pull(w[1..], x[1..], r);
      assert p[1..] == q by {
        forall i | 0 <= i < |q| ensures p[1..][i] == q[i] {
          assert w[1..][i] == w[i + 1] && x[1..][i] == x[i + 1];
        }
      }
      PullScalesDistance(w[1..], x[1..], r);
      var e, s := x[0] - w[0], 1.0 - r;
      PullComponent(w[0], x[0], r);
      SqScale(s, e);
      ScaleSum(Sq(s), Sq(e), SqDist(x[1..], w[1..]));
    }
  }

  lemma SqBelowOne(s: real)
    requires 0.0 < s < 1.0
    ensures Sq(s) < 1.0
  {
    assert s * s < s * 1.0;
  }

  lemma ShrinkPositive(t: real, d: real, scaled: real)
    requires 0.0 <= t < 1.0 && d > 0.0 && scaled == t * d
    ensures scaled < d
  {
    assert (1.0 - t) * d > 0.0;
  }

  /** Scaling a positive distance by `(1 - r)^2` with `0 < r < 1` makes it
      strictly smaller. */
  lemma ScaledCloser(before: real, after: real, r: real)
    requires 0.0 < r < 1.0 && before > 0.0
    requires after == Scale(Sq(1.0 - r), before)
    ensures after < before
  {
    SqBelowOne(1.0 - r);
    SqNonNegative(1.0 - r);
    ShrinkPositive(Sq(1.0 - r), before, after);
  }

  /** A pull with a rate strictly between 0 and 1 brings a prototype that is not
      already on the input strictly closer to it. */
  lemma PullApproaches(w: Vec, x: Vec, r: real)
    requires |w| == |x|
    requires 0.0 < r < 1.0
    requires w != x
    ensures SqDist(x, Pull(w, x, r)) < SqDist(x, w)
  {
    SqDistZeroIff(x, w);
    PullScalesDistance(w, x, r);
    ScaledCloser(SqDist(x, w), SqDist(x, Pull(w, x, r)), r);
  }
}
