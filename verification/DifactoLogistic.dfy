/**
 * What the residuals are for: with them the saved gradients belong to the logistic
 * loss of the batch. Exponential and logarithm are parameters.
 */
module DifactoLogistic {
  import opened Options
  import opened RowBlocks
  import opened SpMV
  import opened SpMM
  import opened FactorGradient
  import opened DifactoData
  import opened DifactoLoss
  import opened DifactoRun
  import opened DifactoGradient

  /** A sum becomes a product, and no line through (0, 1) with slope 1 lies above. */
  ghost predicate IsExp(exp: real -> real) {
    (forall x :: exp(x) > 0.0) && (forall x :: exp(x) >= 1.0 + x) && forall x, y :: exp(x + y) == exp(x) * exp(y)
  }

  ghost predicate IsLog(log: real -> real, exp: real -> real) {
    (forall x :: log(exp(x)) == x) && forall y :: y > 0.0 ==> exp(log(y)) == y
  }

  lemma ExpSum(exp: real -> real, x: real, y: real, z: real)
    requires IsExp(exp) && z == x + y
    ensures exp(z) == exp(x) * exp(y) && exp(x) > 0.0 && exp(y) > 0.0
  {
  }

  lemma ExpAbove(exp: real -> real, x: real)
    requires IsExp(exp)
    ensures exp(x) >= 1.0 + x && exp(x) > 0.0
  {
  }

  lemma LogExp(exp: real -> real, log: real -> real, x: real)
    requires IsLog(log, exp)
    ensures log(exp(x)) == x
  {
  }

  lemma ExpLog(exp: real -> real, log: real -> real, y: real)
    requires IsLog(log, exp) && y > 0.0
    ensures exp(log(y)) == y
  {
  }

  lemma ExpZero(exp: real -> real)
    requires IsExp(exp)
    ensures exp(0.0) == 1.0
  {
    hide IsExp;
    ExpSum(exp, 0.0, 0.0, 0.0);
    OwnSquare(exp(0.0));
  }

  lemma OwnSquare(e: real)
    requires e == e * e && e > 0.0
    ensures e == 1.0
  {
    assert e * (e - 1.0) == 0.0;
  }

  lemma ExpInverse(exp: real -> real, x: real)
    requires IsExp(exp)
    ensures exp(x) * exp(-x) == 1.0 && exp(x) > 0.0 && exp(-x) > 0.0
  {
    hide IsExp;
    ExpSum(exp, x, -x, 0.0);
    ExpZero(exp);
  }

  // ---- the residual ----

  /** The logistic loss of one row, for a positive or another label. */
  function Logistic(exp: real -> real, log: real -> real, lab: real, score: real): real {
    log(1.0 + exp(if lab > 0.0 then -score else score))
  }

  /** The share of e in 1 + e. */
  lemma ShareOf(e: real, f: real)
    requires e > 0.0 && f > 0.0 && e * f == 1.0
    ensures 1.0 / (1.0 + f) == e / (1.0 + e)
    ensures 0.0 < e / (1.0 + e) < 1.0
  {
    assert e * (1.0 + f) == e + 1.0;
    var a, b := 1.0 / (1.0 + f), e / (1.0 + e);
    assert a * (1.0 + f) == 1.0 && b * (1.0 + e) == e;
    assert b * (e * (1.0 + f)) == e;
    assert e * (b * (1.0 + f)) == e * 1.0;
    Cancelled(e, b * (1.0 + f), 1.0);
    Cancelled(1.0 + f, a, b);
  }

  lemma Cancelled(e: real, a: real, b: real)
    requires e > 0.0 && e * a == e * b
    ensures a == b
  {
    assert e * (a - b) == 0.0;
  }

  /**
   * The residual is the estimated probability of a positive label, less one if the
   * label is positive; so it is negative then and positive otherwise.
   */
  lemma ResidualIs(exp: real -> real, lab: real, score: real)
    requires IsExp(exp) && forall x :: exp(x) > 0.0
    ensures Residual(exp, lab, score) == exp(score) / (1.0 + exp(score)) - (if lab > 0.0 then 1.0 else 0.0)
    ensures if lab > 0.0 then -1.0 < Residual(exp, lab, score) < 0.0 else 0.0 < Residual(exp, lab, score) < 1.0
  {
    hide IsExp;
    ExpInverse(exp, score);
    var e, f := exp(score), exp(-score);
    ShareOf(e, f);
    OtherShare(e);
    assert 1.0 * score == score && -1.0 * score == -score;
    assert -(-1.0) / (1.0 + f) == 1.0 / (1.0 + f);
  }

  lemma OtherShare(e: real)
    requires e > 0.0
    ensures -1.0 / (1.0 + e) == e / (1.0 + e) - 1.0 && 1.0 / (1.0 + e) == 1.0 - e / (1.0 + e)
  {
    assert e / (1.0 + e) + 1.0 / (1.0 + e) == (1.0 + e) / (1.0 + e);
  }

  // ---- the supporting line ----

  /** The exponential is convex: s parts of exp(d) and the rest of 1 are no less than exp(s d). */
  lemma Jensen(exp: real -> real, s: real, d: real)
    requires IsExp(exp) && 0.0 < s < 1.0
    ensures 1.0 - s + s * exp(d) >= exp(s * d)
  {
    hide IsExp;
    var c := s * d;
    ExpAbove(exp, -c);
    ExpAbove(exp, d - c);
    ExpInverse(exp, c);
    ExpSum(exp, d - c, c, d);
    Means(s, d, c, exp(-c), exp(d - c), exp(c), exp(d));
  }

  lemma Means(s: real, d: real, c: real, u: real, v: real, w: real, g: real)
    requires 0.0 < s < 1.0 && c == s * d && u >= 1.0 - c && v >= 1.0 + (d - c) && w > 0.0 && w * u == 1.0 && g == v * w
    ensures 1.0 - s + s * g >= w
  {
    hide Product;
    ProductMonotone(u, 1.0 - c, 1.0 - s);
    ProductMonotone(v, 1.0 + (d - c), s);
    Rest(s, d, c);
    Closing(s, u, v, w, g);
  }

  function Product(a: real, b: real): real {
    a * b
  }

  lemma ProductMonotone(a: real, b: real, w: real)
    requires a >= b && w > 0.0
    ensures Product(a, w) >= Product(b, w)
  {
    Scaled(a, b, w);
  }

  lemma Rest(s: real, d: real, c: real)
    requires c == s * d
    ensures Product(1.0 - c, 1.0 - s) + Product(1.0 + (d - c), s) == 1.0
  {
    assert (1.0 - c) * (1.0 - s) == 1.0 - s - c + c * s;
    assert (1.0 + (d - c)) * s == s + d * s - c * s;
  }

  lemma Closing(s: real, u: real, v: real, w: real, g: real)
    requires Product(u, 1.0 - s) + Product(v, s) >= 1.0 && w > 0.0 && w * u == 1.0 && g == v * w
    ensures 1.0 - s + s * g >= w
  {
    Scaled(Product(u, 1.0 - s) + Product(v, s), 1.0, w);
    assert (u * (1.0 - s) + v * s) * w == (1.0 - s) * (w * u) + s * (v * w);
  }

  lemma Scaled(a: real, b: real, w: real)
    requires a >= b && w > 0.0
    ensures a * w >= b * w
  {
    assert (a - b) * w >= 0.0;
  }

  lemma LogMonotone(exp: real -> real, log: real -> real, a: real, b: real)
    requires IsExp(exp) && IsLog(log, exp) && a >= b > 0.0
    ensures log(a) >= log(b)
  {
    hide IsExp, IsLog;
    var t := log(b) - log(a);
    if t > 0.0 {
      ExpSum(exp, log(a), t, log(b));
      ExpAbove(exp, t);
      ExpLog(exp, log, a);
      ExpLog(exp, log, b);
      Larger(a, exp(log(a)), t, exp(t));
    }
  }

  lemma Larger(a: real, a': real, t: real, e: real)
    requires a > 0.0 && a' == a && t > 0.0 && e >= 1.0 + t
    ensures a' * e > a
  {
    Scaled(e, 1.0 + t, a);
    assert (1.0 + t) * a == a + t * a;
    assert t * a > 0.0;
  }

  lemma LogOfProduct(exp: real -> real, log: real -> real, a: real, x: real, w: real)
    requires IsExp(exp) && IsLog(log, exp) && a > 0.0 && w == a * exp(x)
    ensures log(w) == log(a) + x
  {
    hide IsExp, IsLog;
    var l := log(a);
    ExpSum(exp, l, x, l + x);
    ExpLog(exp, log, a);
    LogExp(exp, log, l + x);
    Replaced(exp(l), a, exp(x), w);
    assert exp(l + x) == w;
  }

  lemma Replaced(a': real, a: real, e: real, w: real)
    requires a' == a && w == a * e
    ensures a' * e == w
  {
  }

  /** log(1 + exp(z)) lies above each of its tangents. */
  lemma SoftplusAbove(exp: real -> real, log: real -> real, z: real, d: real, t: real)
    requires IsExp(exp) && IsLog(log, exp) && t == z + d && forall x :: exp(x) > 0.0
    ensures log(1.0 + exp(t)) >= log(1.0 + exp(z)) + exp(z) / (1.0 + exp(z)) * d
  {
    hide IsExp, IsLog;
    ExpInverse(exp, z);
    ExpSum(exp, z, d, t);
    var e, g := exp(z), exp(d);
    var s := e / (1.0 + e);
    ShareOf(e, exp(-z));
    Jensen(exp, s, d);
    var w := (1.0 + e) * exp(s * d);
    LogOfProduct(exp, log, 1.0 + e, s * d, w);
    Above(e, s, g, exp(s * d));
    LogMonotone(exp, log, 1.0 + exp(t), w);
  }

  lemma Above(e: real, s: real, g: real, w: real)
    requires e > 0.0 && s == e / (1.0 + e) && 1.0 - s + s * g >= w > 0.0
    ensures 1.0 + e * g >= (1.0 + e) * w > 0.0
  {
    var a := 1.0 + e;
    Scaled(1.0 - s + s * g, w, a);
    assert s * a == e;
    Sharing(s, g, a, e);
    Scaled(w, 0.0, a);
    assert w * a > 0.0;
  }

  lemma Sharing(s: real, g: real, a: real, e: real)
    requires s * a == e && a == 1.0 + e
    ensures (1.0 - s + s * g) * a == 1.0 + e * g
  {
    assert (1.0 - s + s * g) * a == a - s * a + s * a * g;
  }

  /** The residual is the slope of the logistic loss: the loss lies above its tangent everywhere. */
  lemma SupportingLine(exp: real -> real, log: real -> real, lab: real, score: real, other: real)
    requires IsExp(exp) && IsLog(log, exp) && forall x :: exp(x) > 0.0
    ensures Logistic(exp, log, lab, other) >= Logistic(exp, log, lab, score) + Residual(exp, lab, score) * (other - score)
  {
    hide IsExp, IsLog, Residual;
    if lab > 0.0 {
      SoftplusAbove(exp, log, -score, score - other, -other);
      SlopeOfPositive(exp, lab, score);
      Turned(Residual(exp, lab, score), exp(-score) / (1.0 + exp(-score)), other - score, score - other);
    } else {
      ResidualIs(exp, lab, score);
      SoftplusAbove(exp, log, score, other - score, other);
    }
  }

  lemma SlopeOfPositive(exp: real -> real, lab: real, score: real)
    requires IsExp(exp) && lab > 0.0 && forall x :: exp(x) > 0.0
    ensures Residual(exp, lab, score) == -(exp(-score) / (1.0 + exp(-score)))
  {
    hide IsExp, Residual;
    ResidualIs(exp, lab, score);
    ExpInverse(exp, score);
    ShareOf(exp(-score), exp(score));
    OtherShare(exp(score));
  }

  lemma Turned(p: real, q: real, d: real, e: real)
    requires e == -d && p == -q
    ensures q * e == p * d
  {
  }

  // ---- the loss of the batch ----

  /** The logistic loss of the first n rows. */
  ghost function BatchLoss(exp: real -> real, log: real -> real, data: RowBlock, model: seq<real>, siz: seq<nat>, dim: nat, n: nat): real
    requires Fitting(data, model, siz) && data.labels.Some? && n <= Size(data)
  {
    if n == 0 then 0.0
    else BatchLoss(exp, log, data, model, siz, dim, n - 1)
         + Logistic(exp, log, data.labels.value[n - 1], Score(data, model, siz, dim, n - 1))
  }

  /** Another model of the same shape: its loss lies above the tangent in the scores. */
  lemma {:induction false} LossAbove(exp: real -> real, log: real -> real, data: RowBlock, model: seq<real>, m: seq<real>,
                                     siz: seq<nat>, dim: nat, p: seq<real>, n: nat)
    requires IsExp(exp) && IsLog(log, exp) && (forall x :: exp(x) > 0.0) && Fitting(data, model, siz) && Fitting(data, m, siz)
    requires ResidualsOf(data, model, siz, dim, exp, p) && n <= Size(data)
    ensures BatchLoss(exp, log, data, m, siz, dim, n)
         >= BatchLoss(exp, log, data, model, siz, dim, n) + Weighted(data, m, siz, dim, p, n) - Weighted(data, model, siz, dim, p, n)
  {
    hide IsExp, IsLog, Score, WellFormed, Columns, Sized, Logistic, Residual, Weighted, Product;
    if n == 0 {
      NothingWeighted(data, model, siz, dim, p);
      NothingWeighted(data, m, siz, dim, p);
    } else {
      LossAbove(exp, log, data, model, m, siz, dim, p, n - 1);
      LabelsLength(data);
      var s, s' := Score(data, model, siz, dim, n - 1), Score(data, m, siz, dim, n - 1);
      var lab := data.labels.value[n - 1];
      SupportingLine(exp, log, lab, s, s');
      OneMore(Logistic(exp, log, lab, s'), Logistic(exp, log, lab, s), p[n - 1], s, s');
      WeightedStep(data, model, siz, dim, p, n);
      WeightedStep(data, m, siz, dim, p, n);
    }
  }

  lemma NothingWeighted(data: RowBlock, model: seq<real>, siz: seq<nat>, dim: nat, p: seq<real>)
    requires Fitting(data, model, siz) && |p| == Size(data)
    ensures Weighted(data, model, siz, dim, p, 0) == 0.0
  {
  }

  lemma WeightedStep(data: RowBlock, model: seq<real>, siz: seq<nat>, dim: nat, p: seq<real>, n: nat)
    requires Fitting(data, model, siz) && |p| == Size(data) && 0 < n <= Size(data)
    ensures Weighted(data, model, siz, dim, p, n)
         == Weighted(data, model, siz, dim, p, n - 1) + Product(p[n - 1], Score(data, model, siz, dim, n - 1))
  {
  }

  lemma OneMore(l': real, l: real, p: real, s: real, s': real)
    requires l' >= l + p * (s' - s)
    ensures l' >= l + Product(p, s') - Product(p, s)
  {
    assert p * (s' - s) == p * s' - p * s;
  }

  /**
   * The saved gradient of a weight belongs to the logistic loss of the batch: moving
   * the weight by any d, the loss lies above the tangent with that slope.
   */
  lemma WeightGradientOfLoss(exp: real -> real, log: real -> real, data: RowBlock, model: seq<real>, siz: seq<nat>, dim: nat,
                             pos: seq<nat>, x: RowBlock, v: Matrix, p: seq<real>, i: nat, d: real)
    requires IsExp(exp) && IsLog(log, exp) && (forall x :: exp(x) > 0.0)
    requires Fitting(data, model, siz) && Embedded(data, model, siz, dim, pos, x, v) && ResidualsOf(data, model, siz, dim, exp, p)
    requires i < |siz| && siz[i] > 0
    ensures Fitting(data, WithWeight(model, siz, i, d), siz)
    ensures BatchLoss(exp, log, data, WithWeight(model, siz, i, d), siz, dim, Size(data))
         >= BatchLoss(exp, log, data, model, siz, dim, Size(data)) + d * ColDot(data, p, i, Size(data))
  {
    hide IsExp, IsLog, BatchLoss, Weighted, ColDot, WithWeight, Embedded;
    var m := WithWeight(model, siz, i, d);
    FittingStays(data, model, siz, m);
    LossAbove(exp, log, data, model, m, siz, dim, p, Size(data));
    WeightGradientOfModel(data, model, siz, dim, pos, x, v, p, i, d);
  }

  /** The same of a factor, up to d squared times a number without V. */
  lemma FactorGradientOfLoss(exp: real -> real, log: real -> real, data: RowBlock, model: seq<real>, siz: seq<nat>, dim: nat,
                             pos: seq<nat>, x: RowBlock, v: Matrix, p: seq<real>, i: nat, k: nat, d: real)
    requires IsExp(exp) && IsLog(log, exp) && (forall x :: exp(x) > 0.0)
    requires Fitting(data, model, siz) && v != [] && Embedded(data, model, siz, dim, pos, x, v)
    requires ResidualsOf(data, model, siz, dim, exp, p) && IsEmbedded(siz, dim, i) && k < dim
    ensures Rank(siz, dim, i) < |v| && Fitting(data, WithFactor(model, siz, dim, i, k, d), siz)
    ensures BatchLoss(exp, log, data, WithFactor(model, siz, dim, i, k, d), siz, dim, Size(data))
         >= BatchLoss(exp, log, data, model, siz, dim, Size(data))
            + d * Gradient(x, v, dim, p, Rank(siz, dim, i), k, Size(x)) + d * d * Curvature(x, p, Rank(siz, dim, i), Size(x))
  {
    hide IsExp, IsLog, BatchLoss, Weighted, Gradient, Curvature, WithFactor, Rank;
    var m := WithFactor(model, siz, dim, i, k, d);
    FittingStays(data, model, siz, m);
    LossAbove(exp, log, data, model, m, siz, dim, p, Size(data));
    FactorGradientOfModel(data, model, siz, dim, pos, x, v, p, i, k, d);
  }
}
