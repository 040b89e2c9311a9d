/**
 * The FTRL-Proximal update with an L1 + L2 penalty, over reals. The stored
 * weight is updated one gradient at a time from three numbers; the theorem is
 * that it always minimises the regularised sum over all gradients so far.
 */
module Ftrl {
  /** The square root is a parameter; only its defining property is used. */
  ghost predicate IsSqrt(sqrt: real -> real) {
    forall x :: x >= 0.0 ==> sqrt(x) >= 0.0 && sqrt(x) * sqrt(x) == x
  }

  datatype Params = Params(alpha: real, beta: real, lambda1: real, lambda2: real)

  predicate Good(p: Params) {
    p.alpha > 0.0 && p.beta > 0.0 && p.lambda1 >= 0.0 && p.lambda2 >= 0.0
  }

  function Abs(x: real): real {
    if x < 0.0 then -x else x
  }

  /** Soft thresholding; an eta that is not positive aborts. */
  function Solve(p: Params, z: real, eta: real): real
    requires Good(p) && eta > 0.0
  {
    if z <= p.lambda1 && z >= -p.lambda1 then 0.0
    else (if z > 0.0 then z - p.lambda1 else z + p.lambda1) / (eta + p.lambda2)
  }

  /** The proximal objective of Solve, up to a constant. */
  function Prox(p: Params, z: real, eta: real, u: real): real {
    -z * u + p.lambda1 * Abs(u) + 0.5 * (eta + p.lambda2) * (u * u)
  }

  /** Half the curvature times the squared distance. */
  function Gap(h: real, d: real): real {
    0.5 * h * (d * d)
  }

  lemma GapPositive(h: real, d: real)
    requires h > 0.0 && d != 0.0
    ensures Gap(h, d) > 0.0
  {
    if d > 0.0 {
      PositiveProduct(h * d, d);
    } else {
      PositiveProduct(h * -d, -d);
    }
  }

  lemma PositiveProduct(a: real, b: real)
    requires a > 0.0 && b > 0.0
    ensures a * b > 0.0
  {
  }

  lemma SquareNonNegative(x: real, h: real)
    requires h >= 0.0
    ensures x * x >= 0.0 && h * (x * x) >= 0.0
  {
    assert x * x >= 0.0 by {
      if x < 0.0 {
        assert x * x == (-x) * (-x);
      }
    }
    Nonneg(h, x * x);
  }

  lemma Nonneg(a: real, b: real)
    requires a >= 0.0 && b >= 0.0
    ensures a * b >= 0.0
  {
  }

  /** -z * u is outweighed by the L1 term when z is within the threshold. */
  lemma Threshold(z: real, l: real, u: real)
    requires -l <= z <= l
    ensures -z * u + l * Abs(u) >= 0.0
  {
    if u < 0.0 {
      Nonneg(l + z, -u);
      assert (l + z) * -u == -z * u + l * -u;
    } else {
      Nonneg(l - z, u);
      assert (l - z) * u == -z * u + l * u;
    }
  }

  lemma LinearPart(s: real, w: real, u: real, h: real)
    requires h * w == s
    ensures -s * (u - w) + 0.5 * h * (u * u - w * w) == 0.5 * h * ((u - w) * (u - w))
  {
    assert s * (u - w) == h * (w * u - w * w) by {
      assert h * w * (u - w) == h * (w * (u - w));
    }
    var uu, uw, ww := u * u, u * w, w * w;
    assert w * u == uw;
    assert (u - w) * (u - w) == uu - 2.0 * uw + ww;
    assert -h * (uw - ww) + 0.5 * h * (uu - ww) == 0.5 * h * (uu - 2.0 * uw + ww);
  }

  /** Solve gives the minimum of the proximal objective, with the gap of strong convexity. */
  lemma SolveMinimises(p: Params, z: real, eta: real, u: real)
    requires Good(p) && eta > 0.0
    ensures var w := Solve(p, z, eta);
            Prox(p, z, eta, u) >= Prox(p, z, eta, w) + Gap(eta + p.lambda2, u - w)
  {
    var w, h, l := Solve(p, z, eta), eta + p.lambda2, p.lambda1;
    if z <= l && z >= -l {
      Threshold(z, l, u);
    } else {
      var s := if z > 0.0 then z - l else z + l;
      assert w == s / h && h * w == s;
      var sign := if z > 0.0 then 1.0 else -1.0;
      assert sign * w > 0.0;
      assert Abs(w) == sign * w;
      LinearPart(s, w, u, h);
      assert -z * u + l * Abs(u) >= -s * u by {
        assert Abs(u) >= sign * u;
        Nonneg(l, Abs(u) - sign * u);
        assert l * (Abs(u) - sign * u) == l * Abs(u) - l * (sign * u);
      }
      assert -z * w + l * Abs(w) == -s * w;
    }
  }

  // ------------------------------------------------- the documented objective

  /** The penalty as it is documented, with the squared norm times lambda2 and not half of it. */
  function Penalty(p: Params, u: real): real {
    p.lambda1 * Abs(u) + p.lambda2 * (u * u)
  }

  /** What Solve is documented to minimise. */
  function Documented(p: Params, z: real, eta: real, u: real): real
    requires eta > 0.0
  {
    0.5 * eta * ((u - z / eta) * (u - z / eta)) + Penalty(p, u)
  }

  function Doubled(p: Params): Params {
    p.(lambda2 := 2.0 * p.lambda2)
  }

  /** Up to a constant that is the objective of Solve with twice the lambda2. */
  lemma DocumentedIs(p: Params, z: real, eta: real, u: real)
    requires eta > 0.0
    ensures Documented(p, z, eta, u) == Prox(Doubled(p), z, eta, u) + 0.5 * eta * (z / eta * (z / eta))
  {
    var c := z / eta;
    CompleteSquare(eta, c, z, u);
    assert 0.5 * (eta + 2.0 * p.lambda2) * (u * u) == 0.5 * eta * (u * u) + p.lambda2 * (u * u);
  }

  lemma CompleteSquare(eta: real, c: real, z: real, u: real)
    requires eta * c == z
    ensures 0.5 * eta * ((u - c) * (u - c)) == 0.5 * eta * (u * u) - z * u + 0.5 * eta * (c * c)
  {
    var uu, uc, cc := u * u, u * c, c * c;
    assert (u - c) * (u - c) == uu - 2.0 * uc + cc;
    assert eta * uc == z * u by {
      assert eta * (u * c) == eta * c * u;
    }
    assert 0.5 * eta * (uu - 2.0 * uc + cc) == 0.5 * eta * uu - eta * uc + 0.5 * eta * cc;
  }

  /** With lambda2 doubled Solve gives another weight, except within the threshold. */
  lemma SolveDoubled(p: Params, z: real, eta: real)
    requires Good(p) && eta > 0.0
    ensures Solve(Doubled(p), z, eta) == Solve(p, z, eta) <==> p.lambda2 == 0.0 || -p.lambda1 <= z <= p.lambda1
  {
    if !(-p.lambda1 <= z <= p.lambda1) && p.lambda2 != 0.0 {
      var s := if z > 0.0 then z - p.lambda1 else z + p.lambda1;
      var w, v, h := Solve(p, z, eta), Solve(Doubled(p), z, eta), eta + p.lambda2;
      assert w * h == s && v * (h + p.lambda2) == s;
      if w == v {
        SameProducts(w, h, p.lambda2, s);
      }
    }
  }

  lemma SameProducts(w: real, h: real, l: real, s: real)
    requires w * h == s && w * (h + l) == s && l != 0.0
    ensures w == 0.0
  {
    assert w * (h + l) == w * h + w * l;
  }

  /**
   * Solve minimises what its documentation says if and only if lambda2 is zero or
   * the argument is within the threshold; what the code minimises is Prox.
   */
  lemma DocumentedIff(p: Params, z: real, eta: real)
    requires Good(p) && eta > 0.0
    ensures (forall u :: Documented(p, z, eta, Solve(p, z, eta)) <= Documented(p, z, eta, u)) <==>
              p.lambda2 == 0.0 || -p.lambda1 <= z <= p.lambda1
  {
    hide Documented, Prox, Solve, Gap;
    var w, best := Solve(p, z, eta), Solve(Doubled(p), z, eta);
    SolveDoubled(p, z, eta);
    DocumentedIs(p, z, eta, w);
    if w == best {
      forall u
        ensures Documented(p, z, eta, w) <= Documented(p, z, eta, u)
      {
        DocumentedIs(p, z, eta, u);
        SolveMinimises(Doubled(p), z, eta, u);
        GapNonNegative(eta + 2.0 * p.lambda2, u - best);
      }
    } else {
      DocumentedIs(p, z, eta, best);
      SolveMinimises(Doubled(p), z, eta, w);
      GapPositive(eta + 2.0 * p.lambda2, w - best);
      assert Documented(p, z, eta, w) > Documented(p, z, eta, best);
    }
  }

  lemma GapNonNegative(h: real, d: real)
    requires h > 0.0
    ensures Gap(h, d) >= 0.0
  {
    if d != 0.0 {
      GapPositive(h, d);
    }
  }

  // ------------------------------------------------------------- one entry

  datatype Entry = Entry(w: real, z: real, sqCumGrad: real)

  const Fresh := Entry(0.0, 0.0, 0.0)

  /** The curvature handed to Solve, which must be positive. */
  function Eta(p: Params, sq: real): real
    requires p.alpha > 0.0
  {
    (p.beta + sq) / p.alpha
  }

  lemma EtaPositive(p: Params, sq: real)
    requires Good(p) && sq >= 0.0
    ensures Eta(p, sq) > 0.0
    ensures Eta(p, sq) == p.beta / p.alpha + sq / p.alpha
  {
  }

  /** The entry after a sequence of gradients. */
  ghost function After(p: Params, sqrt: real -> real, gs: seq<real>): (e: Entry)
    requires Good(p) && IsSqrt(sqrt)
    ensures e.sqCumGrad >= 0.0
  {
    if gs == [] then Fresh else Pushed(p, sqrt, After(p, sqrt, gs[..|gs| - 1]), gs[|gs| - 1])
  }

  /** One gradient. */
  ghost function Pushed(p: Params, sqrt: real -> real, before: Entry, g: real): (e: Entry)
    requires Good(p) && IsSqrt(sqrt)
    ensures e.sqCumGrad >= 0.0
  {
    NormAt(sqrt, before.sqCumGrad, g);
    var sq := NextNorm(sqrt, before.sqCumGrad, g);
    var z := NextZ(before.z, g, (sq - before.sqCumGrad) / p.alpha, before.w);
    EtaPositive(p, sq);
    Entry(Solve(p, -z, Eta(p, sq)), z, sq)
  }

  function NextZ(z: real, g: real, sigma: real, w: real): real {
    z + (g - sigma * w)
  }

  function NextNorm(sqrt: real -> real, n: real, g: real): real {
    sqrt(n * n + g * g)
  }

  lemma NormAt(sqrt: real -> real, n: real, g: real)
    requires IsSqrt(sqrt)
    ensures NextNorm(sqrt, n, g) >= 0.0
    ensures NextNorm(sqrt, n, g) * NextNorm(sqrt, n, g) == n * n + g * g
  {
    SquareNonNegative(n, 1.0);
    SquareNonNegative(g, 1.0);
  }

  /** The change of sq_cum_grad in step s, over alpha. */
  ghost function Sigma(p: Params, sqrt: real -> real, gs: seq<real>, s: nat): real
    requires Good(p) && IsSqrt(sqrt) && s < |gs|
  {
    (After(p, sqrt, gs[..s + 1]).sqCumGrad - After(p, sqrt, gs[..s]).sqCumGrad) / p.alpha
  }

  ghost function WeightBefore(p: Params, sqrt: real -> real, gs: seq<real>, s: nat): real
    requires Good(p) && IsSqrt(sqrt) && s < |gs|
  {
    After(p, sqrt, gs[..s]).w
  }

  /** The sum over the first n steps of g_s * u + sigma_s / 2 * (u - w_s)^2. */
  ghost function Steps(p: Params, sqrt: real -> real, gs: seq<real>, n: nat, u: real): real
    requires Good(p) && IsSqrt(sqrt) && n <= |gs|
  {
    if n == 0 then 0.0
    else
      Steps(p, sqrt, gs, n - 1, u) + Term(gs[n - 1], Sigma(p, sqrt, gs, n - 1), WeightBefore(p, sqrt, gs, n - 1), u)
  }

  function Term(g: real, sigma: real, w: real, u: real): real {
    g * u + 0.5 * sigma * ((u - w) * (u - w))
  }

  /** What follow-the-regularised-leader minimises after the gradients gs. */
  ghost function Objective(p: Params, sqrt: real -> real, gs: seq<real>, u: real): real
    requires Good(p) && IsSqrt(sqrt)
  {
    Steps(p, sqrt, gs, |gs|, u) + p.lambda1 * Abs(u) + 0.5 * (p.lambda2 + p.beta / p.alpha) * (u * u)
  }

  /** A quadratic in u. */
  function Quad(z: real, s: real, c: real, u: real): real {
    z * u + 0.5 * s * (u * u) + c
  }

  lemma TermIsQuad(g: real, sigma: real, w: real, u: real)
    ensures Term(g, sigma, w, u) == Quad(g - sigma * w, sigma, 0.5 * sigma * (w * w), u)
  {
    var uu, uw, ww := u * u, u * w, w * w;
    assert (u - w) * (u - w) == uu - 2.0 * uw + ww;
    assert sigma * w * u == sigma * uw;
    assert 0.5 * sigma * (uu - 2.0 * uw + ww) == 0.5 * sigma * uu - sigma * uw + 0.5 * sigma * ww;
    assert (g - sigma * w) * u == g * u - sigma * w * u;
  }

  lemma AddQuads(z: real, s: real, c: real, z': real, s': real, c': real, u: real)
    ensures Quad(z, s, c, u) + Quad(z', s', c', u) == Quad(z + z', s + s', c + c', u)
  {
    var uu := u * u;
    assert (z + z') * u == z * u + z' * u;
    assert 0.5 * (s + s') * uu == 0.5 * s * uu + 0.5 * s' * uu;
  }

  /** The part of the sum that does not depend on u. */
  ghost function Rest(p: Params, sqrt: real -> real, gs: seq<real>, n: nat): real
    requires Good(p) && IsSqrt(sqrt) && n <= |gs|
  {
    if n == 0 then 0.0
    else
      var w := WeightBefore(p, sqrt, gs, n - 1);
      Rest(p, sqrt, gs, n - 1) + 0.5 * Sigma(p, sqrt, gs, n - 1) * (w * w)
  }

  lemma DivMinus(a: real, b: real, c: real)
    requires c > 0.0
    ensures (a - b) / c == a / c - b / c
  {
  }

  lemma StepOfAfter(p: Params, sqrt: real -> real, gs: seq<real>, s: nat)
    requires Good(p) && IsSqrt(sqrt) && s < |gs|
    ensures var before, e := After(p, sqrt, gs[..s]), After(p, sqrt, gs[..s + 1]);
            && before.w == WeightBefore(p, sqrt, gs, s)
            && e.z == NextZ(before.z, gs[s], Sigma(p, sqrt, gs, s), before.w)
            && e.sqCumGrad / p.alpha == before.sqCumGrad / p.alpha + Sigma(p, sqrt, gs, s)
  {
    hide IsSqrt, Solve, Eta, NextNorm;
    assert gs[..s + 1][..s] == gs[..s];
    var before, e := After(p, sqrt, gs[..s]), After(p, sqrt, gs[..s + 1]);
    assert e == Pushed(p, sqrt, before, gs[s]);
    DivMinus(e.sqCumGrad, before.sqCumGrad, p.alpha);
  }

  lemma NothingYet(p: Params, sqrt: real -> real, gs: seq<real>, u: real)
    requires Good(p) && IsSqrt(sqrt)
    ensures After(p, sqrt, gs[..0]) == Fresh
    ensures Steps(p, sqrt, gs, 0, u) == 0.0 && Rest(p, sqrt, gs, 0) == 0.0
    ensures Quad(0.0, 0.0 / p.alpha, 0.0, u) == 0.0
  {
  }

  /** z and sq_cum_grad are all that has to be remembered of the gradients. */
  lemma {:induction false} StepsCollected(p: Params, sqrt: real -> real, gs: seq<real>, n: nat, u: real)
    requires Good(p) && IsSqrt(sqrt) && n <= |gs|
    ensures var e := After(p, sqrt, gs[..n]);
            Steps(p, sqrt, gs, n, u) == Quad(e.z, e.sqCumGrad / p.alpha, Rest(p, sqrt, gs, n), u)
  {
    hide IsSqrt, After, Sigma, WeightBefore, Quad, Term;
    if n > 0 {
      StepsCollected(p, sqrt, gs, n - 1, u);
      StepOfAfter(p, sqrt, gs, n - 1);
      var before := After(p, sqrt, gs[..n - 1]);
      var sigma, rest := Sigma(p, sqrt, gs, n - 1), Rest(p, sqrt, gs, n - 1);
      var g, w := gs[n - 1], before.w;
      assert gs[..n - 1 + 1] == gs[..n];
      assert Rest(p, sqrt, gs, n) == rest + 0.5 * sigma * (w * w);
      assert Steps(p, sqrt, gs, n, u) == Steps(p, sqrt, gs, n - 1, u) + Term(g, sigma, w, u);
      TermIsQuad(g, sigma, w, u);
      var z, c := g - sigma * w, 0.5 * sigma * (w * w);
      AddQuads(before.z, before.sqCumGrad / p.alpha, rest, z, sigma, c, u);
      var e := After(p, sqrt, gs[..n]);
      assert e.z == before.z + z;
      assert e.sqCumGrad / p.alpha == before.sqCumGrad / p.alpha + sigma;
    } else {
      NothingYet(p, sqrt, gs, u);
    }
  }

  lemma WeightSolves(p: Params, sqrt: real -> real, gs: seq<real>)
    requires Good(p) && IsSqrt(sqrt)
    ensures var e := After(p, sqrt, gs); Eta(p, e.sqCumGrad) > 0.0 && e.w == Solve(p, -e.z, Eta(p, e.sqCumGrad))
  {
    EtaPositive(p, After(p, sqrt, gs).sqCumGrad);
    hide Eta, IsSqrt, NextNorm;
  }

  /**
   * After any gradients the stored weight minimises the objective: moving away
   * from it costs at least half the curvature times the squared distance.
   */
  lemma Minimises(p: Params, sqrt: real -> real, gs: seq<real>, u: real)
    requires Good(p) && IsSqrt(sqrt)
    ensures var e := After(p, sqrt, gs);
            Objective(p, sqrt, gs, u) >= Objective(p, sqrt, gs, e.w) + Gap(Eta(p, e.sqCumGrad) + p.lambda2, u - e.w)
  {
    hide IsSqrt, After, Solve, Eta, Prox, Gap, Objective;
    var e := After(p, sqrt, gs);
    ObjectiveIsProx(p, sqrt, gs, u);
    ObjectiveIsProx(p, sqrt, gs, e.w);
    WeightSolves(p, sqrt, gs);
    SolveMinimises(p, -e.z, Eta(p, e.sqCumGrad), u);
  }

  lemma ObjectiveIsProx(p: Params, sqrt: real -> real, gs: seq<real>, u: real)
    requires Good(p) && IsSqrt(sqrt)
    ensures var e := After(p, sqrt, gs);
            Objective(p, sqrt, gs, u) == Prox(p, -e.z, Eta(p, e.sqCumGrad), u) + Rest(p, sqrt, gs, |gs|)
  {
    hide IsSqrt, After, Steps, Rest, Eta, Quad, Prox;
    assert gs[..|gs|] == gs;
    StepsCollected(p, sqrt, gs, |gs|, u);
    var e := After(p, sqrt, gs);
    EtaPositive(p, e.sqCumGrad);
    var s, b := e.sqCumGrad / p.alpha, p.beta / p.alpha;
    assert Eta(p, e.sqCumGrad) == b + s;
    ProxIsQuad(p, e.z, s, b, Rest(p, sqrt, gs, |gs|), u);
  }

  lemma ProxIsQuad(p: Params, z: real, s: real, b: real, c: real, u: real)
    ensures Prox(p, -z, b + s, u) + c
         == Quad(z, s, c, u) + p.lambda1 * Abs(u) + 0.5 * (p.lambda2 + b) * (u * u)
  {
    var uu := u * u;
    assert 0.5 * s * uu + 0.5 * (p.lambda2 + b) * uu == 0.5 * (b + s + p.lambda2) * uu;
    assert -(-z) * u == z * u;
  }

  /** No other weight does as well. */
  lemma UniqueMinimiser(p: Params, sqrt: real -> real, gs: seq<real>, u: real)
    requires Good(p) && IsSqrt(sqrt) && u != After(p, sqrt, gs).w
    ensures Objective(p, sqrt, gs, u) > Objective(p, sqrt, gs, After(p, sqrt, gs).w)
  {
    hide IsSqrt, After, Objective, Eta, Gap;
    var e := After(p, sqrt, gs);
    Minimises(p, sqrt, gs, u);
    WeightSolves(p, sqrt, gs);
    GapPositive(Eta(p, e.sqCumGrad) + p.lambda2, u - e.w);
  }

  ghost function SumSquares(gs: seq<real>): real {
    if gs == [] then 0.0 else SumSquares(gs[..|gs| - 1]) + gs[|gs| - 1] * gs[|gs| - 1]
  }

  /** sq_cum_grad is the norm of the gradients. */
  lemma {:induction false} NormOfGradients(p: Params, sqrt: real -> real, gs: seq<real>)
    requires Good(p) && IsSqrt(sqrt)
    ensures var n := After(p, sqrt, gs).sqCumGrad; n >= 0.0 && n * n == SumSquares(gs)
  {
    hide IsSqrt, After, NextNorm;
    if gs != [] {
      var front, g := gs[..|gs| - 1], gs[|gs| - 1];
      NormOfGradients(p, sqrt, front);
      assert gs == front + [g];
      AfterNext(p, sqrt, front, g);
      NormAt(sqrt, After(p, sqrt, front).sqCumGrad, g);
    } else {
      AfterNext(p, sqrt, gs, 0.0);
    }
  }

  // ------------------------------------------------------- the server's table

  ghost function NonZero(table: map<nat, Entry>): set<nat> {
    set k | k in table && table[k].w != 0.0
  }

  /** Every entry is what its own gradients lead to. */
  ghost predicate Fits(p: Params, sqrt: real -> real, table: map<nat, Entry>, pushed: map<nat, seq<real>>)
    requires Good(p) && IsSqrt(sqrt)
  {
    table.Keys == pushed.Keys && forall k :: k in table ==> table[k] == After(p, sqrt, pushed[k])
  }

  lemma FitsNext(p: Params, sqrt: real -> real, table: map<nat, Entry>, pushed: map<nat, seq<real>>, key: nat, g: real)
    requires Good(p) && IsSqrt(sqrt) && Fits(p, sqrt, table, pushed)
    ensures var val := if key in table then table[key] else Fresh;
            var gs := if key in pushed then pushed[key] else [];
            && Pushed(p, sqrt, val, g) == After(p, sqrt, gs + [g])
            && Fits(p, sqrt, table[key := Pushed(p, sqrt, val, g)], pushed[key := gs + [g]])
  {
    var gs := if key in pushed then pushed[key] else [];
    AfterNext(p, sqrt, gs, g);
    hide After, Pushed, IsSqrt;
  }

  lemma PushedIs(p: Params, sqrt: real -> real, val: Entry, g: real, sigma: real, z: real, w: real)
    requires Good(p) && IsSqrt(sqrt) && NextNorm(sqrt, val.sqCumGrad, g) >= 0.0
    requires sigma == (NextNorm(sqrt, val.sqCumGrad, g) - val.sqCumGrad) / p.alpha
    requires z == NextZ(val.z, g, sigma, val.w)
    requires Eta(p, NextNorm(sqrt, val.sqCumGrad, g)) > 0.0
    requires w == Solve(p, -z, Eta(p, NextNorm(sqrt, val.sqCumGrad, g)))
    ensures Pushed(p, sqrt, val, g) == Entry(w, z, NextNorm(sqrt, val.sqCumGrad, g))
  {
    hide Solve, Eta, NextNorm, NextZ, IsSqrt;
  }

  class FtrlServer {
    const params: Params
    const sqrt: real -> real
    const numServers: int
    var table: map<nat, Entry>
    var newW: int
    var ct: int
    ghost var pushed: map<nat, seq<real>>
    ghost var reported: int

    /** No change of sparsity is lost or counted twice. */
    ghost predicate Valid()
      reads this
    {
      && Good(params) && IsSqrt(sqrt)
      && Fits(params, sqrt, table, pushed)
      && newW + reported == |NonZero(table)|
    }

    constructor (params: Params, sqrt: real -> real, numServers: int)
      requires Good(params) && IsSqrt(sqrt)
      ensures Valid() && this.params == params && this.sqrt == sqrt && this.numServers == numServers
      ensures table == map[] && reported == 0
    {
      this.params, this.sqrt, this.numServers := params, sqrt, numServers;
      table, newW, ct, pushed, reported := map[], 0, 0, map[], 0;
    }

    /** One gradient for one key; a key seen for the first time starts from a fresh entry. */
    method Push(key: nat, g: real)
      requires Valid()
      modifies this`table, this`newW, this`pushed
      ensures Valid()
      ensures pushed == old(pushed)[key := (if key in old(pushed) then old(pushed)[key] else []) + [g]]
      ensures table == old(table)[key := After(params, sqrt, pushed[key])]
    {
      hide After, IsSqrt, Solve, Eta, NonZero, Fits, Pushed;
      var val := if key in table then table[key] else Fresh;
      ghost var gs := if key in pushed then pushed[key] else [];
      FitsNext(params, sqrt, table, pushed, key, g);
      var sqrtN := val.sqCumGrad;
      NormAt(sqrt, sqrtN, g);
      var sq := NextNorm(sqrt, sqrtN, g);
      var oldW := val.w;
      var sigma := (sq - sqrtN) / params.alpha;
      var z := val.z + (g - sigma * oldW);
      EtaPositive(params, sq);
      var w := Solve(params, -z, Eta(params, sq));
      PushedIs(params, sqrt, val, g, sigma, z, w);
      SparsityStep(table, key, Entry(w, z, sq));
      table := table[key := Entry(w, z, sq)];
      pushed := pushed[key := gs + [g]];
      Update(w, oldW);
    }

    method Update(curW: real, oldW: real)
      modifies this`newW
      ensures newW - old(newW) == (if curW != 0.0 then 1 else 0) - (if oldW != 0.0 then 1 else 0)
    {
      if oldW == 0.0 && curW != 0.0 {
        newW := newW + 1;
      } else if oldW != 0.0 && curW == 0.0 {
        newW := newW - 1;
      }
    }

    /** Reports the change of sparsity once per round of servers. */
    method Finish(hasReporter: bool)
      requires Valid()
      modifies this`ct, this`newW, this`reported
      ensures Valid()
      ensures old(ct) + 1 >= numServers && hasReporter ==>
                newW == 0 && ct == 0 && reported == |NonZero(table)|
      ensures !(old(ct) + 1 >= numServers && hasReporter) ==>
                newW == old(newW) && ct == old(ct) + 1 && reported == old(reported)
    {
      ct := ct + 1;
      if ct >= numServers && hasReporter {
        reported := reported + newW;
        newW, ct := 0, 0;
      }
    }
  }

  lemma AfterNext(p: Params, sqrt: real -> real, gs: seq<real>, g: real)
    requires Good(p) && IsSqrt(sqrt)
    ensures After(p, sqrt, []) == Fresh
    ensures After(p, sqrt, gs + [g]) == Pushed(p, sqrt, After(p, sqrt, gs), g)
    ensures After(p, sqrt, gs + [g]).sqCumGrad == NextNorm(sqrt, After(p, sqrt, gs).sqCumGrad, g)
  {
    assert (gs + [g])[..|gs|] == gs;
    hide IsSqrt;
  }

  lemma SparsityStep(table: map<nat, Entry>, key: nat, e: Entry)
    ensures |NonZero(table[key := e])| - |NonZero(table)|
         == (if e.w != 0.0 then 1 else 0) - (if key in table && table[key].w != 0.0 then 1 else 0)
  {
    var others := NonZero(table) - {key};
    assert NonZero(table[key := e]) == if e.w != 0.0 then others + {key} else others;
    assert NonZero(table) == if key in NonZero(table) then others + {key} else others;
  }
}
