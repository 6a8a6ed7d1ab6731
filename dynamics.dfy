/**
 * The epidemic model: health cost `ch`, stage cost `g` and infection
 * probability `q`.  The floating-point leaves `std::pow`, `std::exp` and
 * boost's binomial pdf are given as a `Numerics` record of functions; what is
 * assumed of them is stated by the predicates below and used only as lemma
 * hypotheses.
 */
module Dynamics {
  import opened CInt
  import opened Actions

  /** An IEEE double as far as the generator can observe it. */
  datatype Double = Finite(v: real) | PosInf | NegInf | NaN {
    predicate IsInf() {
      PosInf? || NegInf?
    }

    predicate IsNaN() {
      NaN?
    }
  }

  /** IEEE division of two finite doubles (rounding not modelled). */
  function Divide(x: real, y: real): Double {
    if y != 0.0 then Finite(x / y)
    else if x == 0.0 then NaN
    else if x > 0.0 then PosInf
    else NegInf
  }

  /**
   * The foreign numerics: `pow(x, e)`, `exp(x)` and
   * `binomialPdf(n, p, k)` = boost's pdf of Binomial(n, p) at k.
   */
  datatype Numerics = Numerics(
    pow: (real, real) -> real,
    exp: real -> real,
    binomialPdf: (int, real, int) -> Double)

  /** The exponent of the health cost, `(populationSize - state)^1.1`. */
  const HealthExponent: real := 1.1

  /** Assumed of `std::exp`: on non-positive arguments it lies in (0, 1]. */
  ghost predicate ExpBounded(exp: real -> real) {
    forall x: real :: x <= 0.0 ==> 0.0 < exp(x) <= 1.0
  }

  /** Assumed of boost's pdf: every finite value it returns is non-negative. */
  ghost predicate PdfNonNegative(pdf: (int, real, int) -> Double) {
    forall n: int, p: real, k: int :: pdf(n, p, k).Finite? ==> pdf(n, p, k).v >= 0.0
  }

  /** Assumed of `std::pow(., 1.1)`: non-decreasing on non-negative arguments. */
  ghost predicate PowMonotone(pow: (real, real) -> real) {
    forall x: real, y: real :: 0.0 <= x <= y ==> pow(x, HealthExponent) <= pow(y, HealthExponent)
  }

  /**
   * The model parameters: population size, the sizes of the two action sets,
   * efficacies `r` (hygiene) and `lambda` (distancing; read as integers),
   * financial costs, quality-of-life values and the three objective weights.
   */
  datatype Params = Params(
    populationSize: int,
    numA1: int,
    numA2: int,
    r: seq<real>,
    lambda: seq<int>,
    cfA1: seq<real>,
    cfA2: seq<real>,
    cqA1: seq<real>,
    cqA2: seq<real>,
    weights: seq<real>)

  /** Every per-lever vector has the length of its action set, and there are three weights. */
  predicate WellFormed(p: Params) {
    p.numA1 > 0 && p.numA2 > 0 && p.populationSize >= 0 &&
    |p.r| == p.numA1 && |p.lambda| == p.numA2 &&
    |p.cfA1| == p.numA1 && |p.cfA2| == p.numA2 &&
    |p.cqA1| == p.numA1 && |p.cqA2| == p.numA2 &&
    |p.weights| == 3
  }

  function NumStates(p: Params): int {
    p.populationSize + 1
  }

  function NumActions(p: Params): int {
    p.numA1 * p.numA2
  }

  /** `ch`: the health cost `(populationSize - state)^1.1`. */
  function Ch(p: Params, num: Numerics, state: int): real {
    num.pow((p.populationSize - state) as real, HealthExponent)
  }

  /** `g`: the stage cost of taking `action` in `state`. */
  function G(p: Params, num: Numerics, state: int, action: int): real
    requires WellFormed(p) && 0 <= action < NumActions(p)
  {
    A2ijInRange(action, p.numA1, p.numA2);
    var (a1, a2) := A2ij(action, p.numA1);
    var cf := p.cfA1[a1] + p.cfA2[a2];
    var cq := p.cqA1[a1] * p.cqA2[a2];
    p.weights[0] * cf - p.weights[1] * cq + p.weights[2] * Ch(p, num, state)
  }

  /** `q`: the probability that one susceptible individual is infected in one step. */
  function Q(p: Params, num: Numerics, state: int, action: int): real
    requires WellFormed(p) && 0 <= action < NumActions(p) && p.populationSize != 0
  {
    A2ijInRange(action, p.numA1, p.numA2);
    var (a1, a2) := A2ij(action, p.numA1);
    var beta := 1.0 - state as real / p.populationSize as real;
    1.0 - num.exp(-beta * p.r[a1] * p.lambda[a2] as real)
  }

  /** All efficacies are non-negative. */
  predicate EfficaciesNonNegative(p: Params) {
    (forall i :: 0 <= i < |p.r| ==> p.r[i] >= 0.0) &&
    (forall j :: 0 <= j < |p.lambda| ==> p.lambda[j] >= 0)
  }

  /**
   * With non-negative efficacies and an `exp` bounded on non-positive
   * arguments, the infection probability of every state in [0, populationSize]
   * lies in [0, 1).
   */
  lemma QInUnitInterval(p: Params, num: Numerics, state: int, action: int)
    requires WellFormed(p) && 0 <= action < NumActions(p) && p.populationSize > 0
    requires 0 <= state <= p.populationSize
    requires EfficaciesNonNegative(p) && ExpBounded(num.exp)
    ensures 0.0 <= Q(p, num, state, action) < 1.0
  {
    A2ijInRange(action, p.numA1, p.numA2);
    var (a1, a2) := A2ij(action, p.numA1);
    var beta := 1.0 - state as real / p.populationSize as real;
    assert 0.0 <= beta by {
      assert state as real / p.populationSize as real <= 1.0;
    }
    var rate := beta * p.r[a1];
    assert rate >= 0.0;
    assert rate * p.lambda[a2] as real >= 0.0;
    assert -beta * p.r[a1] * p.lambda[a2] as real == -(rate * p.lambda[a2] as real);
  }

  /**
   * The health term dominates: for a fixed action and a non-negative health
   * weight, the stage cost does not decrease as the number of infected
   * `populationSize - state` grows.
   */
  lemma StageCostMonotoneInInfected(p: Params, num: Numerics, s1: int, s2: int, action: int)
    requires WellFormed(p) && 0 <= action < NumActions(p)
    requires PowMonotone(num.pow) && p.weights[2] >= 0.0
    requires s1 <= s2 <= p.populationSize
    ensures G(p, num, s1, action) >= G(p, num, s2, action)
  {
    var x1 := (p.populationSize - s1) as real;
    var x2 := (p.populationSize - s2) as real;
    assert num.pow(x2, HealthExponent) <= num.pow(x1, HealthExponent);
    assert p.weights[2] * Ch(p, num, s2) <= p.weights[2] * Ch(p, num, s1);
  }
}
