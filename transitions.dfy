/**
 * The transition kernel: for each (state, action) row, either the absorbing
 * unit row, or a window of at most 101 binomial pmf values around
 * `trunc(state * q)`, renormalised by their sum and written at columns
 * `populationSize - i`; or an overflow error when a pmf value is inf or NaN.
 */
module Transitions {
  import opened Wrappers
  import opened CInt
  import opened Dynamics

  /** `numTransitions`: the window spans this many steps, so it holds one value more. */
  const NumTransitions: int := 100

  /** The length of the `binomValues` buffer. */
  const BufferSize: int := NumTransitions + 1

  /**
   * The window [start, end] of infection counts for a row of `state` with
   * infection probability `q`.  Whatever `q` is, the window stays inside
   * [0, state] and never spans more than the buffer.
   */
  function Window(state: int, q: real): (w: (int, int))
    ensures 0 <= w.0 && w.1 <= state
    ensures w.1 - w.0 <= NumTransitions && w.1 - w.0 < BufferSize
  {
    var ev := Trunc(state as real * q);
    (Max(0, ev - NumTransitions / 2), Min(state, ev + NumTransitions / 2))
  }

  /** For a probability `q` the window is non-empty and contains the expected count `trunc(state * q)`. */
  lemma WindowContainsExpectation(state: nat, q: real)
    requires 0.0 <= q <= 1.0
    ensures 0 <= Trunc(state as real * q) <= state
    ensures Window(state, q).0 <= Trunc(state as real * q) <= Window(state, q).1
  {
    var s := state as real;
    ProductNonNegative(s, q);
    ProductNonNegative(s, 1.0 - q);
    assert s * (1.0 - q) == s - s * q;
  }

  lemma ProductNonNegative(a: real, b: real)
    requires 0.0 <= a && 0.0 <= b
    ensures 0.0 <= a * b
  {
  }

  /** The pmf values of one row's window, in order of increasing infection count. */
  function WindowPmf(pdf: (int, real, int) -> Double, state: int, q: real, start: int, end: int): seq<Double> {
    seq(if start <= end then end - start + 1 else 0, k => pdf(state, q, start + k))
  }

  /** The overflow test of the source: the value is infinite or not a number. */
  predicate Overflowed(d: Double) {
    d.IsInf() || d.IsNaN()
  }

  /** The position of the first overflowed value, if any. */
  function FirstOverflow(vals: seq<Double>): (k: Option<nat>)
    ensures k.None? <==> forall j :: 0 <= j < |vals| ==> vals[j].Finite?
    ensures k.Some? ==> k.value < |vals| && Overflowed(vals[k.value])
    ensures k.Some? ==> forall j :: 0 <= j < k.value ==> vals[j].Finite?
  {
    if vals == [] then None
    else if Overflowed(vals[0]) then Some(0)
    else match FirstOverflow(vals[1..])
      case None => None
      case Some(j) => Some(j + 1)
  }

  /** A value that overflows after a run of finite ones is the first overflow. */
  lemma FirstOverflowAt(vals: seq<Double>, k: int)
    requires 0 <= k < |vals| && Overflowed(vals[k])
    requires forall j :: 0 <= j < k ==> vals[j].Finite?
    ensures FirstOverflow(vals) == Some(k)
  {
    var f := FirstOverflow(vals);
    assert f.Some?;
  }

  /** The real values of a run of finite doubles. */
  function Magnitudes(vals: seq<Double>): (xs: seq<real>)
    requires forall j :: 0 <= j < |vals| ==> vals[j].Finite?
    ensures |xs| == |vals| && forall j :: 0 <= j < |vals| ==> vals[j] == Finite(xs[j])
  {
    seq(|vals|, j requires 0 <= j < |vals| => vals[j].v)
  }

  /** Left-to-right sum, the order in which the source accumulates `sum`. */
  function Sum(xs: seq<real>): real {
    if xs == [] then 0.0 else Sum(xs[..|xs| - 1]) + xs[|xs| - 1]
  }

  /** The value of a finite double; 0 for the others. */
  function ValueOf(d: Double): real {
    if d.Finite? then d.v else 0.0
  }

  /** The running `sum` of the source after its first `n` values. */
  function PrefixSum(vals: seq<Double>, n: nat): real
    requires n <= |vals|
  {
    if n == 0 then 0.0 else PrefixSum(vals, n - 1) + ValueOf(vals[n - 1])
  }

  /** Over finite values the running sum is the sum of their magnitudes. */
  lemma {:induction false} PrefixSumIsSum(vals: seq<Double>, n: nat)
    requires n <= |vals| && forall j :: 0 <= j < |vals| ==> vals[j].Finite?
    ensures PrefixSum(vals, n) == Sum(Magnitudes(vals[..n]))
  {
    if n > 0 {
      PrefixSumIsSum(vals, n - 1);
      var done := vals[..n];
      assert done[..n - 1] == vals[..n - 1];
      assert Magnitudes(done)[..n - 1] == Magnitudes(vals[..n - 1]);
    }
  }

  /**
   * The columns written for the first `count` window values, one at a time:
   * column `pop - (start + k)` holds `mags[k] / total`.
   */
  function NormalisedColumns(pop: int, start: int, mags: seq<real>, total: real, count: nat): map<int, Double>
    requires count <= |mags|
  {
    if count == 0 then map[]
    else NormalisedColumns(pop, start, mags, total, count - 1)[pop - start - (count - 1) := Divide(mags[count - 1], total)]
  }

  /** The value written at column `c`: the pmf value of `pop - c` infections over the window sum. */
  function NormalisedAt(pop: int, start: int, mags: seq<real>, total: real, c: int): Double
    requires 0 <= pop - start - c < |mags|
  {
    Divide(mags[pop - start - c], total)
  }

  /** The first `count` window values occupy exactly the columns (pop - start - count, pop - start]. */
  lemma {:induction false} NormalisedColumnsAt(pop: int, start: int, mags: seq<real>, total: real, count: nat, c: int)
    requires count <= |mags|
    ensures c in NormalisedColumns(pop, start, mags, total, count) <==> pop - start - count < c <= pop - start
    ensures c in NormalisedColumns(pop, start, mags, total, count) ==>
              NormalisedColumns(pop, start, mags, total, count)[c] == NormalisedAt(pop, start, mags, total, c)
  {
    if count > 0 {
      NormalisedColumnsAt(pop, start, mags, total, count - 1, c);
    }
  }

  /** The outcome of one row: the columns it writes, or the infection count whose pmf overflowed. */
  datatype RowOutcome = Written(cols: map<int, Double>) | PdfOverflow(infections: int)

  /** The window and its pmf values for a non-absorbing row. */
  datatype RowWindow = RowWindow(q: real, start: int, end: int, pmf: seq<Double>)

  function WindowOf(p: Params, num: Numerics, state: int, action: int): (w: RowWindow)
    requires WellFormed(p) && 0 <= state < p.populationSize && 0 <= action < NumActions(p)
    ensures 0 <= w.start && w.end <= state && |w.pmf| <= BufferSize
    ensures |w.pmf| == if w.start <= w.end then w.end - w.start + 1 else 0
  {
    var q := Q(p, num, state, action);
    var (start, end) := Window(state, q);
    RowWindow(q, start, end, WindowPmf(num.binomialPdf, state, q, start, end))
  }

  /** The window of a row, from its infection probability and its bounds. */
  lemma WindowOfSteps(p: Params, num: Numerics, state: int, action: int, q: real, start: int, end: int)
    requires WellFormed(p) && 0 <= state < p.populationSize && 0 <= action < NumActions(p)
    requires q == Q(p, num, state, action) && (start, end) == Window(state, q)
    ensures WindowOf(p, num, state, action) == RowWindow(q, start, end, WindowPmf(num.binomialPdf, state, q, start, end))
  {
  }

  /**
   * The row written from a window: the first pmf value that is inf or NaN
   * stops it; otherwise each value over the window's sum, at its column.
   */
  function WindowRow(pop: int, w: RowWindow): RowOutcome {
    match FirstOverflow(w.pmf)
    case Some(k) => PdfOverflow(w.start + k)
    case None =>
      var mags := Magnitudes(w.pmf);
      Written(NormalisedColumns(pop, w.start, mags, Sum(mags), |mags|))
  }

  /** The row of `(state, action)` as the generator writes it. */
  function TransitionRow(p: Params, num: Numerics, state: int, action: int): RowOutcome
    requires WellFormed(p) && 0 <= state <= p.populationSize && 0 <= action < NumActions(p)
  {
    if state == p.populationSize then Written(map[p.populationSize := Finite(1.0)])
    else WindowRow(p.populationSize, WindowOf(p, num, state, action))
  }

  /** The absorbing state's row is the unit vector at column `populationSize`, whatever the numerics. */
  lemma AbsorbingRow(p: Params, num: Numerics, other: Numerics, action: int)
    requires WellFormed(p) && 0 <= action < NumActions(p)
    ensures TransitionRow(p, num, p.populationSize, action) == Written(map[p.populationSize := Finite(1.0)])
    ensures TransitionRow(p, num, p.populationSize, action) == TransitionRow(p, other, p.populationSize, action)
    ensures |TransitionRow(p, num, p.populationSize, action).cols| == 1
  {
    assert map[p.populationSize := Finite(1.0)].Keys == {p.populationSize};
  }

  /** A written row only has columns in [populationSize - state, populationSize], inside [0, numStates). */
  lemma RowColumnsInRange(p: Params, num: Numerics, state: int, action: int, c: int)
    requires WellFormed(p) && 0 <= state <= p.populationSize && 0 <= action < NumActions(p)
    requires TransitionRow(p, num, state, action).Written? && c in TransitionRow(p, num, state, action).cols
    ensures p.populationSize - state <= c <= p.populationSize
    ensures 0 <= c < NumStates(p)
  {
    if state < p.populationSize {
      var w := WindowOf(p, num, state, action);
      var mags := Magnitudes(w.pmf);
      NormalisedColumnsAt(p.populationSize, w.start, mags, Sum(mags), |mags|, c);
    }
  }

  /**
   * An overflow is reported at the first infection count of the window whose
   * pmf value is inf or NaN; all earlier values of the window are finite.
   */
  lemma OverflowIsFirstInWindow(p: Params, num: Numerics, state: int, action: int)
    requires WellFormed(p) && 0 <= state < p.populationSize && 0 <= action < NumActions(p)
    requires TransitionRow(p, num, state, action).PdfOverflow?
    ensures var w := WindowOf(p, num, state, action);
            var i := TransitionRow(p, num, state, action).infections;
            w.start <= i <= w.end &&
            Overflowed(num.binomialPdf(state, w.q, i)) &&
            forall j :: w.start <= j < i ==> num.binomialPdf(state, w.q, j).Finite?
  {
    var w := WindowOf(p, num, state, action);
    var k := FirstOverflow(w.pmf).value;
    forall j | w.start <= j < w.start + k
      ensures num.binomialPdf(state, w.q, j).Finite?
    {
      assert w.pmf[j - w.start] == num.binomialPdf(state, w.q, j);
    }
  }

  // ----- Row sums -----

  /** The finite value at column `c`, or 0 where nothing finite is written. */
  function ColumnValue(cols: map<int, Double>, c: int): real {
    if c in cols && cols[c].Finite? then cols[c].v else 0.0
  }

  /** The sum of a row's finite values over the columns [lo, hi). */
  function ColumnSum(cols: map<int, Double>, lo: int, hi: int): real
    decreases hi - lo
  {
    if hi <= lo then 0.0 else ColumnValue(cols, lo) + ColumnSum(cols, lo + 1, hi)
  }

  lemma {:induction false} ColumnSumSplit(cols: map<int, Double>, lo: int, mid: int, hi: int)
    requires lo <= mid <= hi
    ensures ColumnSum(cols, lo, hi) == ColumnSum(cols, lo, mid) + ColumnSum(cols, mid, hi)
    decreases mid - lo
  {
    if lo < mid {
      ColumnSumSplit(cols, lo + 1, mid, hi);
    }
  }

  lemma {:induction false} ColumnSumEmpty(cols: map<int, Double>, lo: int, hi: int)
    requires forall c :: lo <= c < hi ==> c !in cols
    ensures ColumnSum(cols, lo, hi) == 0.0
    decreases hi - lo
  {
    if lo < hi {
      ColumnSumEmpty(cols, lo + 1, hi);
    }
  }

  lemma {:induction false} SumScaled(xs: seq<real>, total: real)
    requires total != 0.0
    ensures Sum(seq(|xs|, k requires 0 <= k < |xs| => xs[k] / total)) == Sum(xs) / total
  {
    var ys := seq(|xs|, k requires 0 <= k < |xs| => xs[k] / total);
    if xs != [] {
      var n := |xs| - 1;
      SumScaled(xs[..n], total);
      assert ys[..n] == seq(n, k requires 0 <= k < n => xs[..n][k] / total);
    }
  }

  /** Summing the window's columns from the lowest column up adds the normalised values of a prefix. */
  lemma {:induction false} WindowColumnSum(pop: int, start: int, mags: seq<real>, total: real, j: nat)
    requires total != 0.0 && j <= |mags|
    ensures ColumnSum(NormalisedColumns(pop, start, mags, total, |mags|), pop - start - |mags| + 1 + j, pop - start + 1)
         == Sum(seq(|mags| - j, k requires 0 <= k < |mags| - j => mags[k] / total))
    decreases |mags| - j
  {
    var cols := NormalisedColumns(pop, start, mags, total, |mags|);
    var lo := pop - start - |mags| + 1 + j;
    var n := |mags| - j;
    var ys := seq(n, k requires 0 <= k < n => mags[k] / total);
    if j < |mags| {
      WindowColumnSum(pop, start, mags, total, j + 1);
      assert ys[..n - 1] == seq(n - 1, k requires 0 <= k < n - 1 => mags[k] / total);
      NormalisedColumnsAt(pop, start, mags, total, |mags|, lo);
      assert ColumnValue(cols, lo) == mags[n - 1] / total;
    }
  }

  /** Only the window's columns carry mass: the sum over [0, pop] is the sum over the window's columns. */
  lemma NormalisedOutsideWindow(pop: int, start: int, mags: seq<real>, total: real)
    requires 0 <= pop - start - |mags| + 1 && start >= 0
    ensures ColumnSum(NormalisedColumns(pop, start, mags, total, |mags|), 0, pop + 1)
         == ColumnSum(NormalisedColumns(pop, start, mags, total, |mags|), pop - start - |mags| + 1, pop - start + 1)
  {
    var cols := NormalisedColumns(pop, start, mags, total, |mags|);
    var lo := pop - start - |mags| + 1;
    var hi := pop - start + 1;
    ColumnSumSplit(cols, 0, lo, pop + 1);
    ColumnSumSplit(cols, lo, hi, pop + 1);
    forall c | c < lo || hi <= c
      ensures c !in cols
    {
      NormalisedColumnsAt(pop, start, mags, total, |mags|, c);
    }
    ColumnSumEmpty(cols, 0, lo);
    ColumnSumEmpty(cols, hi, pop + 1);
  }

  /** The normalised window, laid out at its columns, sums to 1 over [0, pop] when the window lies in [0, pop]. */
  lemma NormalisedSumsToOne(pop: int, start: int, mags: seq<real>)
    requires Sum(mags) != 0.0
    requires 0 <= pop - start - |mags| + 1 && start >= 0
    ensures ColumnSum(NormalisedColumns(pop, start, mags, Sum(mags), |mags|), 0, pop + 1) == 1.0
  {
    var total := Sum(mags);
    NormalisedOutsideWindow(pop, start, mags, total);
    WindowColumnSum(pop, start, mags, total, 0);
    SumScaled(mags, total);
    var ys := seq(|mags|, k requires 0 <= k < |mags| => mags[k] / total);
    assert ys == seq(|mags| - 0, k requires 0 <= k < |mags| - 0 => mags[k] / total);
    assert Sum(ys) == total / total == 1.0;
  }

  /**
   * Renormalisation: when the window's pmf values are finite and their sum is
   * non-zero, the row's values over all columns [0, numStates) add up to exactly 1.
   */
  lemma RowSumsToOne(p: Params, num: Numerics, state: int, action: int)
    requires WellFormed(p) && 0 <= state < p.populationSize && 0 <= action < NumActions(p)
    requires TransitionRow(p, num, state, action).Written?
    requires Sum(Magnitudes(WindowOf(p, num, state, action).pmf)) != 0.0
    ensures ColumnSum(TransitionRow(p, num, state, action).cols, 0, NumStates(p)) == 1.0
  {
    var w := WindowOf(p, num, state, action);
    NormalisedSumsToOne(p.populationSize, w.start, Magnitudes(w.pmf));
  }

  lemma {:induction false} ZeroSumOfNonNegative(xs: seq<real>, k: int)
    requires forall j :: 0 <= j < |xs| ==> xs[j] >= 0.0
    requires Sum(xs) == 0.0 && 0 <= k < |xs|
    ensures xs[k] == 0.0
  {
    var n := |xs| - 1;
    SumNonNegative(xs[..n]);
    if k < n {
      ZeroSumOfNonNegative(xs[..n], k);
    }
  }

  lemma {:induction false} SumNonNegative(xs: seq<real>)
    requires forall j :: 0 <= j < |xs| ==> xs[j] >= 0.0
    ensures Sum(xs) >= 0.0
  {
    if xs != [] {
      SumNonNegative(xs[..|xs| - 1]);
    }
  }

  /**
   * The one case renormalisation cannot handle: if every pmf value of the
   * window is zero, the source divides 0 by 0 and writes NaN in every column.
   */
  lemma ZeroMassRowIsNaN(p: Params, num: Numerics, state: int, action: int, c: int)
    requires WellFormed(p) && 0 <= state < p.populationSize && 0 <= action < NumActions(p)
    requires PdfNonNegative(num.binomialPdf)
    requires TransitionRow(p, num, state, action).Written?
    requires Sum(Magnitudes(WindowOf(p, num, state, action).pmf)) == 0.0
    requires c in TransitionRow(p, num, state, action).cols
    ensures TransitionRow(p, num, state, action).cols[c] == NaN
  {
    var w := WindowOf(p, num, state, action);
    var mags := Magnitudes(w.pmf);
    forall j | 0 <= j < |mags|
      ensures mags[j] >= 0.0
    {
      assert w.pmf[j] == num.binomialPdf(state, w.q, w.start + j);
    }
    NormalisedColumnsAt(p.populationSize, w.start, mags, 0.0, |mags|, c);
    ZeroSumOfNonNegative(mags, p.populationSize - w.start - c);
    assert NormalisedAt(p.populationSize, w.start, mags, 0.0, c) == NaN;
  }

  /**
   * With a non-negative pdf, every entry of a written row is a probability:
   * finite and in [0, 1].  This is the absorbing row's 1, or a pmf value over
   * the window's sum when that sum is not zero (for a zero sum see `ZeroMassRowIsNaN`).
   */
  lemma RowEntriesAreProbabilities(p: Params, num: Numerics, state: int, action: int, c: int)
    requires WellFormed(p) && 0 <= state <= p.populationSize && 0 <= action < NumActions(p)
    requires PdfNonNegative(num.binomialPdf)
    requires TransitionRow(p, num, state, action).Written?
    requires state < p.populationSize ==> Sum(Magnitudes(WindowOf(p, num, state, action).pmf)) != 0.0
    requires c in TransitionRow(p, num, state, action).cols
    ensures TransitionRow(p, num, state, action).cols[c].Finite?
    ensures 0.0 <= TransitionRow(p, num, state, action).cols[c].v <= 1.0
  {
    if state < p.populationSize {
      var w := WindowOf(p, num, state, action);
      var mags := Magnitudes(w.pmf);
      var total := Sum(mags);
      forall j | 0 <= j < |mags|
        ensures mags[j] >= 0.0
      {
        assert w.pmf[j] == num.binomialPdf(state, w.q, w.start + j);
      }
      NormalisedColumnsAt(p.populationSize, w.start, mags, total, |mags|, c);
      var k := p.populationSize - w.start - c;
      ElementAtMostSum(mags, k);
      RatioInUnitInterval(mags[k], total);
      assert NormalisedAt(p.populationSize, w.start, mags, total, c) == Finite(mags[k] / total);
    }
  }

  /** No single non-negative term exceeds the sum. */
  lemma {:induction false} ElementAtMostSum(xs: seq<real>, k: int)
    requires forall j :: 0 <= j < |xs| ==> xs[j] >= 0.0
    requires 0 <= k < |xs|
    ensures xs[k] <= Sum(xs)
  {
    var n := |xs| - 1;
    if k < n {
      ElementAtMostSum(xs[..n], k);
    } else {
      SumNonNegative(xs[..n]);
    }
  }

  lemma RatioInUnitInterval(a: real, b: real)
    requires 0.0 <= a <= b && b != 0.0
    ensures 0.0 <= a / b <= 1.0
  {
  }
}
