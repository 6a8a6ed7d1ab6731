/**
 * The generator object: its configuration fields, the derived sizes, and the
 * two matrices it assembles over the rows this rank owns.
 */
module DiseaseModel {
  import opened Wrappers
  import opened CInt
  import opened Dynamics
  import opened Partition
  import opened Transitions
  import opened RowMatrix
  import opened Kernel
  import opened Options
  import opened Costs

  class InfectiousDiseaseModel {
    /** The sizes of the two action sets (hygiene measures, social distancing). */
    const numA1: nat
    const numA2: nat
    /** This process's rank and the number of ranks. */
    const rank: int
    const size: int
    /** The floating-point leaves the model evaluates. */
    const numerics: Numerics

    var populationSize: int
    var discountFactor: real
    var r: seq<real>
    var lambda: seq<int>
    var cfA1: seq<real>
    var cfA2: seq<real>
    var cqA1: seq<real>
    var cqA2: seq<real>
    var weights: seq<real>
    var maxIterPI: int
    var maxIterKSP: int
    var numPIRuns: int
    var rtolKSP: real
    var atolPI: real
    var filePolicy: string
    var fileCost: string
    var fileStats: string
    var mode: Mode

    var numStates: int
    var numActions: int
    var localNumStates: int

    /** The stage cost matrix (state x action) and the rows this rank owns. */
    var stageCostMatrix: CostMatrix
    var gStart: int
    var gEnd: int

    /** The transition matrix (state*numActions + action x next state) and the rows this rank owns. */
    var transitionProbabilityTensor: Matrix
    var pStart: int
    var pEnd: int

    constructor (numA1: nat, numA2: nat, rank: int, size: int, numerics: Numerics)
      requires numA1 > 0 && numA2 > 0 && 0 <= rank < size
      ensures this.numA1 == numA1 && this.numA2 == numA2
      ensures this.rank == rank && this.size == size && this.numerics == numerics
      ensures stageCostMatrix == map[] && transitionProbabilityTensor == map[]
    {
      this.numA1, this.numA2 := numA1, numA2;
      this.rank, this.size := rank, size;
      this.numerics := numerics;
      populationSize, discountFactor := 0, 0.0;
      r, lambda, cfA1, cfA2, cqA1, cqA2, weights := [], [], [], [], [], [], [];
      maxIterPI, maxIterKSP, numPIRuns := 0, 0, 0;
      rtolKSP, atolPI := 0.0, 0.0;
      filePolicy, fileCost, fileStats := "", "", "";
      mode := MinCost;
      numStates, numActions, localNumStates := 0, 0, 0;
      stageCostMatrix, gStart, gEnd := map[], 0, 0;
      transitionProbabilityTensor, pStart, pEnd := map[], 0, 0;
    }

    /** The model parameters held in the fields. */
    function Parameters(): Params
      reads this`populationSize, this`r, this`lambda, this`cfA1, this`cfA2, this`cqA1, this`cqA2, this`weights
    {
      Params(populationSize, numA1, numA2, r, lambda, cfA1, cfA2, cqA1, cqA2, weights)
    }

    /** The option values held in the fields. */
    function Settings(): Config
      reads this
    {
      Config(populationSize, discountFactor, r, lambda, cfA1, cfA2, cqA1, cqA2, weights,
             maxIterPI, maxIterKSP, numPIRuns, rtolKSP, atolPI, filePolicy, fileCost, fileStats, mode)
    }

    /** The fields hold a valid configuration and the sizes derived from it. */
    ghost predicate Configured()
      reads this`populationSize, this`r, this`lambda, this`cfA1, this`cfA2, this`cqA1, this`cqA2, this`weights,
            this`numStates, this`numActions, this`localNumStates
    {
      Sized() && localNumStates == LocalNumStates(numStates, rank, size)
    }

    /** The fields hold well-formed parameters and the matrix sizes derived from them. */
    ghost predicate Sized()
      reads this`populationSize, this`r, this`lambda, this`cfA1, this`cfA2, this`cqA1, this`cqA2, this`weights,
            this`numStates, this`numActions
    {
      0 <= rank < size && WellFormed(Parameters()) &&
      numStates == populationSize + 1 && numActions == numA1 * numA2
    }

    /** The first state this rank owns and the first one it does not. */
    ghost function OwnedStates(): (int, int)
      reads this`numStates
      requires 0 <= rank < size
    {
      (FirstOwnedState(numStates, size, rank), FirstOwnedState(numStates, size, rank + 1))
    }

    /** The row of (state, action) under the configured parameters and numerics. */
    ghost function Row(state: int, action: int): RowOutcome
      reads this`populationSize, this`r, this`lambda, this`cfA1, this`cfA2, this`cqA1, this`cqA2, this`weights,
            this`numStates, this`numActions
      requires Sized() && 0 <= state <= populationSize && 0 <= action < numActions
    {
      TransitionRow(Parameters(), numerics, state, action)
    }

    /**
     * `setValuesFromOptions`: read the options in order, stopping at the
     * first error, then derive `numStates`, `numActions` and `localNumStates`.
     */
    method SetValuesFromOptions(opts: RawOptions) returns (error: Option<ConfigError>)
      modifies this`populationSize, this`discountFactor, this`r, this`lambda, this`cfA1, this`cfA2,
               this`cqA1, this`cqA2, this`weights, this`maxIterPI, this`maxIterKSP, this`numPIRuns,
               this`rtolKSP, this`atolPI, this`filePolicy, this`fileCost, this`fileStats, this`mode,
               this`numStates, this`numActions, this`localNumStates
      requires 0 <= rank < size
      ensures var c := ReadConfig(opts, numA1, numA2);
              error == if c.Success? then None else Some(c.error)
      ensures var c := ReadConfig(opts, numA1, numA2);
              c.Success? ==>
                Settings() == c.value &&
                numStates == c.value.populationSize + 1 && numActions == numA1 * numA2 &&
                localNumStates == LocalNumStates(numStates, rank, size)
      ensures ReadConfig(opts, numA1, numA2).Failure? ==> unchanged(this)
    {
      var read := ReadConfig(opts, numA1, numA2);
      if read.Failure? {
        return Some(read.error);
      }
      Load(read.value);
      SetDerivedParameters();
      return None;
    }

    /** The derived sizes: one state per susceptible count 0 .. populationSize, one action per pair of levers. */
    method SetDerivedParameters()
      requires 0 <= rank < size
      modifies this`numStates, this`numActions, this`localNumStates
      ensures numStates == populationSize + 1 && numActions == numA1 * numA2
      ensures localNumStates == LocalNumStates(numStates, rank, size)
      ensures Settings() == old(Settings())
    {
      numStates := populationSize + 1;
      numActions := numA1 * numA2;
      localNumStates := if rank < CMod(numStates, size) then CDiv(numStates, size) + 1 else CDiv(numStates, size);
    }

    /** Store every option value in its field. */
    method Load(c: Config)
      modifies this`populationSize, this`discountFactor, this`r, this`lambda, this`cfA1, this`cfA2,
               this`cqA1, this`cqA2, this`weights, this`maxIterPI, this`maxIterKSP, this`numPIRuns,
               this`rtolKSP, this`atolPI, this`filePolicy, this`fileCost, this`fileStats, this`mode
      ensures Settings() == c
    {
      LoadParameters(c);
      LoadSolverSettings(c);
    }

    /** Store the model's parameters from a configuration. */
    method LoadParameters(c: Config)
      modifies this`populationSize, this`discountFactor, this`r, this`lambda, this`cfA1, this`cfA2,
               this`cqA1, this`cqA2, this`weights
      ensures populationSize == c.populationSize && discountFactor == c.discountFactor
      ensures r == c.r && lambda == c.lambda && cfA1 == c.cfA1 && cfA2 == c.cfA2
      ensures cqA1 == c.cqA1 && cqA2 == c.cqA2 && weights == c.weights
    {
      populationSize, discountFactor := c.populationSize, c.discountFactor;
      r, lambda, cfA1, cfA2, cqA1, cqA2, weights := c.r, c.lambda, c.cfA1, c.cfA2, c.cqA1, c.cqA2, c.weights;
    }

    /** Store the solver settings, output paths and mode from a configuration. */
    method LoadSolverSettings(c: Config)
      modifies this`maxIterPI, this`maxIterKSP, this`numPIRuns,
               this`rtolKSP, this`atolPI, this`filePolicy, this`fileCost, this`fileStats, this`mode
      ensures maxIterPI == c.maxIterPI && maxIterKSP == c.maxIterKSP && numPIRuns == c.numPIRuns
      ensures rtolKSP == c.rtolKSP && atolPI == c.atolPI
      ensures filePolicy == c.filePolicy && fileCost == c.fileCost && fileStats == c.fileStats && mode == c.mode
    {
      maxIterPI, maxIterKSP, numPIRuns := c.maxIterPI, c.maxIterKSP, c.numPIRuns;
      rtolKSP, atolPI := c.rtolKSP, c.atolPI;
      filePolicy, fileCost, fileStats := c.filePolicy, c.fileCost, c.fileStats;
      mode := c.mode;
    }

    /**
     * `generateStageCosts`: fill one cell `g(state, action)` for every owned
     * state and every action, state by state, into an empty matrix.
     */
    method GenerateStageCosts()
      requires Configured()
      modifies this`stageCostMatrix, this`gStart, this`gEnd
      ensures gStart == OwnedStates().0 && gEnd == OwnedStates().1
      ensures stageCostMatrix == StageCosts(Parameters(), numerics, gStart, gEnd)
    {
      OwnedRange();
      ghost var p := Parameters();
      var lo := OwnershipStart(numStates, size, rank, 1);
      var hi := OwnershipStart(numStates, size, rank + 1, 1);
      stageCostMatrix, gStart, gEnd := map[], lo, hi;
      var state := lo;
      while state < hi
        invariant gStart == lo && gEnd == hi && lo <= state <= hi
        invariant stageCostMatrix == StageCosts(p, numerics, lo, state)
      {
        FillStageCostRow(state, p);
        StageCostsStep(p, numerics, lo, state);
        state := state + 1;
      }
    }

    /** The inner loop of `generateStageCosts`: the cells of every action of one state. */
    method FillStageCostRow(state: int, ghost p: Params)
      requires p == Parameters() && WellFormed(p) && numActions == NumActions(p)
      modifies this`stageCostMatrix
      ensures stageCostMatrix == CostRow(old(stageCostMatrix), p, numerics, state, numActions)
    {
      var action := 0;
      while action < numActions
        invariant 0 <= action <= numActions
        invariant stageCostMatrix == CostRow(old(stageCostMatrix), p, numerics, state, action)
      {
        stageCostMatrix := stageCostMatrix[(state, action) := G(Parameters(), numerics, state, action)];
        action := action + 1;
      }
    }

    /**
     * One row of `generateTransitionProbabilities`: the absorbing unit row, or
     * the buffered, summed and renormalised pmf window; stops before writing
     * anything at the first pmf value that is inf or NaN.  `p` is the
     * parameters the fields hold and `outcomes` the row each (state, action) computes.
     */
    method AssembleRow(stateInd: int, actionInd: int, binomValues: array<Double>, ghost p: Params, ghost outcomes: Outcomes)
        returns (overflowAt: Option<int>)
      requires p == Parameters() && WellFormed(p) && numActions == NumActions(p) && KernelAgrees(p, numerics, outcomes)
      requires 0 <= stateInd <= populationSize && 0 <= actionInd < numActions
      requires binomValues.Length == BufferSize
      modifies this`transitionProbabilityTensor, binomValues
      ensures overflowAt.None? ==>
                outcomes(stateInd, actionInd).Written? &&
                transitionProbabilityTensor
                  == WithRow(old(transitionProbabilityTensor), stateInd * numActions + actionInd, outcomes(stateInd, actionInd).cols)
      ensures overflowAt.Some? ==>
                outcomes(stateInd, actionInd) == PdfOverflow(overflowAt.value) &&
                transitionProbabilityTensor == old(transitionProbabilityTensor)
    {
      var row := stateInd * numActions + actionInd;
      if stateInd == populationSize {
        // absorbing state
        WriteAbsorbingRow(row);
        assert outcomes(stateInd, actionInd) == TransitionRow(p, numerics, stateInd, actionInd) == Written(map[populationSize := Finite(1.0)]);
        return None;
      }
      overflowAt := AssembleWindowRow(stateInd, actionInd, binomValues, p);
      assert outcomes(stateInd, actionInd) == TransitionRow(p, numerics, stateInd, actionInd);
    }

    /** The absorbing state's row: a single 1 at column `populationSize`. */
    method WriteAbsorbingRow(row: int)
      modifies this`transitionProbabilityTensor
      ensures transitionProbabilityTensor
           == WithRow(old(transitionProbabilityTensor), row, map[populationSize := Finite(1.0)])
    {
      transitionProbabilityTensor := SetValue(transitionProbabilityTensor, row, populationSize, Finite(1.0));
      SetValueExtends(old(transitionProbabilityTensor), row, map[], populationSize, Finite(1.0));
      assert map[][populationSize := Finite(1.0)] == map[populationSize := Finite(1.0)];
    }

    /** A row of a non-absorbing state: the pmf over the window around `stateInd * q`, renormalised. */
    method AssembleWindowRow(stateInd: int, actionInd: int, binomValues: array<Double>, ghost p: Params)
        returns (overflowAt: Option<int>)
      requires p == Parameters() && WellFormed(p) && numActions == NumActions(p)
      requires 0 <= stateInd < populationSize && 0 <= actionInd < numActions
      requires binomValues.Length == BufferSize
      modifies this`transitionProbabilityTensor, binomValues
      ensures overflowAt.None? ==>
                TransitionRow(p, numerics, stateInd, actionInd).Written? &&
                transitionProbabilityTensor
                  == WithRow(old(transitionProbabilityTensor), stateInd * numActions + actionInd,
                             TransitionRow(p, numerics, stateInd, actionInd).cols)
      ensures overflowAt.Some? ==>
                TransitionRow(p, numerics, stateInd, actionInd) == PdfOverflow(overflowAt.value) &&
                transitionProbabilityTensor == old(transitionProbabilityTensor)
    {
      var qProb := Q(Parameters(), numerics, stateInd, actionInd);
      var (start, end) := Window(stateInd, qProb);
      WindowOfSteps(p, numerics, stateInd, actionInd, qProb, start, end);
      overflowAt := AssembleWindow(stateInd * numActions + actionInd, stateInd, qProb, start, end, binomValues,
                                   WindowOf(p, numerics, stateInd, actionInd));
    }

    /** Evaluate, sum and write the pmf window `w` of a row, or stop at its first value that is inf or NaN. */
    method AssembleWindow(row: int, stateInd: int, qProb: real, start: int, end: int, binomValues: array<Double>,
                          ghost w: RowWindow)
        returns (overflowAt: Option<int>)
      requires w == RowWindow(qProb, start, end, WindowPmf(numerics.binomialPdf, stateInd, qProb, start, end))
      requires 0 <= start && end - start < binomValues.Length
      modifies this`transitionProbabilityTensor, binomValues
      ensures overflowAt.None? ==>
                WindowRow(populationSize, w).Written? &&
                transitionProbabilityTensor == WithRow(old(transitionProbabilityTensor), row, WindowRow(populationSize, w).cols)
      ensures overflowAt.Some? ==>
                WindowRow(populationSize, w) == PdfOverflow(overflowAt.value) &&
                transitionProbabilityTensor == old(transitionProbabilityTensor)
    {
      var sum;
      overflowAt, sum := FillWindow(stateInd, qProb, start, end, binomValues, w.pmf);
      if overflowAt.Some? {
        return;
      }
      WriteRow(row, start, end, binomValues, sum, Magnitudes(w.pmf));
    }

    /**
     * The first loop of a row: evaluate the pmf over [start, end] into the
     * buffer, summing as it goes; stop at the first value that is inf or NaN.
     */
    method FillWindow(stateInd: int, qProb: real, start: int, end: int, binomValues: array<Double>, ghost pmf: seq<Double>)
        returns (overflowAt: Option<int>, sum: real)
      requires 0 <= start && end - start < binomValues.Length
      requires |pmf| == (if start <= end then end - start + 1 else 0)
      requires forall k :: 0 <= k < |pmf| ==> pmf[k] == numerics.binomialPdf(stateInd, qProb, start + k)
      modifies binomValues
      ensures FirstOverflow(pmf).Some? ==> overflowAt == Some(start + FirstOverflow(pmf).value)
      ensures FirstOverflow(pmf).None? ==>
                overflowAt.None? && sum == Sum(Magnitudes(pmf)) && forall k :: 0 <= k < |pmf| ==> binomValues[k] == pmf[k]
    {
      sum := 0.0;
      var i := start;
      while i <= end
        invariant start <= i && i - start <= |pmf|
        invariant forall k :: 0 <= k < i - start ==> pmf[k].Finite? && binomValues[k] == pmf[k]
        invariant sum == PrefixSum(pmf, i - start)
      {
        binomValues[i - start] := numerics.binomialPdf(stateInd, qProb, i);
        if binomValues[i - start].IsInf() || binomValues[i - start].IsNaN() {
          FirstOverflowAt(pmf, i - start);
          return Some(i), sum;
        }
        sum := sum + binomValues[i - start].v;
        i := i + 1;
      }
      PrefixSumIsSum(pmf, |pmf|);
      assert pmf[..|pmf|] == pmf;
      return None, sum;
    }

    /** The second loop of a row: write each buffered value over the sum at column `populationSize - i`. */
    method WriteRow(row: int, start: int, end: int, binomValues: array<Double>, sum: real, ghost mags: seq<real>)
      requires |mags| == (if start <= end then end - start + 1 else 0) && |mags| <= binomValues.Length
      requires forall k :: 0 <= k < |mags| ==> binomValues[k] == Finite(mags[k])
      modifies this`transitionProbabilityTensor
      ensures transitionProbabilityTensor
           == WithRow(old(transitionProbabilityTensor), row, NormalisedColumns(populationSize, start, mags, sum, |mags|))
    {
      var i := start;
      ghost var count: nat := 0;
      ghost var cols: map<int, Double> := map[];
      while i <= end
        invariant count == i - start && count <= |mags|
        invariant cols == NormalisedColumns(populationSize, start, mags, sum, count)
        invariant transitionProbabilityTensor == WithRow(old(transitionProbabilityTensor), row, cols)
      {
        var nextState := populationSize - i;
        var prob := Divide(binomValues[i - start].v, sum);
        assert prob == Divide(mags[count], sum);
        SetValueExtends(old(transitionProbabilityTensor), row, cols, nextState, prob);
        transitionProbabilityTensor := SetValue(transitionProbabilityTensor, row, nextState, prob);
        i, count, cols := i + 1, count + 1, cols[nextState := prob];
      }
      assert count == |mags|;
    }

    /**
     * `generateTransitionProbabilities`: write the rows of every owned state
     * and every action, in order, into an empty matrix; stop at the first row
     * whose pmf window overflows, leaving exactly the earlier rows written.
     */
    method GenerateTransitionProbabilities() returns (status: TransitionStatus)
      requires Configured()
      modifies this`transitionProbabilityTensor, this`pStart, this`pEnd
      ensures pStart == OwnedStates().0 * numActions && pEnd == OwnedStates().1 * numActions
      ensures var (lo, hi) := OwnedStates();
              status.Assembled? ==>
                0 <= lo <= hi <= numStates && StatesWritten(Parameters(), numerics, lo, hi) &&
                transitionProbabilityTensor == Tensor(Parameters(), numerics, lo, hi)
      ensures var (lo, hi) := OwnedStates();
              status.Overflow? ==>
                0 <= lo <= status.state < hi <= numStates && 0 <= status.action < numActions &&
                StatesWritten(Parameters(), numerics, lo, status.state) &&
                ActionsWritten(Parameters(), numerics, status.state, status.action) &&
                Row(status.state, status.action) == PdfOverflow(status.infections) &&
                transitionProbabilityTensor == PartialTensor(Parameters(), numerics, lo, status.state, status.action)
    {
      OwnedRange();
      transitionProbabilityTensor := map[];
      pStart := OwnershipStart(numStates, size, rank, numActions);
      pEnd := OwnershipStart(numStates, size, rank + 1, numActions);
      var binomValues := new Double[BufferSize];
      ghost var p := Parameters();
      KernelOutcomesAgree(p, numerics);
      status := AssembleStates(pStart / numActions, pEnd / numActions, binomValues, p, KernelOutcomes(p, numerics));
      if status.Assembled? {
        KernelStatesWritten(p, numerics, pStart / numActions, pEnd / numActions);
      } else {
        KernelStatesWritten(p, numerics, pStart / numActions, status.state);
        KernelActionsWritten(p, numerics, status.state, status.action);
        assert KernelOutcomes(p, numerics)(status.state, status.action) == Row(status.state, status.action);
      }
    }

    /**
     * The outer loop of the assembly: the rows of the states lo .. hi-1, in
     * state order, into an empty matrix, up to the first row that overflows.
     * `outcomes` is the row each (state, action) computes.
     */
    method AssembleStates(lo: int, hi: int, binomValues: array<Double>, ghost p: Params, ghost outcomes: Outcomes)
        returns (status: TransitionStatus)
      requires p == Parameters() && WellFormed(p) && numActions == NumActions(p) && KernelAgrees(p, numerics, outcomes)
      requires 0 <= lo <= hi <= NumStates(p) && binomValues.Length == BufferSize
      requires transitionProbabilityTensor == map[]
      modifies this`transitionProbabilityTensor, binomValues
      ensures status.Assembled? ==>
                StatesDone(outcomes, numActions, lo, hi) &&
                transitionProbabilityTensor == Entries(ColumnsOf(outcomes), numActions, lo, hi)
      ensures status.Overflow? ==>
                lo <= status.state < hi && 0 <= status.action < numActions &&
                StatesDone(outcomes, numActions, lo, status.state) &&
                ActionsDone(outcomes, status.state, status.action) &&
                outcomes(status.state, status.action) == PdfOverflow(status.infections) &&
                transitionProbabilityTensor
                  == StateRows(Entries(ColumnsOf(outcomes), numActions, lo, status.state), ColumnsOf(outcomes),
                               numActions, status.state, status.action)
    {
      var stateInd := lo;
      while stateInd < hi
        invariant lo <= stateInd <= hi
        invariant StatesDone(outcomes, numActions, lo, stateInd)
        invariant transitionProbabilityTensor == Entries(ColumnsOf(outcomes), numActions, lo, stateInd)
      {
        var overflow := AssembleState(stateInd, binomValues, p, outcomes);
        if overflow.Some? {
          return Overflow(stateInd, overflow.value.0, overflow.value.1);
        }
        StatesDoneStep(outcomes, numActions, lo, stateInd);
        EntriesNext(ColumnsOf(outcomes), numActions, lo, stateInd);
        stateInd := stateInd + 1;
      }
      return Assembled;
    }

    /**
     * The inner loop of the assembly: the rows of all actions of one state, in
     * action order, up to the first action whose pmf overflows.
     */
    method AssembleState(stateInd: int, binomValues: array<Double>, ghost p: Params, ghost outcomes: Outcomes)
        returns (overflow: Option<(int, int)>)
      requires p == Parameters() && WellFormed(p) && numActions == NumActions(p) && KernelAgrees(p, numerics, outcomes)
      requires 0 <= stateInd <= populationSize && binomValues.Length == BufferSize
      modifies this`transitionProbabilityTensor, binomValues
      ensures overflow.None? ==>
                ActionsDone(outcomes, stateInd, numActions) &&
                transitionProbabilityTensor
                  == StateRows(old(transitionProbabilityTensor), ColumnsOf(outcomes), numActions, stateInd, numActions)
      ensures overflow.Some? ==>
                var (action, infections) := overflow.value;
                0 <= action < numActions && ActionsDone(outcomes, stateInd, action) &&
                outcomes(stateInd, action) == PdfOverflow(infections) &&
                transitionProbabilityTensor
                  == StateRows(old(transitionProbabilityTensor), ColumnsOf(outcomes), numActions, stateInd, action)
    {
      ghost var m := transitionProbabilityTensor;
      var actionInd := 0;
      while actionInd < numActions
        invariant 0 <= actionInd <= numActions
        invariant ActionsDone(outcomes, stateInd, actionInd)
        invariant transitionProbabilityTensor == StateRows(m, ColumnsOf(outcomes), numActions, stateInd, actionInd)
      {
        var overflowAt := AssembleRow(stateInd, actionInd, binomValues, p, outcomes);
        if overflowAt.Some? {
          return Some((actionInd, overflowAt.value));
        }
        ActionsDoneStep(outcomes, stateInd, actionInd);
        StateRowsNext(m, ColumnsOf(outcomes), numActions, stateInd, actionInd);
        actionInd := actionInd + 1;
      }
      return None;
    }

    /**
     * The owned states lie inside [0, numStates], and the owned rows of the
     * transition matrix are exactly the rows of the owned states.
     */
    lemma OwnedRange()
      requires Configured()
      ensures 0 <= OwnedStates().0 <= OwnedStates().1 <= numStates
      ensures OwnershipStart(numStates, size, rank, numActions) == OwnedStates().0 * numActions
      ensures OwnershipStart(numStates, size, rank + 1, numActions) == OwnedStates().1 * numActions
      ensures OwnedStates().0 * numActions / numActions == OwnedStates().0
      ensures OwnedStates().1 * numActions / numActions == OwnedStates().1
    {
      OwnershipStartScales(numStates, size, rank, numActions);
      OwnershipStartScales(numStates, size, rank + 1, numActions);
      FirstOwnedStateMonotone(numStates, size, 0, rank);
      FirstOwnedStateMonotone(numStates, size, rank, rank + 1);
      FirstOwnedStateMonotone(numStates, size, rank + 1, size);
      PartitionCoversAll(numStates, size);
      DivModUnique(OwnedStates().0 * numActions, numActions, OwnedStates().0, 0);
      DivModUnique(OwnedStates().1 * numActions, numActions, OwnedStates().1, 0);
    }
  }
}
