/**
 * The transition probability matrix as the generator assembles it: the rows
 * of `TransitionRow` laid out by `RowMatrix` at row `state * numActions + action`.
 */
module Kernel {
  import opened CInt
  import opened Dynamics
  import opened Transitions
  import opened RowMatrix

  /** What each (state, action) produces: a row of columns, or an overflow. */
  type Outcomes = (int, int) -> RowOutcome

  /** The outcome of every row of the matrix; nothing is written outside it. */
  function KernelOutcomes(p: Params, num: Numerics): Outcomes {
    (state, action) =>
      if WellFormed(p) && 0 <= state <= p.populationSize && 0 <= action < NumActions(p) then
        TransitionRow(p, num, state, action)
      else Written(map[])
  }

  /** The columns each outcome writes: none for a row that overflows. */
  function ColumnsOf(outcomes: Outcomes): Rows {
    (state, action) =>
      match outcomes(state, action)
      case Written(cols) => cols
      case PdfOverflow(_) => map[]
  }

  /** The columns written for each (state, action). */
  function KernelRows(p: Params, num: Numerics): Rows {
    ColumnsOf(KernelOutcomes(p, num))
  }

  /**
   * `outcomes` gives the row the generator computes for every (state, action)
   * of the matrix.  Stated row by row, for the rows whose `TransitionRow` is in view.
   */
  ghost predicate KernelAgrees(p: Params, num: Numerics, outcomes: Outcomes)
    requires WellFormed(p)
  {
    forall state, action {:trigger TransitionRow(p, num, state, action)} ::
      0 <= state <= p.populationSize && 0 <= action < NumActions(p) ==>
        outcomes(state, action) == TransitionRow(p, num, state, action)
  }

  lemma KernelOutcomesAgree(p: Params, num: Numerics)
    requires WellFormed(p)
    ensures KernelAgrees(p, num, KernelOutcomes(p, num))
  {
  }

  /** None of the outcomes of `state` for the actions 0 .. actions-1 is an overflow. */
  ghost predicate ActionsDone(outcomes: Outcomes, state: int, actions: int) {
    forall action :: 0 <= action < actions ==> outcomes(state, action).Written?
  }

  lemma ActionsDoneStep(outcomes: Outcomes, state: int, action: int)
    requires ActionsDone(outcomes, state, action) && outcomes(state, action).Written?
    ensures ActionsDone(outcomes, state, action + 1)
  {
  }

  /** None of the outcomes of the states lo .. hi-1 and the actions 0 .. n-1 is an overflow. */
  ghost predicate StatesDone(outcomes: Outcomes, n: int, lo: int, hi: int) {
    forall state, action :: lo <= state < hi && 0 <= action < n ==> outcomes(state, action).Written?
  }

  lemma StatesDoneStep(outcomes: Outcomes, n: int, lo: int, state: int)
    requires StatesDone(outcomes, n, lo, state) && ActionsDone(outcomes, state, n)
    ensures StatesDone(outcomes, n, lo, state + 1)
  {
  }

  /** None of the rows of `state` for the actions 0 .. actions-1 overflows. */
  ghost predicate ActionsWritten(p: Params, num: Numerics, state: int, actions: int)
    requires WellFormed(p) && 0 <= state <= p.populationSize && actions <= NumActions(p)
  {
    forall action :: 0 <= action < actions ==> TransitionRow(p, num, state, action).Written?
  }

  /** None of the rows of the states lo .. hi-1 overflows. */
  ghost predicate StatesWritten(p: Params, num: Numerics, lo: int, hi: int)
    requires WellFormed(p) && 0 <= lo && hi <= NumStates(p)
  {
    forall state, action :: lo <= state < hi && 0 <= action < NumActions(p) ==>
      TransitionRow(p, num, state, action).Written?
  }

  lemma KernelActionsWritten(p: Params, num: Numerics, state: int, actions: int)
    requires WellFormed(p) && 0 <= state <= p.populationSize && actions <= NumActions(p)
    requires ActionsDone(KernelOutcomes(p, num), state, actions)
    ensures ActionsWritten(p, num, state, actions)
  {
    forall action | 0 <= action < actions
      ensures TransitionRow(p, num, state, action).Written?
    {
      assert KernelOutcomes(p, num)(state, action).Written?;
    }
  }

  lemma KernelStatesWritten(p: Params, num: Numerics, lo: int, hi: int)
    requires WellFormed(p) && 0 <= lo && hi <= NumStates(p)
    requires StatesDone(KernelOutcomes(p, num), NumActions(p), lo, hi)
    ensures StatesWritten(p, num, lo, hi)
  {
    forall state, action | lo <= state < hi && 0 <= action < NumActions(p)
      ensures TransitionRow(p, num, state, action).Written?
    {
      assert KernelOutcomes(p, num)(state, action).Written?;
    }
  }

  /** The matrix once all rows of the states lo .. hi-1 are written. */
  function Tensor(p: Params, num: Numerics, lo: int, hi: int): Matrix {
    Entries(KernelRows(p, num), NumActions(p), lo, hi)
  }

  /** The matrix once the states lo .. state-1 and the actions 0 .. action-1 of `state` are written. */
  function PartialTensor(p: Params, num: Numerics, lo: int, state: int, action: int): Matrix {
    StateRows(Tensor(p, num, lo, state), KernelRows(p, num), NumActions(p), state, action)
  }

  /** A row index in the block [lo * n, hi * n) decodes to a state in lo .. hi-1 and an action below n. */
  lemma RowInBlock(n: int, lo: int, hi: int, row: int)
    requires n > 0 && lo * n <= row < hi * n
    ensures lo <= row / n < hi && 0 <= row % n < n && row == (row / n) * n + row % n
  {
    var s := row / n;
    if s < lo {
      MulMonotone(s + 1, lo, n);
    } else if s >= hi {
      MulMonotone(hi, s, n);
    }
  }

  /**
   * Every cell of the assembled matrix for states lo .. hi-1 has its row in
   * [lo * numActions, hi * numActions) and its column in
   * [populationSize - row / numActions, populationSize], a part of [0, numStates).
   */
  lemma TensorIndicesInRange(p: Params, num: Numerics, lo: int, hi: int, row: int, c: int)
    requires WellFormed(p) && 0 <= lo <= hi <= NumStates(p)
    requires row in Tensor(p, num, lo, hi) && c in Tensor(p, num, lo, hi)[row]
    ensures lo * NumActions(p) <= row < hi * NumActions(p)
    ensures p.populationSize - row / NumActions(p) <= c <= p.populationSize
    ensures 0 <= c < NumStates(p)
  {
    var n := NumActions(p);
    EntriesInRange(KernelRows(p, num), n, lo, hi, row);
    RowInBlock(n, lo, hi, row);
    var state, action := row / n, row % n;
    EntriesRow(KernelRows(p, num), n, lo, hi, state, action);
    KernelRowsInRange(p, num, state, action, c);
  }

  /** The columns of a matrix row are those of a written `TransitionRow`, so they lie in its range. */
  lemma KernelRowsInRange(p: Params, num: Numerics, state: int, action: int, c: int)
    requires WellFormed(p) && 0 <= state <= p.populationSize && 0 <= action < NumActions(p)
    requires c in KernelRows(p, num)(state, action)
    ensures p.populationSize - state <= c <= p.populationSize
  {
    assert KernelOutcomes(p, num)(state, action) == TransitionRow(p, num, state, action);
    RowColumnsInRange(p, num, state, action, c);
  }

  /** Row `state * numActions + action` of the assembled matrix is exactly the row computed for (state, action). */
  lemma TensorRow(p: Params, num: Numerics, lo: int, hi: int, state: int, action: int)
    requires WellFormed(p) && 0 <= lo <= state < hi <= NumStates(p) && 0 <= action < NumActions(p)
    requires TransitionRow(p, num, state, action).Written?
    ensures RowOf(Tensor(p, num, lo, hi), state * NumActions(p) + action) == TransitionRow(p, num, state, action).cols
  {
    EntriesRow(KernelRows(p, num), NumActions(p), lo, hi, state, action);
    assert KernelRows(p, num)(state, action) == TransitionRow(p, num, state, action).cols;
  }

  /**
   * What precedes row `state * numActions + action`: every written row is an
   * earlier one, so nothing of that row (nor of a later one) has been written.
   */
  lemma PartialTensorBeforeRow(p: Params, num: Numerics, lo: int, state: int, action: int, row: int)
    requires WellFormed(p) && 0 <= lo <= state && 0 <= action <= NumActions(p)
    requires row in PartialTensor(p, num, lo, state, action)
    ensures lo * NumActions(p) <= row < state * NumActions(p) + action
  {
    var n := NumActions(p);
    StateRowsRow(Tensor(p, num, lo, state), KernelRows(p, num), n, state, action, row);
    MulMonotone(lo, state, n);
    if row in Tensor(p, num, lo, state) {
      EntriesInRange(KernelRows(p, num), n, lo, state, row);
    }
  }

  /**
   * When the matrix dimension `numStates * numActions` fits a 32-bit `PetscInt`,
   * so do `numStates`, `numActions` and every row index `state * numActions + action`.
   * The bound says nothing about the window's upper end `ev + numTransitions / 2`.
   */
  lemma IndicesFitPetscInt(p: Params, state: int, action: int)
    requires WellFormed(p) && NumStates(p) * NumActions(p) <= PetscIntMax
    requires 0 <= state <= p.populationSize && 0 <= action < NumActions(p)
    ensures NumStates(p) <= PetscIntMax && NumActions(p) <= PetscIntMax
    ensures 0 <= state * NumActions(p) + action < NumStates(p) * NumActions(p)
  {
    var n := NumActions(p);
    RowBeforeBlock(state, action, n, NumStates(p));
    MulMonotone(1, n, NumStates(p));
    MulMonotone(1, NumStates(p), n);
    MulMonotone(0, state, n);
  }

  /** How assembling the transition matrix ended: completed, or stopped at a row whose pmf overflowed. */
  datatype TransitionStatus = Assembled | Overflow(state: int, action: int, infections: int)

}
