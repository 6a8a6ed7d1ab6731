# Infectious disease MDP generator

A Dafny model of the generator of the infectious disease Markov decision process in
`InfectiousDiseaseModel/InfectiousDiseaseModel.cpp`.

## The system

A state is the number of susceptible individuals, from 0 to `populationSize`, so there are
`numStates = populationSize + 1` states. An action is a pair of two levers:
- a hygiene-measure level `a1 < numA1`;
- a social-distancing level `a2 < numA2`.

An action is encoded as the flat index `a2 * numA1 + a1`, giving `numActions = numA1 * numA2` actions.

The states are split across `size` MPI ranks. Each rank gets `numStates / size` states, and the first
`numStates % size` ranks get one more.

On its share of states, each rank builds two matrices:
- **The stage-cost matrix** (state x action). Cell `(state, action)` holds `g(state, action)`, a
  weighted combination of:
  - the financial cost of the two levers;
  - the quality-of-life cost of the two levers;
  - the health cost `(populationSize - state)^1.1`.
- **The transition matrix** (state·numActions + action x next state):
  - The absorbing state `populationSize` goes to itself with probability 1.
  - Every other row takes a window of at most 101 values of the Binomial(state, q(state, action))
    pmf around `trunc(state * q)`. It buffers them, sums them and writes each one divided by the sum
    at column `populationSize - i`.
  - A pmf value that is inf or NaN aborts the assembly with an error.

Before either matrix is built, the generator reads its options:
- every required option;
- `-numPIRuns`, which defaults to 1;
- two optional output paths;
- the `-mode` string (`MINCOST` or `MAXREWARD`).

It then derives `numStates`, `numActions` and `localNumStates`.

### Modules

- `CInt`: C++ integer semantics. `/` and `%` truncate toward zero, and a double converts to an
  integer by truncation. Integer width is not modelled: the model's integers are unbounded, and
  `PetscIntMax` only bounds the sizes for which they agree with a 32-bit `PetscInt`.
- `Actions`: `a2ij` and its inverse.
- `Dynamics`:
  - the IEEE values a computation can produce (`Double`);
  - the foreign numerics `pow`, `exp` and boost's binomial pdf, as a record of functions with
    their assumed properties stated as predicates;
  - the parameters;
  - `ch`, `g` and `q`.
- `Partition`: the split of states and matrix rows across ranks.
- `Options`: reading the options, with an error for each missing, miscounted or unreadable option;
  mode parsing.
- `Transitions`: one row of the transition matrix, as a function. It covers the window, the first
  overflow, the running sum and the normalised columns, and proves that rows sum to 1.
- `RowMatrix`: a row-partitioned sparse matrix held as a map from row to (column to value). It
  defines what writing the rows of a range of states in order leaves in it.
- `Kernel`: the transition matrix of a range of states, and where its indices lie.
- `Costs`: the stage-cost matrix of a range of states.
- `DiseaseModel`: the generator object as a class whose fields the methods update.
  - `setValuesFromOptions` becomes `SetValuesFromOptions` and its helpers.
  - `generateStageCosts` becomes `GenerateStageCosts` with its two loops.
  - `generateTransitionProbabilities` becomes `GenerateTransitionProbabilities`, with the state
    loop, the action loop and the two loops over the pmf window, which fill and normalise the
    101-slot `binomValues` array.
  - Each method is proved against the specification functions above.

## Model

| member | source | states |
|---|---|---|
| Actions.A2ijInRange | InfectiousDiseaseModel/InfectiousDiseaseModel.cpp:14-16 | for every valid action, both halves of `a2ij` lie within their action-set sizes and `a2 * numA1 + a1` gives the action back |
| Actions.ActionIndexRoundTrip | InfectiousDiseaseModel/InfectiousDiseaseModel.cpp:14-16 | every in-range lever pair is the `a2ij` split of exactly one valid action index, so the encoding is a bijection |
| CInt.CModSign | InfectiousDiseaseModel/InfectiousDiseaseModel.cpp:15 | C++ `%` takes the sign of the dividend and is smaller than the divisor in magnitude |
| CInt.CDivModNonNegative | InfectiousDiseaseModel/InfectiousDiseaseModel.cpp:253 | on a non-negative dividend and a positive divisor, C++ `/` and `%` agree with the mathematical quotient and remainder |
| CInt.Trunc | InfectiousDiseaseModel/InfectiousDiseaseModel.cpp:83 | converting a double to an integer gives the integer next to it toward zero |
| Dynamics.QInUnitInterval | InfectiousDiseaseModel/InfectiousDiseaseModel.cpp:32-36 | with non-negative efficacies and `exp` in (0, 1] on non-positive arguments, `q(state, action)` lies in [0, 1) for every state |
| Dynamics.StageCostMonotoneInInfected | InfectiousDiseaseModel/InfectiousDiseaseModel.cpp:19-29 | with a monotone `pow` and a non-negative health weight, `g` does not decrease as the number of infected grows |
| Partition.LocalNumStatesBalanced | InfectiousDiseaseModel/InfectiousDiseaseModel.cpp:253 | each rank owns `numStates / size` states, plus one for the first `numStates % size` ranks |
| Partition.FirstOwnedStateClosedForm | InfectiousDiseaseModel/InfectiousDiseaseModel.cpp:253 | rank `k` starts at `k * (numStates / size) + min(k, numStates % size)` |
| Partition.PartitionCoversAll | InfectiousDiseaseModel/InfectiousDiseaseModel.cpp:253 | the local counts of ranks 0 .. size-1 sum to `numStates` |
| Partition.FirstOwnedStateMonotone | InfectiousDiseaseModel/InfectiousDiseaseModel.cpp:253 | later ranks start no earlier, so consecutive ranges follow each other |
| Partition.OwnedRangesDisjoint | InfectiousDiseaseModel/InfectiousDiseaseModel.cpp:253 | the owned ranges of two different ranks do not overlap |
| Partition.OwnerOf | InfectiousDiseaseModel/InfectiousDiseaseModel.cpp:253 | every state in [0, numStates) lies in the range of some rank; together with the two lemmas above, the ranges tile [0, numStates) |
| Partition.OwnershipStartScales | InfectiousDiseaseModel/InfectiousDiseaseModel.cpp:64-68 | with `localNumStates * numActions` local rows per rank, the owned row range of the transition matrix is the owned state range times `numActions` |
| Options.Truncated | InfectiousDiseaseModel/InfectiousDiseaseModel.cpp:235-236 | reading into a fixed buffer keeps a string that fits unchanged, and of a longer one exactly its first `n` characters (`n` is 19 for the 20-character `-mode` buffer, the capacity less the terminator) |
| Options.ParseMode | InfectiousDiseaseModel/InfectiousDiseaseModel.cpp:240-248 | `"MINCOST"` and `"MAXREWARD"`, and only they, give `MinCost` and `MaxReward`; every other string gives none |
| Options.ModeTruncationHarmless | InfectiousDiseaseModel/InfectiousDiseaseModel.cpp:235-248 | truncating `-mode` to the 20-character buffer never changes which mode the string names |
| Options.ConfigAcceptedIff | InfectiousDiseaseModel/InfectiousDiseaseModel.cpp:117-248 | the options are accepted exactly when every required option is given, each array option with at least its count of values, and the mode is recognised; the accepted mode is the one named and each vector is the first count values given (extra values are dropped) |
| Options.NumPIRunsDefaultsToOne | InfectiousDiseaseModel/InfectiousDiseaseModel.cpp:198-203 | an absent `-numPIRuns` is not an error and gives a single run |
| Options.ModeRequired | InfectiousDiseaseModel/InfectiousDiseaseModel.cpp:235-248 | an absent or unrecognised `-mode` is always an error; when every other required option is given, the error is `-mode` not specified, or names the unrecognised (buffered) string |
| Transitions.Window | InfectiousDiseaseModel/InfectiousDiseaseModel.cpp:83-85 | for any `q`, the window [start, end] lies in [0, state] and spans at most 100 steps, so it fits the 101-slot buffer |
| Transitions.WindowContainsExpectation | InfectiousDiseaseModel/InfectiousDiseaseModel.cpp:83-85 | for `q` in [0, 1], `trunc(state * q)` lies in [0, state] and inside the window, so the window is not empty |
| Transitions.WindowOf | InfectiousDiseaseModel/InfectiousDiseaseModel.cpp:81-89 | the pmf window of a non-absorbing row starts at 0 or later, ends at `state` or earlier, and has at most 101 values |
| Transitions.FirstOverflow | InfectiousDiseaseModel/InfectiousDiseaseModel.cpp:88-94 | the first pmf value that is inf or NaN, with every earlier one finite; none exactly when all values are finite |
| Transitions.FirstOverflowAt | InfectiousDiseaseModel/InfectiousDiseaseModel.cpp:88-94 | an inf or NaN value after a run of finite values is the one reported |
| Transitions.PrefixSumIsSum | InfectiousDiseaseModel/InfectiousDiseaseModel.cpp:87-96 | over finite values, the running `sum` after `n` values is the sum of the first `n` magnitudes |
| Transitions.NormalisedColumnsAt | InfectiousDiseaseModel/InfectiousDiseaseModel.cpp:97-101 | a normalised window occupies exactly the columns `populationSize - i` for `i` in the window, and each holds the pmf value of `i` divided by the sum |
| Transitions.AbsorbingRow | InfectiousDiseaseModel/InfectiousDiseaseModel.cpp:77-80 | each action's row of the absorbing state has exactly one entry, 1 at column `populationSize`, and does not depend on the numerics, so no pmf is evaluated |
| Transitions.RowColumnsInRange | InfectiousDiseaseModel/InfectiousDiseaseModel.cpp:97-100 | every column a row writes lies in [populationSize - state, populationSize], within [0, numStates) |
| Transitions.OverflowIsFirstInWindow | InfectiousDiseaseModel/InfectiousDiseaseModel.cpp:88-94 | a row fails at the first infection count in the window whose pmf is inf or NaN; every earlier one is finite |
| Transitions.NormalisedSumsToOne | InfectiousDiseaseModel/InfectiousDiseaseModel.cpp:87-101 | finite values with a non-zero sum, divided by that sum and laid out at their columns, add up to exactly 1 over [0, numStates) |
| Transitions.RowSumsToOne | InfectiousDiseaseModel/InfectiousDiseaseModel.cpp:87-101 | every written non-absorbing row whose window has a non-zero pmf sum adds up to exactly 1 over [0, numStates) |
| Transitions.RowEntriesAreProbabilities | InfectiousDiseaseModel/InfectiousDiseaseModel.cpp:77-101 | with a non-negative pdf, every entry of a written row (absorbing, or non-absorbing with a non-zero window sum) is finite and lies in [0, 1] |
| Transitions.ZeroMassRowIsNaN | InfectiousDiseaseModel/InfectiousDiseaseModel.cpp:95-101 | if every pmf value of the window is 0 (with a non-negative pdf), every entry of the row is NaN (0/0) |
| RowMatrix.WithRowRows | InfectiousDiseaseModel/InfectiousDiseaseModel.cpp:100 | writing cells into one row adds them over that row's earlier values and changes no other row |
| RowMatrix.SetValueExtends | InfectiousDiseaseModel/InfectiousDiseaseModel.cpp:100 | one more `MatSetValue` with `INSERT_VALUES` into a row is the same as writing that row with the cell added |
| RowMatrix.StateRowsRow | InfectiousDiseaseModel/InfectiousDiseaseModel.cpp:76-101 | writing the actions of one state changes exactly rows `state * n .. state * n + actions - 1`, each by its own columns |
| RowMatrix.EntriesInRange | InfectiousDiseaseModel/InfectiousDiseaseModel.cpp:75-103 | every row written for the states lo .. hi-1 lies in [lo * n, hi * n) |
| RowMatrix.EntriesRow | InfectiousDiseaseModel/InfectiousDiseaseModel.cpp:75-103 | row `state * n + action` of the matrix for lo .. hi-1 holds exactly the columns of (state, action) |
| Kernel.TensorIndicesInRange | InfectiousDiseaseModel/InfectiousDiseaseModel.cpp:75-100 | every entry of the assembled transition matrix has its row in [P_start, P_end) and its column in [populationSize - state, populationSize], within [0, numStates) |
| Kernel.TensorRow | InfectiousDiseaseModel/InfectiousDiseaseModel.cpp:75-103 | row `state * numActions + action` of the assembled matrix is exactly the row computed for (state, action) |
| Kernel.KernelRowsInRange | InfectiousDiseaseModel/InfectiousDiseaseModel.cpp:97-100 | the columns of any row of the matrix lie in [populationSize - state, populationSize] |
| Kernel.PartialTensorBeforeRow | InfectiousDiseaseModel/InfectiousDiseaseModel.cpp:75-103 | when the assembly stops at (state, action), only earlier rows hold entries, so nothing of the failing row has been written |
| Costs.CostRowAt | InfectiousDiseaseModel/InfectiousDiseaseModel.cpp:48-50 | filling one state's actions adds exactly the cells (state, 0 .. numActions-1), each holding `g`, and keeps every other cell |
| Costs.StageCostsAt | InfectiousDiseaseModel/InfectiousDiseaseModel.cpp:47-51 | the stage-cost matrix of states lo .. hi-1 has a cell exactly for each (state, action) with lo <= state < hi and 0 <= action < numActions, and it holds `g(state, action)` |
| DiseaseModel.InfectiousDiseaseModel.constructor | InfectiousDiseaseModel/InfectiousDiseaseModel.cpp:9 | a new generator has the given action-set sizes, rank, rank count and numerics, and empty matrices |
| DiseaseModel.InfectiousDiseaseModel.SetValuesFromOptions | InfectiousDiseaseModel/InfectiousDiseaseModel.cpp:113-256 | returns exactly the first configuration error in reading order; on success, the fields hold the read configuration and the derived sizes |
| Kernel.IndicesFitPetscInt | InfectiousDiseaseModel/InfectiousDiseaseModel.cpp:64-100 | when `numStates * numActions` fits a 32-bit `PetscInt`, so do `numStates`, `numActions` and every row index `stateInd * numActions + actionInd` |
| DiseaseModel.InfectiousDiseaseModel.SetDerivedParameters | InfectiousDiseaseModel/InfectiousDiseaseModel.cpp:250-253 | sets `numStates = populationSize + 1`, `numActions = numA1 * numA2` and the rank's local share of states, and leaves the configuration alone |
| DiseaseModel.InfectiousDiseaseModel.Load | InfectiousDiseaseModel/InfectiousDiseaseModel.cpp:117-233 | every configuration field holds the value read for it |
| DiseaseModel.InfectiousDiseaseModel.GenerateStageCosts | InfectiousDiseaseModel/InfectiousDiseaseModel.cpp:39-56 | the owned range is this rank's share of states, and the matrix is the stage-cost matrix of that range (by `StageCostsAt`: exactly the owned cells, each `g`) |
| DiseaseModel.InfectiousDiseaseModel.FillStageCostRow | InfectiousDiseaseModel/InfectiousDiseaseModel.cpp:48-50 | the inner loop adds the cells of every action of one state, in order |
| DiseaseModel.InfectiousDiseaseModel.AssembleRow | InfectiousDiseaseModel/InfectiousDiseaseModel.cpp:76-101 | given `outcomes` that agree with `TransitionRow` on every row of the matrix, the row of (state, action) is either written as its outcome's columns, or its outcome is an overflow at the reported infection count and the matrix is left unchanged |
| DiseaseModel.InfectiousDiseaseModel.WriteAbsorbingRow | InfectiousDiseaseModel/InfectiousDiseaseModel.cpp:77-80 | the absorbing row gets exactly one entry, 1 at column `populationSize` |
| DiseaseModel.InfectiousDiseaseModel.AssembleWindowRow | InfectiousDiseaseModel/InfectiousDiseaseModel.cpp:81-101 | a non-absorbing row, computed from `q` and its window, either writes its specified columns or overflows and leaves the matrix unchanged |
| DiseaseModel.InfectiousDiseaseModel.AssembleWindow | InfectiousDiseaseModel/InfectiousDiseaseModel.cpp:87-101 | over a given window, the two loops write the normalised columns or stop at the first overflow before writing anything |
| DiseaseModel.InfectiousDiseaseModel.FillWindow | InfectiousDiseaseModel/InfectiousDiseaseModel.cpp:87-96 | reports the first inf or NaN pmf value of the window; otherwise the buffer holds the window's pmf values and `sum` is their sum |
| DiseaseModel.InfectiousDiseaseModel.WriteRow | InfectiousDiseaseModel/InfectiousDiseaseModel.cpp:97-101 | the second loop writes each buffered value divided by `sum` at column `populationSize - i` into the row |
| DiseaseModel.InfectiousDiseaseModel.GenerateTransitionProbabilities | InfectiousDiseaseModel/InfectiousDiseaseModel.cpp:59-110 | the owned rows are this rank's states times `numActions`. Either every owned row is written and the matrix is the transition matrix of the owned states, or the first overflowing (state, action) is reported: every earlier row is written, the failing row overflows and no later row is touched |
| DiseaseModel.InfectiousDiseaseModel.AssembleStates | InfectiousDiseaseModel/InfectiousDiseaseModel.cpp:75-103 | the state loop writes the rows of lo .. hi-1 in order into an empty matrix: either all of them, none overflowing, or every row before the first overflowing (state, action), with that row reported |
| DiseaseModel.InfectiousDiseaseModel.AssembleState | InfectiousDiseaseModel/InfectiousDiseaseModel.cpp:76-102 | the action loop writes the rows of one state in order after the existing ones: either all actions, none overflowing, or every action before the first overflowing one, which is reported |
| DiseaseModel.InfectiousDiseaseModel.OwnedRange | InfectiousDiseaseModel/InfectiousDiseaseModel.cpp:68-75 | the owned states lie in [0, numStates], and the owned matrix rows divided by `numActions` give back exactly the owned states |

## Left out

- Integer width: `PetscInt` is a 32-bit integer in the source, and the model's integers are unbounded. `populationSize + 1` (line 251), `numStates * numActions` (line 64) and the row index `stateInd * numActions + actionInd` (lines 78 and 100) overflow once `(populationSize + 1) * numA1 * numA2` exceeds 2^31 - 1 (`Kernel.IndicesFitPetscInt` shows that they fit below it). Independently, the window's upper end `ev + numTransitions / 2` (line 85) overflows once `populationSize + 50` exceeds 2^31 - 1. The model's results describe the source only when both bounds hold; beyond them the source's behaviour is undefined and not modelled.
- Floating-point rounding: values are modelled as `real`, with division producing inf or NaN as IEEE does, so "sums to 1" holds exactly in the model and only up to rounding in the source.
- `std::pow`, `std::exp` and boost's binomial pdf are parameters (a `Numerics` record of functions). What is assumed of them (non-positive arguments give `exp` in (0, 1], the pdf is non-negative when finite, `pow` is monotone) appears only as lemma hypotheses.
- Boost's domain errors for a probability outside [0, 1] are not modelled. `Dynamics.QInUnitInterval` shows that `q` stays in [0, 1) under the assumptions above.
- PETSc matrix creation, sizing, preallocation, options and `MatAssemblyBegin`/`MatAssemblyEnd` are not modelled. Each matrix is a map, and each rank's owned range is the prefix sum of the local sizes, which is what `MatGetOwnershipRange` returns for the sizes given.
- MPI: only one rank's view is modelled. The collective abort on an error is not modelled.
- Error codes from `MatSetValue` and the `CHKERRQ` checks are not modelled; every write succeeds.
- The overflow message printed before the error, all `jsonWriter_` and `LOG` output, and the option lookups themselves are left out. The lookups' outcomes are an input record (`Options.RawOptions`).
- The output paths are not truncated to `PETSC_MAX_PATH_LEN`; only the 20-character `-mode` buffer is modelled.
- On an overflow the source returns without freeing `binomValues`; memory is not modelled.
- `-SD` is read with an integer-array lookup, so the distancing efficacies are integers in the model (`lambda: seq<int>`). This follows the code, although the option's own error message (line 143) asks for doubles.
- DiseaseModel.InfectiousDiseaseModel.SetValuesFromOptions: on a configuration error the model leaves every field unchanged. The source has already stored the options read before the failing one.
- DiseaseModel.InfectiousDiseaseModel.GenerateStageCosts: requires a non-negative population size and vectors of the action-set lengths (`Configured`). The source does not check the sign of `-populationSize`; the lengths are what `setValuesFromOptions` guarantees.
- DiseaseModel.InfectiousDiseaseModel.GenerateTransitionProbabilities: requires `Configured` for the same reason as `GenerateStageCosts`.
- The transition matrix is held as a map from row to (column to value). A row that received no entry is absent rather than empty. Only a window with no values could produce such a row, and that does not happen for `q` in [0, 1].
- The source's nested loops are split into one method per loop (`AssembleStates`, `AssembleState`, `FillWindow`, `WriteRow`, `FillStageCostRow`). The order of writes and of the overflow checks is kept.
