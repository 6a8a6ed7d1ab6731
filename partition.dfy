/**
 * The split of the global states 0 .. numStates-1 across `size` ranks: every
 * rank gets `numStates / size` states, and the first `numStates % size` ranks
 * one more.  A matrix whose rank-local row count is `LocalNumStates * rowsPerState`
 * owns, on each rank, the rows that start at the sum of the lower ranks' counts.
 */
module Partition {
  import opened CInt

  /** `localNumStates_`: the number of states owned by `rank` (C++ division). */
  function LocalNumStates(numStates: int, rank: int, size: int): int
    requires size > 0
  {
    if rank < CMod(numStates, size) then CDiv(numStates, size) + 1 else CDiv(numStates, size)
  }

  /** The first global row owned by `rank` when each state spans `rowsPerState` rows. */
  function OwnershipStart(numStates: int, size: int, rank: nat, rowsPerState: int): int
    requires size > 0
  {
    if rank == 0 then 0
    else OwnershipStart(numStates, size, rank - 1, rowsPerState) + LocalNumStates(numStates, rank - 1, size) * rowsPerState
  }

  /** The first global state owned by `rank`. */
  function FirstOwnedState(numStates: int, size: int, rank: nat): int
    requires size > 0
  {
    OwnershipStart(numStates, size, rank, 1)
  }

  /** Each rank owns either the floor or the ceiling of an even share. */
  lemma LocalNumStatesBalanced(numStates: nat, rank: nat, size: int)
    requires size > 0
    ensures LocalNumStates(numStates, rank, size) == if rank < numStates % size then numStates / size + 1 else numStates / size
  {
    CDivModNonNegative(numStates, size);
  }

  /** Rank `rank` starts after `rank * (n / size)` states plus one per earlier rank that got an extra state. */
  lemma {:induction false} FirstOwnedStateClosedForm(n: nat, size: int, rank: nat)
    requires size > 0
    ensures FirstOwnedState(n, size, rank) == rank * (n / size) + Min(rank, n % size)
  {
    if rank > 0 {
      FirstOwnedStateClosedForm(n, size, rank - 1);
      LocalNumStatesBalanced(n, rank - 1, size);
    }
  }

  /** Summed over all ranks, the local state counts give `numStates`: the last range ends at `numStates`. */
  lemma PartitionCoversAll(n: nat, size: int)
    requires size > 0
    ensures FirstOwnedState(n, size, size) == n
  {
    FirstOwnedStateClosedForm(n, size, size);
  }

  /** Later ranks start no earlier: consecutive ranges follow each other without overlap. */
  lemma {:induction false} FirstOwnedStateMonotone(n: nat, size: int, r1: nat, r2: nat)
    requires size > 0 && r1 <= r2
    ensures FirstOwnedState(n, size, r1) <= FirstOwnedState(n, size, r2)
  {
    if r1 < r2 {
      FirstOwnedStateMonotone(n, size, r1, r2 - 1);
      LocalNumStatesBalanced(n, r2 - 1, size);
    }
  }

  /** The ranges of two different ranks are disjoint. */
  lemma OwnedRangesDisjoint(n: nat, size: int, r1: nat, r2: nat, s: int)
    requires size > 0 && r1 < r2
    requires FirstOwnedState(n, size, r1) <= s < FirstOwnedState(n, size, r1 + 1)
    ensures !(FirstOwnedState(n, size, r2) <= s < FirstOwnedState(n, size, r2 + 1))
  {
    FirstOwnedStateMonotone(n, size, r1 + 1, r2);
  }

  /** The rank that owns state `s`, searching from `rank` upward. */
  function OwnerFrom(n: nat, size: int, s: int, rank: nat): (owner: nat)
    requires size > 0 && rank < size
    requires FirstOwnedState(n, size, rank) <= s < n
    ensures rank <= owner < size
    ensures FirstOwnedState(n, size, owner) <= s < FirstOwnedState(n, size, owner + 1)
    decreases size - rank
  {
    if s < FirstOwnedState(n, size, rank + 1) then rank
    else
      PartitionCoversAll(n, size);
      OwnerFrom(n, size, s, rank + 1)
  }

  /** Every state in [0, numStates) is owned by some rank (and, by `OwnedRangesDisjoint`, by only one). */
  function OwnerOf(n: nat, size: int, s: int): (owner: nat)
    requires size > 0 && 0 <= s < n
    ensures owner < size
    ensures FirstOwnedState(n, size, owner) <= s < FirstOwnedState(n, size, owner + 1)
  {
    OwnerFrom(n, size, s, 0)
  }

  /** Row ownership of a matrix with `rowsPerState` rows per state is the state ownership scaled. */
  lemma {:induction false} OwnershipStartScales(n: int, size: int, rank: nat, rowsPerState: int)
    requires size > 0
    ensures OwnershipStart(n, size, rank, rowsPerState) == FirstOwnedState(n, size, rank) * rowsPerState
  {
    if rank > 0 {
      OwnershipStartScales(n, size, rank - 1, rowsPerState);
      var prev := FirstOwnedState(n, size, rank - 1);
      var local := LocalNumStates(n, rank - 1, size);
      assert prev * rowsPerState + local * rowsPerState == (prev + local) * rowsPerState;
    }
  }
}
