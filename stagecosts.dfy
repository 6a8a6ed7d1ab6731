/**
 * The stage cost matrix as the generator fills it: cell (state, action)
 * holds `g(state, action)`, written state by state and, within a state,
 * action by action.  `StageCosts(p, num, lo, hi)` is what filling the states
 * lo .. hi-1 leaves in an empty matrix.
 */
module Costs {
  import opened Dynamics

  /** (state, action) to cost; a cell never written is absent. */
  type CostMatrix = map<(int, int), real>

  /** `m` with the cells (state, 0) .. (state, actions-1) set to their stage costs, in that order. */
  function CostRow(m: CostMatrix, p: Params, num: Numerics, state: int, actions: int): CostMatrix
    requires WellFormed(p) && actions <= NumActions(p)
    decreases actions
  {
    if actions <= 0 then m
    else CostRow(m, p, num, state, actions - 1)[(state, actions - 1) := G(p, num, state, actions - 1)]
  }

  /** The matrix once every action of the states lo .. hi-1 has been filled into an empty one. */
  function StageCosts(p: Params, num: Numerics, lo: int, hi: int): CostMatrix
    requires WellFormed(p)
    decreases hi - lo
  {
    if hi <= lo then map[] else CostRow(StageCosts(p, num, lo, hi - 1), p, num, hi - 1, NumActions(p))
  }

  lemma StageCostsStep(p: Params, num: Numerics, lo: int, state: int)
    requires WellFormed(p) && lo <= state
    ensures CostRow(StageCosts(p, num, lo, state), p, num, state, NumActions(p)) == StageCosts(p, num, lo, state + 1)
  {
  }

  /** Filling a row adds exactly the cells (state, 0 .. actions-1), each with its stage cost, and keeps every other cell. */
  lemma {:induction false} CostRowAt(m: CostMatrix, p: Params, num: Numerics, state: int, actions: int, s: int, a: int)
    requires WellFormed(p) && actions <= NumActions(p)
    ensures (s, a) in CostRow(m, p, num, state, actions) <==> (s, a) in m || (s == state && 0 <= a < actions)
    ensures s == state && 0 <= a < actions ==> CostRow(m, p, num, state, actions)[(s, a)] == G(p, num, s, a)
    ensures !(s == state && 0 <= a < actions) && (s, a) in m ==> CostRow(m, p, num, state, actions)[(s, a)] == m[(s, a)]
    decreases actions
  {
    if actions > 0 {
      CostRowAt(m, p, num, state, actions - 1, s, a);
    }
  }

  /**
   * The filled matrix has a cell exactly for every state in lo .. hi-1 and
   * every action, and that cell holds `g(state, action)`.
   */
  lemma {:induction false} StageCostsAt(p: Params, num: Numerics, lo: int, hi: int, s: int, a: int)
    requires WellFormed(p)
    ensures (s, a) in StageCosts(p, num, lo, hi) <==> lo <= s < hi && 0 <= a < NumActions(p)
    ensures (s, a) in StageCosts(p, num, lo, hi) ==> StageCosts(p, num, lo, hi)[(s, a)] == G(p, num, s, a)
    decreases hi - lo
  {
    if lo < hi {
      StageCostsAt(p, num, lo, hi - 1, s, a);
      CostRowAt(StageCosts(p, num, lo, hi - 1), p, num, hi - 1, NumActions(p), s, a);
    }
  }
}
