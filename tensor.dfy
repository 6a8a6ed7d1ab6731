/**
 * A row-partitioned sparse matrix held row by row: each row that has cells
 * maps to its columns and their values.  It is filled state by state and
 * action by action: row `state * n + action` receives the columns that
 * `rows(state, action)` gives.  `Entries(rows, n, lo, hi)` is what writing all
 * rows of the states lo .. hi-1 leaves in an empty matrix.
 */
module RowMatrix {
  import opened CInt
  import opened Dynamics

  /** Row index to (column to value); a row with no cell is absent. */
  type Matrix = map<int, map<int, Double>>

  /** The columns (and values) written for each (state, action). */
  type Rows = (int, int) -> map<int, Double>

  /** The cells of row `row` (none if nothing was written there). */
  function RowOf(t: Matrix, row: int): map<int, Double> {
    if row in t then t[row] else map[]
  }

  /** Set one cell, replacing any value it held (`INSERT_VALUES`); every other cell is kept. */
  function SetValue(t: Matrix, row: int, col: int, v: Double): Matrix {
    t[row := RowOf(t, row)[col := v]]
  }

  /** Write the cells `cols` into row `row`; writing no cells leaves the matrix as it was. */
  function WithRow(t: Matrix, row: int, cols: map<int, Double>): Matrix {
    if cols == map[] then t else t[row := RowOf(t, row) + cols]
  }

  /** Writing `cols` into a row adds them to that row, over its earlier values, and changes no other row. */
  lemma WithRowRows(t: Matrix, row: int, cols: map<int, Double>, r: int)
    ensures RowOf(WithRow(t, row, cols), r) == if r == row then RowOf(t, row) + cols else RowOf(t, r)
    ensures r in WithRow(t, row, cols) <==> r in t || (r == row && cols != map[])
  {
    if r == row && cols == map[] {
      assert RowOf(t, row) + cols == RowOf(t, row);
    }
  }

  /** Setting one more cell of a row written with `cols` is writing `cols` extended by that cell. */
  lemma SetValueExtends(t: Matrix, row: int, cols: map<int, Double>, col: int, v: Double)
    ensures SetValue(WithRow(t, row, cols), row, col, v) == WithRow(t, row, cols[col := v])
  {
    var before := RowOf(t, row);
    assert col in cols[col := v];
    if cols == map[] {
      assert before[col := v] == before + cols[col := v];
    } else {
      assert RowOf(WithRow(t, row, cols), row) == before + cols;
      assert (before + cols)[col := v] == before + cols[col := v];
    }
  }

  /** `m` with the rows of `state` for the actions 0 .. actions-1 written after it. */
  function StateRows(m: Matrix, rows: Rows, n: int, state: int, actions: int): Matrix
    decreases actions
  {
    if actions <= 0 then m
    else WithRow(StateRows(m, rows, n, state, actions - 1), state * n + actions - 1, rows(state, actions - 1))
  }

  lemma StateRowsNext(m: Matrix, rows: Rows, n: int, state: int, action: int)
    requires 0 <= action
    ensures WithRow(StateRows(m, rows, n, state, action), state * n + action, rows(state, action))
         == StateRows(m, rows, n, state, action + 1)
  {
  }

  /** The matrix once all `n` actions of the states lo .. hi-1 are written into an empty one. */
  function Entries(rows: Rows, n: int, lo: int, hi: int): Matrix
    decreases hi - lo
  {
    if hi <= lo then map[]
    else StateRows(Entries(rows, n, lo, hi - 1), rows, n, hi - 1, n)
  }

  /**
   * Writing the rows of one state changes exactly the rows state*n .. state*n + actions - 1,
   * each by the columns `rows` gives it, and adds no other row.
   */
  lemma {:induction false} StateRowsRow(m: Matrix, rows: Rows, n: int, state: int, actions: int, r: int)
    ensures RowOf(StateRows(m, rows, n, state, actions), r)
         == if state * n <= r < state * n + actions then RowOf(m, r) + rows(state, r - state * n) else RowOf(m, r)
    ensures r in StateRows(m, rows, n, state, actions) ==> r in m || state * n <= r < state * n + actions
    decreases actions
  {
    if actions > 0 {
      StateRowsRow(m, rows, n, state, actions - 1, r);
      WithRowRows(StateRows(m, rows, n, state, actions - 1), state * n + actions - 1, rows(state, actions - 1), r);
      if r == state * n + actions - 1 {
        assert RowOf(m, r) + map[] == RowOf(m, r);
      }
    }
  }

  /** Every row of `Entries(rows, n, lo, hi)` lies in the block [lo * n, hi * n). */
  lemma {:induction false} EntriesInRange(rows: Rows, n: int, lo: int, hi: int, r: int)
    requires n > 0 && r in Entries(rows, n, lo, hi)
    ensures lo * n <= r < hi * n
    decreases hi - lo
  {
    var earlier := Entries(rows, n, lo, hi - 1);
    StateRowsRow(earlier, rows, n, hi - 1, n, r);
    if r in earlier {
      EntriesInRange(rows, n, lo, hi - 1, r);
      MulMonotone(hi - 1, hi, n);
    } else {
      MulMonotone(lo, hi - 1, n);
    }
  }

  lemma EntriesNext(rows: Rows, n: int, lo: int, state: int)
    requires lo <= state
    ensures StateRows(Entries(rows, n, lo, state), rows, n, state, n) == Entries(rows, n, lo, state + 1)
  {
  }

  /** Row `state * n + action` comes before the block of any later state. */
  lemma RowBeforeBlock(state: int, action: int, n: int, later: int)
    requires 0 <= action < n && state < later
    ensures state * n + action < later * n
  {
    MulMonotone(state + 1, later, n);
    assert (state + 1) * n == state * n + n;
  }

  /** Row `state * n + action` of `Entries(rows, n, lo, hi)` is exactly `rows(state, action)`. */
  lemma {:induction false} EntriesRow(rows: Rows, n: int, lo: int, hi: int, state: int, action: int)
    requires n > 0 && lo <= state < hi && 0 <= action < n
    ensures RowOf(Entries(rows, n, lo, hi), state * n + action) == rows(state, action)
    decreases hi - lo
  {
    var r := state * n + action;
    var earlier := Entries(rows, n, lo, hi - 1);
    assert Entries(rows, n, lo, hi) == StateRows(earlier, rows, n, hi - 1, n);
    StateRowsRow(earlier, rows, n, hi - 1, n, r);
    if state < hi - 1 {
      EntriesRow(rows, n, lo, hi - 1, state, action);
      RowBeforeBlock(state, action, n, hi - 1);
    } else {
      if r in earlier {
        EntriesInRange(rows, n, lo, hi - 1, r);
        assert false;
      }
      assert r - (hi - 1) * n == action;
      assert map[] + rows(state, action) == rows(state, action);
    }
  }
}
