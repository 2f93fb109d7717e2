/**
 * How rows written by write_for are seen by the readers: write_for leaves
 * the current flag unset, so the queries restricted to current rows do not
 * see them until the flag is set elsewhere.
 */
module WriteVisibility {
  import opened Relation
  import opened LoanHistoryRows
  import opened DefaultQueries
  import opened OutstandingQueries

  /** A row without the current flag changes no current-only query. */
  lemma {:induction false} NonCurrentRowUnseen(rows: seq<Row>, r: Row, e: Entity, branchId: int, date: int, from: int, to: int)
    requires !r.current
    ensures SumOutstandingFor(rows + [r], e, from, to) == SumOutstandingFor(rows, e, from, to)
    ensures DefaultedLoanInfoByBranch(rows + [r], branchId, date) == DefaultedLoanInfoByBranch(rows, branchId, date)
  {
    var p := CurrentOverdueFilter(e, from, to);
    WhereAppend(rows, [r], p);
    assert Where([r], p) == [];
    assert Where(rows + [r], p) == Where(rows, p);
    var q := BranchFilter(branchId, date);
    WhereAppend(rows, [r], q);
    assert Where([r], q) == [];
    assert Where(rows + [r], q) == Where(rows, q);
  }

}
