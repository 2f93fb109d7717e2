/**
 * The loan_history table: one snapshot row per (loan_id, date), with the
 * denormalised organisational ids captured when the row was written.
 * Dates are day numbers. Nullable columns are `Option`s; `current` is a
 * nullable boolean in the table, and since every query only asks for
 * `current = 1`, an unset flag is modelled as `false`.
 */
module LoanHistoryRows {
  import opened Wrappers
  import opened Relation

  datatype Row = Row(
    loanId: int,
    date: int,
    runNumber: int,
    current: bool,
    amountInDefault: Option<int>,
    daysOverdue: Option<int>,
    status: int,
    scheduledOutstandingTotal: int,
    scheduledOutstandingPrincipal: int,
    actualOutstandingTotal: int,
    actualOutstandingPrincipal: int,
    clientId: Option<int>,
    clientGroupId: Option<int>,
    centerId: Option<int>,
    branchId: Option<int>)

  /** The composite primary key. */
  function Key(r: Row): (int, int) { (r.loanId, r.date) }

  /** The primary-key constraint: no two rows share a (loan_id, date). */
  ghost predicate KeysUnique(rows: seq<Row>) {
    forall i, j :: 0 <= i < j < |rows| ==> Key(rows[i]) != Key(rows[j])
  }

  /** The stored status values meaning "principal or interest overdue". */
  const OverdueStatuses: set<int> := {5, 6}

  predicate Overdue(r: Row) { r.status in OverdueStatuses }

  /**
   * The organisational object a query is scoped to; the column it is
   * matched against is "<class>_id".
   */
  datatype Entity = Branch(id: int) | Center(id: int) | ClientGroup(id: int) | Client(id: int) | Loan(id: int)

  /** `<class>_id = id`; a NULL column matches no entity. */
  predicate InScope(r: Row, e: Entity) {
    match e
    case Branch(b) => r.branchId == Some(b)
    case Center(c) => r.centerId == Some(c)
    case ClientGroup(g) => r.clientGroupId == Some(g)
    case Client(c) => r.clientId == Some(c)
    case Loan(l) => r.loanId == l
  }

  // Column accessors, passed to the aggregates.
  function LoanOf(r: Row): int { r.loanId }
  function DateOf(r: Row): int { r.date }
  function LoanIdOf(r: Row): Option<int> { Some(r.loanId) }
  function ClientIdOf(r: Row): Option<int> { r.clientId }
  function ScheduledPrincipal(r: Row): int { r.scheduledOutstandingPrincipal }
  function ScheduledTotal(r: Row): int { r.scheduledOutstandingTotal }
  function ActualPrincipal(r: Row): int { r.actualOutstandingPrincipal }
  function ActualTotal(r: Row): int { r.actualOutstandingTotal }
  /** actual - scheduled: positive when the loan is behind schedule. */
  function PrincipalDue(r: Row): int { r.actualOutstandingPrincipal - r.scheduledOutstandingPrincipal }
  function TotalDue(r: Row): int { r.actualOutstandingTotal - r.scheduledOutstandingTotal }

  /**
   * Phase one of the two-phase queries: SELECT loan_id, MAX(date) ...
   * WHERE p GROUP BY loan_id.
   */
  function LatestDates(rows: seq<Row>, p: Row -> bool): map<int, int> {
    GroupMax(Where(rows, p), LoanOf, DateOf)
  }

  /** WHERE (loan_id, date) IN (the phase-one pairs). */
  function AtLatest(latest: map<int, int>): Row -> bool {
    (r: Row) => r.loanId in latest && latest[r.loanId] == r.date
  }

  /** Phase two: the table rows at the phase-one keys. */
  function LatestPerLoan(rows: seq<Row>, p: Row -> bool): seq<Row> {
    Where(rows, AtLatest(LatestDates(rows, p)))
  }

  /** Phase one finds nothing exactly when no row passes the filter. */
  lemma {:induction false} LatestDatesEmpty(rows: seq<Row>, p: Row -> bool)
    ensures LatestDates(rows, p) == map[] <==> forall x :: x in rows ==> !p(x)
  {
    var m := LatestDates(rows, p);
    if forall x :: x in rows ==> !p(x) {
      assert m.Keys == {};
    } else {
      var x :| x in rows && p(x);
      assert x in Where(rows, p);
      assert LoanOf(x) in m;
    }
  }

  /** Two rows of a keyed table with the same key are the same row. */
  lemma {:induction false} SameKeySameRow(rows: seq<Row>, x: Row, y: Row)
    requires KeysUnique(rows)
    requires x in rows && y in rows && Key(x) == Key(y)
    ensures x == y
  {
    var i :| 0 <= i < |rows| && rows[i] == x;
    var j :| 0 <= j < |rows| && rows[j] == y;
    assert !(i < j) && !(j < i);
  }

  /** Filtering a keyed table keeps it keyed. */
  lemma {:induction false} WhereKeepsKeysUnique(rows: seq<Row>, p: Row -> bool)
    requires KeysUnique(rows)
    ensures KeysUnique(Where(rows, p))
  {
    if rows != [] {
      WhereKeepsKeysUnique(rows[1..], p);
      var rest := Where(rows[1..], p);
      if p(rows[0]) {
        var w := [rows[0]] + rest;
        forall i, j | 0 <= i < j < |w| ensures Key(w[i]) != Key(w[j]) {
          if i == 0 {
            assert w[j] in rows[1..];
            var k :| 0 <= k < |rows[1..]| && rows[1..][k] == w[j];
            assert rows[k + 1] == w[j];
          } else {
            assert w[i] == rest[i - 1] && w[j] == rest[j - 1];
          }
        }
      }
    }
  }

  /**
   * What the two-phase "latest qualifying row per loan" queries fetch, on a
   * keyed table: every fetched row passes the filter and is its loan's
   * latest passing row.
   */
  lemma {:induction false} LatestPerLoanIsLatest(rows: seq<Row>, p: Row -> bool, x: Row)
    requires KeysUnique(rows)
    requires x in LatestPerLoan(rows, p)
    ensures p(x)
    ensures forall y :: y in rows && p(y) && y.loanId == x.loanId ==> y.date <= x.date
  {
    var m := LatestDates(rows, p);
    assert x in rows && AtLatest(m)(x);
    var z :| z in Where(rows, p) && LoanOf(z) == x.loanId && DateOf(z) == m[x.loanId];
    SameKeySameRow(rows, x, z);
    forall y | y in rows && p(y) && y.loanId == x.loanId ensures y.date <= x.date {
      assert y in Where(rows, p);
    }
  }

  /** Every loan with a row passing the filter is fetched (no keys needed). */
  lemma {:induction false} LatestPerLoanCovers(rows: seq<Row>, p: Row -> bool, y: Row)
    requires y in rows && p(y)
    ensures exists x :: x in LatestPerLoan(rows, p) && x.loanId == y.loanId
  {
    var m := LatestDates(rows, p);
    assert y in Where(rows, p);
    var z :| z in Where(rows, p) && LoanOf(z) == y.loanId && DateOf(z) == m[y.loanId];
    assert AtLatest(m)(z);
    assert z in LatestPerLoan(rows, p);
  }

  /** Phase two has rows whenever phase one found a loan. */
  lemma {:induction false} LatestPerLoanNonEmpty(rows: seq<Row>, p: Row -> bool)
    requires LatestDates(rows, p) != map[]
    ensures LatestPerLoan(rows, p) != []
  {
    LatestDatesEmpty(rows, p);
    var y :| y in rows && p(y);
    LatestPerLoanCovers(rows, p, y);
  }

  /** On a keyed table no loan is fetched twice. */
  lemma {:induction false} LatestPerLoanOnePerLoan(rows: seq<Row>, p: Row -> bool)
    requires KeysUnique(rows)
    ensures forall i, j :: 0 <= i < j < |LatestPerLoan(rows, p)| ==>
      LatestPerLoan(rows, p)[i].loanId != LatestPerLoan(rows, p)[j].loanId
  {
    var m := LatestDates(rows, p);
    var latest := LatestPerLoan(rows, p);
    WhereKeepsKeysUnique(rows, AtLatest(m));
    forall i, j | 0 <= i < j < |latest| ensures latest[i].loanId != latest[j].loanId {
      assert latest[i] in latest && latest[j] in latest;
      assert AtLatest(m)(latest[i]) && AtLatest(m)(latest[j]);
    }
  }

  /** MySQL's ascending order: NULL sorts before every value. */
  predicate NullsFirstLe(a: Option<int>, b: Option<int>) {
    a.None? || (b.Some? && a.value <= b.value)
  }

  /** ORDER BY branch_id, center_id: x may be listed before y. */
  predicate SortsNoLater(x: Row, y: Row) {
    if x.branchId == y.branchId then NullsFirstLe(x.centerId, y.centerId)
    else NullsFirstLe(x.branchId, y.branchId)
  }

  /**
   * `.first` of the rows ORDER BY branch_id, center_id; among rows that tie
   * on both columns the store may return any, and the model takes the
   * earliest in table order.
   */
  function FirstInOrder(rows: seq<Row>): (r: Row)
    requires rows != []
    ensures r in rows
    ensures forall y :: y in rows ==> SortsNoLater(r, y)
  {
    if |rows| == 1 then rows[0]
    else
      var rest := FirstInOrder(rows[1..]);
      if SortsNoLater(rows[0], rest) then
        SortsTransitive(rows[0], rest, rows[1..]);
        rows[0]
      else
        assert SortsNoLater(rest, rows[0]);
        rest
  }

  /** The ORDER BY comparison is transitive. */
  lemma SortsTransitive(x: Row, y: Row, zs: seq<Row>)
    requires SortsNoLater(x, y)
    requires forall z :: z in zs ==> SortsNoLater(y, z)
    ensures forall z :: z in zs ==> SortsNoLater(x, z)
  {
  }
}
