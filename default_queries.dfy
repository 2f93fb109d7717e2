/**
 * The default detector: which loans fell behind recently, how far a
 * branch's current rows are behind, and the last known defaulted state of
 * each loan under a branch, center or client group.
 */
module DefaultQueries {
  import opened Wrappers
  import opened Relation
  import opened LoanHistoryRows

  /** The database clock now(): a day number and the seconds since that day's midnight. */
  datatype Instant = Instant(day: int, second: nat)

  /** `date < now()`: a DATE compares as the midnight that starts its day. */
  predicate BeforeNow(date: int, now: Instant) {
    date < now.day || (date == now.day && now.second > 0)
  }

  /** A row read by defaulted_loan_info: principal off schedule, dated before now. */
  predicate PrincipalMismatchBefore(r: Row, now: Instant) {
    r.actualOutstandingPrincipal != r.scheduledOutstandingPrincipal && BeforeNow(r.date, now)
  }

  function MismatchFilter(now: Instant): Row -> bool {
    (r: Row) => PrincipalMismatchBefore(r, now)
  }

  /** datediff(now(), date). */
  function Elapsed(now: Instant): Row -> int {
    (r: Row) => now.day - r.date
  }

  /**
   * defaulted_loan_info(days, date): the loans whose largest datediff(now(),
   * date) over principal-mismatched rows dated before now is below days.
   * The date argument is accepted and ignored; the clock is read instead.
   */
  function DefaultedLoanInfo(rows: seq<Row>, days: int, date: int, now: Instant): (loans: set<int>)
    ensures forall l :: l in loans <==>
      (exists x :: x in rows && x.loanId == l && PrincipalMismatchBefore(x, now)) &&
      (forall x :: x in rows && x.loanId == l && PrincipalMismatchBefore(x, now) ==> now.day - x.date < days)
  {
    var maxDiff := GroupMax(Where(rows, MismatchFilter(now)), LoanOf, Elapsed(now));
    set l | l in maxDiff && maxDiff[l] < days
  }

  /** A wider window never drops a loan. */
  lemma {:induction false} DefaultedLoanInfoMonotone(rows: seq<Row>, days1: int, days2: int, date: int, now: Instant)
    requires days1 <= days2
    ensures DefaultedLoanInfo(rows, days1, date, now) <= DefaultedLoanInfo(rows, days2, date, now)
  {
  }

  /**
   * The limitation the query is known for: a loan that fell behind long ago,
   * caught up, and fell behind again yesterday is not reported, because its
   * oldest mismatch decides.
   */
  lemma RepeatDefaultIsMissed()
    ensures var rows := [Snapshot(1, 0, 100, 90), Snapshot(1, 5, 80, 80), Snapshot(1, 9, 70, 60)];
      && PrincipalMismatchBefore(rows[2], Instant(10, 1))
      && 10 - rows[2].date < 7
      && 1 !in DefaultedLoanInfo(rows, 7, 10, Instant(10, 1))
  {
    var rows := [Snapshot(1, 0, 100, 90), Snapshot(1, 5, 80, 80), Snapshot(1, 9, 70, 60)];
    assert rows[0] in rows && PrincipalMismatchBefore(rows[0], Instant(10, 1));
  }

  /**
   * A status-5 row of branch 1, center 1 and client 1, not flagged current,
   * whose principal and total figures are both the given actual and scheduled.
   */
  function Snapshot(loan: int, date: int, actual: int, scheduled: int): Row {
    Row(loan, date, 0, false, None, None, 5, scheduled, scheduled, actual, actual, Some(1), None, Some(1), Some(1))
  }

  /** The branch query's result row: SUM(pdiff), SUM(tdiff). */
  datatype DiffSums = DiffSums(principal: Option<int>, total: Option<int>)

  /** The inner WHERE of defaulted_loan_info_by_branch. */
  predicate BranchMismatch(r: Row, branchId: int, date: int) {
    && r.actualOutstandingPrincipal != r.scheduledOutstandingPrincipal
    && r.branchId == Some(branchId)
    && r.current
    && r.date <= date
  }

  /** The outer WHERE pdiff > 0 AND tdiff > 0. */
  predicate BothBehind(r: Row) {
    PrincipalDue(r) > 0 && TotalDue(r) > 0
  }

  function BranchFilter(branchId: int, date: int): Row -> bool {
    (r: Row) => BranchMismatch(r, branchId, date) && BothBehind(r)
  }

  /**
   * defaulted_loan_info_by_branch(branch_id, date): the principal and total
   * arrears summed over the branch's current mismatched rows up to date,
   * counting only rows behind on both figures; NULL sums over no rows.
   */
  function DefaultedLoanInfoByBranch(rows: seq<Row>, branchId: int, date: int): (r: DiffSums)
    ensures r.principal.None? <==> r.total.None?
    ensures r.principal.None? <==> forall x :: x in rows ==> !(BranchMismatch(x, branchId, date) && BothBehind(x))
    ensures r.principal.Some? ==> r.principal.value > 0 && r.total.value > 0
  {
    var selected := Where(rows, BranchFilter(branchId, date));
    if selected == [] then DiffSums(None, None)
    else
      assert selected[0] in selected;
      SumPositive(selected, PrincipalDue);
      SumPositive(selected, TotalDue);
      DiffSums(SqlSum(selected, PrincipalDue), SqlSum(selected, TotalDue))
  }

  /**
   * One more row: a current mismatched row of the branch up to date that is
   * behind on both figures adds its principal and total arrears to the sums
   * (a NULL sum becomes its arrears); any other row changes neither sum.
   */
  lemma {:induction false} DefaultedLoanInfoByBranchStep(rows: seq<Row>, x: Row, branchId: int, date: int)
    ensures var before, after := DefaultedLoanInfoByBranch(rows, branchId, date), DefaultedLoanInfoByBranch(rows + [x], branchId, date);
      if BranchMismatch(x, branchId, date) && BothBehind(x)
      then after == DiffSums(SqlAdd(before.principal, PrincipalDue(x)), SqlAdd(before.total, TotalDue(x)))
      else after == before
  {
    var p := BranchFilter(branchId, date);
    WhereSnoc(rows, x, p);
    SqlSumSnoc(Where(rows, p), x, PrincipalDue);
    SqlSumSnoc(Where(rows, p), x, TotalDue);
  }

  /** A row behind on only one of the two figures changes neither sum. */
  lemma {:induction false} OneSidedRowIgnored(rows: seq<Row>, x: Row, branchId: int, date: int)
    requires !BothBehind(x)
    ensures DefaultedLoanInfoByBranch(rows + [x], branchId, date) == DefaultedLoanInfoByBranch(rows, branchId, date)
  {
    WhereAppend(rows, [x], BranchFilter(branchId, date));
    assert Where([x], BranchFilter(branchId, date)) == [];
    assert Where(rows + [x], BranchFilter(branchId, date)) == Where(rows, BranchFilter(branchId, date));
  }

  /**
   * One loan of branch 1, scheduled 1000 every day, actual 1000 on days 1-2
   * and 1200 on days 3-5, the day-5 row current.
   */
  function ScenarioRows(): seq<Row> {
    [Snapshot(1, 1, 1000, 1000), Snapshot(1, 2, 1000, 1000), Snapshot(1, 3, 1200, 1000),
     Snapshot(1, 4, 1200, 1000), Snapshot(1, 5, 1200, 1000).(current := true)]
  }

  /**
   * On day 6 the oldest mismatch is three days old: a three-day window
   * excludes the loan (the comparison is strict), a four-day one includes it.
   */
  lemma ScenarioRecentDefaulters()
    ensures 1 !in DefaultedLoanInfo(ScenarioRows(), 3, 6, Instant(6, 1))
    ensures 1 in DefaultedLoanInfo(ScenarioRows(), 4, 6, Instant(6, 1))
  {
    var rows := ScenarioRows();
    assert rows[2] in rows && PrincipalMismatchBefore(rows[2], Instant(6, 1));
    forall x | x in rows && PrincipalMismatchBefore(x, Instant(6, 1))
      ensures 6 - x.date < 4
    {
      assert x == rows[2] || x == rows[3] || x == rows[4];
    }
  }

  /** On day 6 the branch is 200 behind on both figures, from the current row. */
  lemma ScenarioBranchExposure()
    ensures DefaultedLoanInfoByBranch(ScenarioRows(), 1, 6) == DiffSums(Some(200), Some(200))
  {
    var rows := ScenarioRows();
    var f := BranchFilter(1, 6);
    var r5 := rows[4];
    assert Where([r5], f) == [r5];
    assert Where([rows[3], r5], f) == [r5];
    assert Where([rows[2], rows[3], r5], f) == [r5];
    assert Where([rows[1], rows[2], rows[3], r5], f) == [r5];
    assert rows == [rows[0], rows[1], rows[2], rows[3], r5];
    assert Where(rows, f) == [r5];
  }

  /** Whether a listing or a single aggregate row is asked for. */
  datatype Mode = Listing | Aggregate

  /** One listed loan: its ids, amount in default, days late and arrears. */
  datatype ListingLine = ListingLine(
    loanId: int,
    branchId: Option<int>,
    centerId: Option<int>,
    clientGroupId: Option<int>,
    clientId: Option<int>,
    amountInDefault: Option<int>,
    lateBy: Option<int>,
    totalDue: int,
    principalDue: int)

  datatype DefaultReport =
    | Line(line: ListingLine)
    | DueTotals(totalDue: int, principalDue: int)

  function LineOf(r: Row): ListingLine {
    ListingLine(r.loanId, r.branchId, r.centerId, r.clientGroupId, r.clientId,
                r.amountInDefault, r.daysOverdue, TotalDue(r), PrincipalDue(r))
  }

  /** The phase-one WHERE of defaulted_loan_info_for. */
  predicate InDefaultBefore(r: Row, e: Entity, date: int) {
    && r.date < date
    && r.amountInDefault.Some? && r.amountInDefault.value > 0
    && Overdue(r)
    && InScope(r, e)
  }

  function DefaultFilter(e: Entity, date: int): Row -> bool {
    (r: Row) => InDefaultBefore(r, e, date)
  }

  /**
   * defaulted_loan_info_for(obj, date, type): nil when no row of the
   * branch, center or client group is in default before date; otherwise,
   * over the latest such row of each loan, the first line ordered by
   * branch and center (listing) or the summed arrears (aggregate). Any
   * other kind of object leaves the scope fragment of the SQL unset.
   */
  function DefaultedLoanInfoFor(rows: seq<Row>, e: Entity, date: int, mode: Mode): (report: Option<DefaultReport>)
    requires e.Branch? || e.Center? || e.ClientGroup?
    ensures report.None? <==> forall x :: x in rows ==> !InDefaultBefore(x, e, date)
    ensures report.Some? ==> (report.value.Line? <==> mode == Listing)
    ensures report.Some? && mode == Aggregate ==>
      var latest := LatestPerLoan(rows, DefaultFilter(e, date));
      report.value == DueTotals(SumOf(latest, TotalDue), SumOf(latest, PrincipalDue))
    ensures report.Some? && mode == Listing ==>
      var latest := LatestPerLoan(rows, DefaultFilter(e, date));
      exists x :: x in latest && report.value.line == LineOf(x) && forall y :: y in latest ==> SortsNoLater(x, y)
  {
    var p := DefaultFilter(e, date);
    LatestDatesEmpty(rows, p);
    if LatestDates(rows, p) == map[] then None
    else
      LatestPerLoanNonEmpty(rows, p);
      var latest := Where(rows, AtLatest(LatestDates(rows, p)));
      match mode
      case Listing => Some(Line(LineOf(FirstInOrder(latest))))
      case Aggregate => Some(DueTotals(SumOf(latest, TotalDue), SumOf(latest, PrincipalDue)))
  }

  /**
   * On a keyed table the aggregate sums exactly one row per loan in
   * default, that loan's latest row in default before the cutoff.
   */
  lemma {:induction false} DefaultedAggregateRows(rows: seq<Row>, e: Entity, date: int)
    requires KeysUnique(rows)
    ensures var latest := LatestPerLoan(rows, DefaultFilter(e, date));
      && (forall x :: x in latest ==>
            && InDefaultBefore(x, e, date)
            && forall y :: y in rows && InDefaultBefore(y, e, date) && y.loanId == x.loanId ==> y.date <= x.date)
      && (forall y :: y in rows && InDefaultBefore(y, e, date) ==> exists x :: x in latest && x.loanId == y.loanId)
      && (forall i, j :: 0 <= i < j < |latest| ==> latest[i].loanId != latest[j].loanId)
  {
    var p := DefaultFilter(e, date);
    var latest := LatestPerLoan(rows, p);
    forall x | x in latest
      ensures InDefaultBefore(x, e, date) &&
        forall y :: y in rows && InDefaultBefore(y, e, date) && y.loanId == x.loanId ==> y.date <= x.date
    {
      LatestPerLoanIsLatest(rows, p, x);
    }
    forall y | y in rows && InDefaultBefore(y, e, date) ensures exists x :: x in latest && x.loanId == y.loanId {
      LatestPerLoanCovers(rows, p, y);
    }
    LatestPerLoanOnePerLoan(rows, p);
  }
}
