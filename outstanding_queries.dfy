/**
 * The rollup aggregator: outstanding balances of loans in an overdue state,
 * split into what is behind schedule and what is ahead of it, grouped by
 * client group or scoped to one organisational object.
 */
module OutstandingQueries {
  import opened Wrappers
  import opened Relation
  import opened LoanHistoryRows

  /** The phase-one WHERE of sum_outstanding_by_group. */
  predicate OverdueWithin(r: Row, from: int, to: int) {
    Overdue(r) && from <= r.date <= to
  }

  function OverdueWithinFilter(from: int, to: int): Row -> bool {
    (r: Row) => OverdueWithin(r, from, to)
  }

  /** One client group's line of sum_outstanding_by_group. */
  datatype GroupTotals = GroupTotals(
    scheduledPrincipal: int,
    scheduledTotal: int,
    actualPrincipal: int,
    actualTotal: int,
    advancePrincipal: int,
    advanceTotal: int)

  /** How far a row is ahead of schedule, or 0 when it is not. */
  function AdvancePrincipal(r: Row): int {
    if r.actualOutstandingPrincipal < r.scheduledOutstandingPrincipal
    then r.scheduledOutstandingPrincipal - r.actualOutstandingPrincipal else 0
  }

  function AdvanceTotal(r: Row): int {
    if r.actualOutstandingTotal < r.scheduledOutstandingTotal
    then r.scheduledOutstandingTotal - r.actualOutstandingTotal else 0
  }

  /** scheduled - actual, the signed amount ahead of schedule. */
  function AheadPrincipal(r: Row): int { r.scheduledOutstandingPrincipal - r.actualOutstandingPrincipal }
  function AheadTotal(r: Row): int { r.scheduledOutstandingTotal - r.actualOutstandingTotal }

  /**
   * The sums of one group's rows. The advance sums are never negative and
   * never below the net amount the group is ahead (scheduled - actual);
   * they are 0 when no row is ahead.
   */
  function GroupOutstanding(rows: seq<Row>): (t: GroupTotals)
    ensures t.advancePrincipal >= 0 && t.advanceTotal >= 0
    ensures t.advancePrincipal >= t.scheduledPrincipal - t.actualPrincipal
    ensures t.advanceTotal >= t.scheduledTotal - t.actualTotal
    ensures (forall x :: x in rows ==> x.actualOutstandingPrincipal >= x.scheduledOutstandingPrincipal) ==>
      t.advancePrincipal == 0
    ensures (forall x :: x in rows ==> x.actualOutstandingTotal >= x.scheduledOutstandingTotal) ==>
      t.advanceTotal == 0
  {
    AdvanceBounds(rows);
    GroupTotals(
      SumOf(rows, ScheduledPrincipal), SumOf(rows, ScheduledTotal),
      SumOf(rows, ActualPrincipal), SumOf(rows, ActualTotal),
      SumOf(rows, AdvancePrincipal), SumOf(rows, AdvanceTotal))
  }

  lemma {:induction false} AdvanceBounds(rows: seq<Row>)
    ensures SumOf(rows, AdvancePrincipal) >= 0 && SumOf(rows, AdvanceTotal) >= 0
    ensures SumOf(rows, AdvancePrincipal) >= SumOf(rows, ScheduledPrincipal) - SumOf(rows, ActualPrincipal)
    ensures SumOf(rows, AdvanceTotal) >= SumOf(rows, ScheduledTotal) - SumOf(rows, ActualTotal)
    ensures (forall x :: x in rows ==> x.actualOutstandingPrincipal >= x.scheduledOutstandingPrincipal) ==>
      SumOf(rows, AdvancePrincipal) == 0
    ensures (forall x :: x in rows ==> x.actualOutstandingTotal >= x.scheduledOutstandingTotal) ==>
      SumOf(rows, AdvanceTotal) == 0
  {
    SumNonNegative(rows, AdvancePrincipal);
    SumNonNegative(rows, AdvanceTotal);
    SumLe(rows, AheadPrincipal, AdvancePrincipal);
    SumLe(rows, AheadTotal, AdvanceTotal);
    SumSplit(rows, ScheduledPrincipal, AheadPrincipal, ActualPrincipal);
    SumSplit(rows, ScheduledTotal, AheadTotal, ActualTotal);
    if forall x :: x in rows ==> x.actualOutstandingPrincipal >= x.scheduledOutstandingPrincipal {
      SumNonPositive(rows, AdvancePrincipal);
    }
    if forall x :: x in rows ==> x.actualOutstandingTotal >= x.scheduledOutstandingTotal {
      SumNonPositive(rows, AdvanceTotal);
    }
  }

  /** What one row adds to its group's line. */
  function RowGroupTotals(x: Row): GroupTotals {
    GroupTotals(
      x.scheduledOutstandingPrincipal, x.scheduledOutstandingTotal,
      x.actualOutstandingPrincipal, x.actualOutstandingTotal,
      AdvancePrincipal(x), AdvanceTotal(x))
  }

  function AddGroupTotals(a: GroupTotals, b: GroupTotals): GroupTotals {
    GroupTotals(
      a.scheduledPrincipal + b.scheduledPrincipal, a.scheduledTotal + b.scheduledTotal,
      a.actualPrincipal + b.actualPrincipal, a.actualTotal + b.actualTotal,
      a.advancePrincipal + b.advancePrincipal, a.advanceTotal + b.advanceTotal)
  }

  /**
   * The sums of no rows are all 0, and one more row adds its scheduled and
   * actual figures and its advance max(0, scheduled - actual) to them.
   */
  lemma {:induction false} GroupOutstandingStep(rows: seq<Row>, x: Row)
    ensures GroupOutstanding([]) == GroupTotals(0, 0, 0, 0, 0, 0)
    ensures GroupOutstanding(rows + [x]) == AddGroupTotals(GroupOutstanding(rows), RowGroupTotals(x))
  {
    SumSnoc(rows, x, ScheduledPrincipal);
    SumSnoc(rows, x, ScheduledTotal);
    SumSnoc(rows, x, ActualPrincipal);
    SumSnoc(rows, x, ActualTotal);
    SumSnoc(rows, x, AdvancePrincipal);
    SumSnoc(rows, x, AdvanceTotal);
  }

  /** The client_group_id values (NULL among them) of the rows. */
  function GroupIds(rows: seq<Row>): set<Option<int>> {
    set r | r in rows :: r.clientGroupId
  }

  function InGroup(g: Option<int>): Row -> bool {
    (r: Row) => r.clientGroupId == g
  }

  /**
   * GROUP BY client_group_id over the fetched rows: one line per group
   * present, each with the advance guarantees of GroupOutstanding.
   */
  function ByGroup(rows: seq<Row>): (m: map<Option<int>, GroupTotals>)
    ensures forall g :: g in m <==> exists x :: x in rows && x.clientGroupId == g
    ensures forall g :: g in m ==>
      && m[g].advancePrincipal >= 0
      && m[g].advanceTotal >= 0
      && m[g].advancePrincipal >= m[g].scheduledPrincipal - m[g].actualPrincipal
      && m[g].advanceTotal >= m[g].scheduledTotal - m[g].actualTotal
  {
    map g | g in GroupIds(rows) :: GroupOutstanding(Where(rows, InGroup(g)))
  }

  /** A group's line, or all zeros for a group with no line. */
  function LineOrZero(m: map<Option<int>, GroupTotals>, g: Option<int>): GroupTotals {
    if g in m then m[g] else GroupTotals(0, 0, 0, 0, 0, 0)
  }

  /**
   * One more row: its group's line (created when the group is new) grows by
   * the row's figures, and every other group's line is unchanged.
   */
  lemma {:induction false} ByGroupStep(rows: seq<Row>, x: Row)
    ensures ByGroup(rows + [x]) ==
      ByGroup(rows)[x.clientGroupId := AddGroupTotals(LineOrZero(ByGroup(rows), x.clientGroupId), RowGroupTotals(x))]
  {
    var m, m' := ByGroup(rows), ByGroup(rows + [x]);
    var g0 := x.clientGroupId;
    var expected := m[g0 := AddGroupTotals(LineOrZero(m, g0), RowGroupTotals(x))];
    ByGroupKeysStep(rows, x);
    assert m'.Keys == expected.Keys;
    forall g | g in m'
      ensures m'[g] == expected[g]
    {
      ByGroupLineStep(rows, x, g);
      if g == g0 {
        assert expected[g] == AddGroupTotals(LineOrZero(m, g0), RowGroupTotals(x));
      } else {
        assert expected[g] == m[g];
      }
    }
    MapsEqual(m', expected);
  }

  lemma MapsEqual(a: map<Option<int>, GroupTotals>, b: map<Option<int>, GroupTotals>)
    requires a.Keys == b.Keys
    requires forall g :: g in a ==> a[g] == b[g]
    ensures a == b
  {
  }

  /** One more row adds its group to the groups present, and no other. */
  lemma ByGroupKeysStep(rows: seq<Row>, x: Row)
    ensures ByGroup(rows + [x]).Keys == ByGroup(rows).Keys + {x.clientGroupId}
  {
    var m, m' := ByGroup(rows), ByGroup(rows + [x]);
    assert x in rows + [x];
    forall g | g in m'
      ensures g in m || g == x.clientGroupId
    {
      var y :| y in rows + [x] && y.clientGroupId == g;
    }
    forall g | g in m
      ensures g in m'
    {
      var y :| y in rows && y.clientGroupId == g;
      assert y in rows + [x];
    }
  }

  /** One group's line after one more row. */
  lemma ByGroupLineStep(rows: seq<Row>, x: Row, g: Option<int>)
    requires g in ByGroup(rows + [x])
    ensures g == x.clientGroupId ==>
      ByGroup(rows + [x])[g] == AddGroupTotals(LineOrZero(ByGroup(rows), g), RowGroupTotals(x))
    ensures g != x.clientGroupId ==> g in ByGroup(rows) && ByGroup(rows + [x])[g] == ByGroup(rows)[g]
  {
    var sel := Where(rows, InGroup(g));
    WhereSnoc(rows, x, InGroup(g));
    if g == x.clientGroupId {
      GroupOutstandingStep(sel, x);
      if sel != [] {
        assert sel[0] in sel;
      }
    } else {
      var y :| y in rows + [x] && y.clientGroupId == g;
      assert y in rows;
    }
  }

  /**
   * sum_outstanding_by_group(from_date, to_date): false when no row is in
   * an overdue state within [from, to]; otherwise, over the latest such
   * row of each loan, one line of sums per client_group_id (NULL groups
   * together).
   */
  function SumOutstandingByGroup(rows: seq<Row>, from: int, to: int): (r: Option<map<Option<int>, GroupTotals>>)
    ensures r.None? <==> forall x :: x in rows ==> !OverdueWithin(x, from, to)
    ensures r.Some? ==> r.value == ByGroup(LatestPerLoan(rows, OverdueWithinFilter(from, to)))
    ensures r.Some? ==> r.value != map[]
  {
    var p := OverdueWithinFilter(from, to);
    LatestDatesEmpty(rows, p);
    if LatestDates(rows, p) == map[] then None
    else
      LatestPerLoanNonEmpty(rows, p);
      var latest := LatestPerLoan(rows, p);
      assert latest[0] in latest && latest[0].clientGroupId in ByGroup(latest);
      Some(ByGroup(latest))
  }

  /** A current, overdue (status 5) row of client group 1 on day 10. */
  function GroupSnapshot(loan: int, scheduled: int, actual: int): Row {
    Row(loan, 10, 0, true, None, None, 5, scheduled, scheduled, actual, actual, Some(loan), Some(1), Some(1), Some(1))
  }

  /**
   * Two loans of client group 1 on day 10, one 100 behind (scheduled 500,
   * actual 600) and one 50 ahead (scheduled 300, actual 250): the group's
   * line holds the plain sums and an advance of 50, the behind loan
   * contributing nothing to it.
   */
  lemma ScenarioTwoLoansOneGroup()
    ensures SumOutstandingByGroup([GroupSnapshot(1, 500, 600), GroupSnapshot(2, 300, 250)], 1, 10) ==
      Some(map[Some(1) := GroupTotals(800, 800, 850, 850, 50, 50)])
  {
    var rows := [GroupSnapshot(1, 500, 600), GroupSnapshot(2, 300, 250)];
    assert rows[0] in rows && OverdueWithin(rows[0], 1, 10);
    ScenarioLatest();
    ScenarioByGroup();
  }

  /** Both rows are their loan's latest overdue row. */
  lemma ScenarioLatest()
    ensures var rows := [GroupSnapshot(1, 500, 600), GroupSnapshot(2, 300, 250)];
      LatestPerLoan(rows, OverdueWithinFilter(1, 10)) == rows
  {
    var a, b := GroupSnapshot(1, 500, 600), GroupSnapshot(2, 300, 250);
    var rows := [a, b];
    var p := OverdueWithinFilter(1, 10);
    assert Where([b], p) == [b];
    assert Where(rows, p) == rows;
    var m := LatestDates(rows, p);
    assert GroupMax([b], LoanOf, DateOf) == map[2 := 10];
    assert m == map[2 := 10][1 := 10];
    var f := AtLatest(m);
    assert Where([b], f) == [b];
  }

  /** Both rows fall in client group 1. */
  lemma ScenarioByGroup()
    ensures ByGroup([GroupSnapshot(1, 500, 600), GroupSnapshot(2, 300, 250)]) ==
      map[Some(1) := GroupTotals(800, 800, 850, 850, 50, 50)]
  {
    var a, b := GroupSnapshot(1, 500, 600), GroupSnapshot(2, 300, 250);
    var rows := [a, b];
    assert GroupIds(rows) == {Some(1)} by {
      assert a in rows;
    }
    var g := InGroup(Some(1));
    assert Where([b], g) == [b];
    assert Where(rows, g) == rows;
    ScenarioGroupLine();
  }

  lemma ScenarioGroupLine()
    ensures GroupOutstanding([GroupSnapshot(1, 500, 600), GroupSnapshot(2, 300, 250)]) ==
      GroupTotals(800, 800, 850, 850, 50, 50)
  {
    var a, b := GroupSnapshot(1, 500, 600), GroupSnapshot(2, 300, 250);
    SumPair(a, b, ScheduledPrincipal);
    SumPair(a, b, ScheduledTotal);
    SumPair(a, b, ActualPrincipal);
    SumPair(a, b, ActualTotal);
    SumPair(a, b, AdvancePrincipal);
    SumPair(a, b, AdvanceTotal);
  }

  lemma SumPair(a: Row, b: Row, f: Row -> int)
    ensures SumOf([a, b], f) == f(a) + f(b)
  {
    assert [a, b][1..] == [b];
    assert [b][1..] == [];
    assert SumOf([b], f) == f(b) + SumOf([], f);
  }

  /** The WHERE of sum_outstanding_for(obj, from, to). */
  predicate CurrentOverdueIn(r: Row, e: Entity, from: int, to: int) {
    InScope(r, e) && r.current && from <= r.date <= to && Overdue(r)
  }

  function CurrentOverdueFilter(e: Entity, from: int, to: int): Row -> bool {
    (r: Row) => CurrentOverdueIn(r, e, from, to)
  }

  /**
   * The single line of sum_outstanding_for: scheduled sums, the positive
   * actual figures (still due), the negative ones (paid ahead), and the
   * distinct loans and clients counted.
   */
  datatype EntityTotals = EntityTotals(
    scheduledPrincipal: int,
    scheduledTotal: int,
    actualPrincipal: int,
    actualTotal: int,
    advancePrincipal: int,
    advanceTotal: int,
    loansCount: nat,
    clientsCount: nat)

  function DuePrincipal(r: Row): int {
    if r.actualOutstandingPrincipal > 0 then r.actualOutstandingPrincipal else 0
  }

  function DueTotal(r: Row): int {
    if r.actualOutstandingTotal > 0 then r.actualOutstandingTotal else 0
  }

  function PaidAheadPrincipal(r: Row): int {
    if r.actualOutstandingPrincipal < 0 then r.actualOutstandingPrincipal else 0
  }

  function PaidAheadTotal(r: Row): int {
    if r.actualOutstandingTotal < 0 then r.actualOutstandingTotal else 0
  }

  /** The sums and distinct counts of sum_outstanding_for over already-filtered rows. */
  function EntityOutstanding(rows: seq<Row>): EntityTotals {
    EntityTotals(
      SumOf(rows, ScheduledPrincipal), SumOf(rows, ScheduledTotal),
      SumOf(rows, DuePrincipal), SumOf(rows, DueTotal),
      SumOf(rows, PaidAheadPrincipal), SumOf(rows, PaidAheadTotal),
      |Distinct(rows, LoanIdOf)|, |Distinct(rows, ClientIdOf)|)
  }

  /**
   * sum_outstanding_for(obj, from, to): no line when no current row of obj
   * is in an overdue state within [from, to]; otherwise one line whose due
   * sums are non-negative, whose advance sums are non-positive, whose due
   * and advance add up to the plain actual sums, and whose counts are
   * bounded by the rows read.
   */
  function SumOutstandingFor(rows: seq<Row>, e: Entity, from: int, to: int): (r: Option<EntityTotals>)
    ensures r.None? <==> forall x :: x in rows ==> !CurrentOverdueIn(x, e, from, to)
    ensures r.Some? ==>
      var selected := Where(rows, CurrentOverdueFilter(e, from, to));
      && r.value.actualPrincipal >= 0 && r.value.actualTotal >= 0
      && r.value.advancePrincipal <= 0 && r.value.advanceTotal <= 0
      && r.value.actualPrincipal + r.value.advancePrincipal == SumOf(selected, ActualPrincipal)
      && r.value.actualTotal + r.value.advanceTotal == SumOf(selected, ActualTotal)
      && 1 <= r.value.loansCount <= |selected|
      && r.value.clientsCount <= |selected|
  {
    var selected := Where(rows, CurrentOverdueFilter(e, from, to));
    if selected == [] then None
    else
      assert selected[0] in selected && LoanIdOf(selected[0]).Some?;
      SumNonNegative(selected, DuePrincipal);
      SumNonNegative(selected, DueTotal);
      SumNonPositive(selected, PaidAheadPrincipal);
      SumNonPositive(selected, PaidAheadTotal);
      SumSplit(selected, ActualPrincipal, DuePrincipal, PaidAheadPrincipal);
      SumSplit(selected, ActualTotal, DueTotal, PaidAheadTotal);
      Some(EntityOutstanding(selected))
  }

  /** The line of sum_outstanding_for, or all zeros when there is none. */
  function TotalsOrZero(r: Option<EntityTotals>): EntityTotals {
    if r.Some? then r.value else EntityTotals(0, 0, 0, 0, 0, 0, 0, 0)
  }

  /** Whether some current overdue row of obj in range has the given loan. */
  predicate LoanCounted(rows: seq<Row>, e: Entity, from: int, to: int, loanId: int) {
    exists y :: y in rows && CurrentOverdueIn(y, e, from, to) && y.loanId == loanId
  }

  /** Whether some current overdue row of obj in range has the given client. */
  predicate ClientCounted(rows: seq<Row>, e: Entity, from: int, to: int, clientId: int) {
    exists y :: y in rows && CurrentOverdueIn(y, e, from, to) && y.clientId == Some(clientId)
  }

  /**
   * One more row: a current overdue row of obj in range adds its scheduled
   * figures to the scheduled sums, max(0, actual) to the due sums and
   * min(0, actual) to the advance sums, and counts its loan and its client
   * when they were not counted yet; any other row changes nothing.
   */
  lemma {:induction false} SumOutstandingForStep(rows: seq<Row>, x: Row, e: Entity, from: int, to: int)
    ensures var before, after := SumOutstandingFor(rows, e, from, to), SumOutstandingFor(rows + [x], e, from, to);
      if CurrentOverdueIn(x, e, from, to) then
        var t, t' := TotalsOrZero(before), TotalsOrZero(after);
        && after.Some?
        && t'.scheduledPrincipal == t.scheduledPrincipal + x.scheduledOutstandingPrincipal
        && t'.scheduledTotal == t.scheduledTotal + x.scheduledOutstandingTotal
        && t'.actualPrincipal == t.actualPrincipal + DuePrincipal(x)
        && t'.actualTotal == t.actualTotal + DueTotal(x)
        && t'.advancePrincipal == t.advancePrincipal + PaidAheadPrincipal(x)
        && t'.advanceTotal == t.advanceTotal + PaidAheadTotal(x)
        && t'.loansCount == t.loansCount + (if LoanCounted(rows, e, from, to, x.loanId) then 0 else 1)
        && t'.clientsCount == t.clientsCount +
             (if x.clientId.None? || ClientCounted(rows, e, from, to, x.clientId.value) then 0 else 1)
      else after == before
  {
    var p := CurrentOverdueFilter(e, from, to);
    WhereSnoc(rows, x, p);
    if p(x) {
      TotalsOfSelected(rows, e, from, to);
      TotalsOfSelected(rows + [x], e, from, to);
      EntityOutstandingStep(Where(rows, p), x);
      CountedIsDistinct(rows, e, from, to, x);
    }
  }

  /** One more selected row adds its figures to the sums and its new ids to the counts. */
  lemma EntityOutstandingStep(sel: seq<Row>, x: Row)
    ensures var t, t' := EntityOutstanding(sel), EntityOutstanding(sel + [x]);
      && t'.scheduledPrincipal == t.scheduledPrincipal + x.scheduledOutstandingPrincipal
      && t'.scheduledTotal == t.scheduledTotal + x.scheduledOutstandingTotal
      && t'.actualPrincipal == t.actualPrincipal + DuePrincipal(x)
      && t'.actualTotal == t.actualTotal + DueTotal(x)
      && t'.advancePrincipal == t.advancePrincipal + PaidAheadPrincipal(x)
      && t'.advanceTotal == t.advanceTotal + PaidAheadTotal(x)
      && t'.loansCount == t.loansCount + (if x.loanId in Distinct(sel, LoanIdOf) then 0 else 1)
      && t'.clientsCount == t.clientsCount +
           (if x.clientId.None? || x.clientId.value in Distinct(sel, ClientIdOf) then 0 else 1)
  {
    SumSnoc(sel, x, ScheduledPrincipal);
    SumSnoc(sel, x, ScheduledTotal);
    SumSnoc(sel, x, DuePrincipal);
    SumSnoc(sel, x, DueTotal);
    SumSnoc(sel, x, PaidAheadPrincipal);
    SumSnoc(sel, x, PaidAheadTotal);
    CountSnoc(sel, x, LoanIdOf);
    CountSnoc(sel, x, ClientIdOf);
  }

  /** A loan or client is already counted exactly when an earlier selected row has it. */
  lemma CountedIsDistinct(rows: seq<Row>, e: Entity, from: int, to: int, x: Row)
    ensures LoanCounted(rows, e, from, to, x.loanId) <==>
      x.loanId in Distinct(Where(rows, CurrentOverdueFilter(e, from, to)), LoanIdOf)
    ensures x.clientId.Some? ==> (ClientCounted(rows, e, from, to, x.clientId.value) <==>
      x.clientId.value in Distinct(Where(rows, CurrentOverdueFilter(e, from, to)), ClientIdOf))
  {
    LoanCountedIsDistinct(rows, e, from, to, x.loanId);
    if x.clientId.Some? {
      ClientCountedIsDistinct(rows, e, from, to, x.clientId.value);
    }
  }

  lemma LoanCountedIsDistinct(rows: seq<Row>, e: Entity, from: int, to: int, l: int)
    ensures LoanCounted(rows, e, from, to, l) <==> l in Distinct(Where(rows, CurrentOverdueFilter(e, from, to)), LoanIdOf)
  {
    var p := CurrentOverdueFilter(e, from, to);
    var sel := Where(rows, p);
    if LoanCounted(rows, e, from, to, l) {
      var y :| y in rows && CurrentOverdueIn(y, e, from, to) && y.loanId == l;
      assert y in sel && LoanIdOf(y) == Some(l);
    }
    if l in Distinct(sel, LoanIdOf) {
      var y :| y in sel && LoanIdOf(y) == Some(l);
      assert y in rows && p(y);
    }
  }

  lemma ClientCountedIsDistinct(rows: seq<Row>, e: Entity, from: int, to: int, c: int)
    ensures ClientCounted(rows, e, from, to, c) <==> c in Distinct(Where(rows, CurrentOverdueFilter(e, from, to)), ClientIdOf)
  {
    var p := CurrentOverdueFilter(e, from, to);
    var sel := Where(rows, p);
    if ClientCounted(rows, e, from, to, c) {
      var y :| y in rows && CurrentOverdueIn(y, e, from, to) && y.clientId == Some(c);
      assert y in sel && ClientIdOf(y) == Some(c);
    }
    if c in Distinct(sel, ClientIdOf) {
      var y :| y in sel && ClientIdOf(y) == Some(c);
      assert y in rows && p(y);
    }
  }

  /** The line, zeros standing for no line, is the sums over the selected rows. */
  lemma TotalsOfSelected(rows: seq<Row>, e: Entity, from: int, to: int)
    ensures TotalsOrZero(SumOutstandingFor(rows, e, from, to)) == EntityOutstanding(Where(rows, CurrentOverdueFilter(e, from, to)))
  {
    var sel := Where(rows, CurrentOverdueFilter(e, from, to));
    if sel == [] {
      assert Distinct(sel, LoanIdOf) == {} && Distinct(sel, ClientIdOf) == {};
    } else {
      assert sel[0] in sel;
    }
  }

  /** One more row adds one to COUNT(DISTINCT k) exactly when its value is new and not NULL. */
  lemma CountSnoc(rows: seq<Row>, x: Row, k: Row -> Option<int>)
    ensures |Distinct(rows + [x], k)| == |Distinct(rows, k)| +
      (if k(x).None? || k(x).value in Distinct(rows, k) then 0 else 1)
  {
    DistinctSnoc(rows, x, k);
    var d := Distinct(rows, k);
    if k(x).Some? {
      var v := k(x).value;
      if v in d {
        assert d + {v} == d;
      } else {
        assert |d + {v}| == |d| + 1;
      }
    } else {
      assert d + {} == d;
    }
  }

  /**
   * Splitting the table in two: the sums of the whole are the sums of the
   * parts, and a loan or client counted in the whole is counted in a part.
   */
  lemma {:induction false} SumOutstandingForAdditive(a: seq<Row>, b: seq<Row>, e: Entity, from: int, to: int)
    requires exists x :: x in a && CurrentOverdueIn(x, e, from, to)
    requires exists x :: x in b && CurrentOverdueIn(x, e, from, to)
    ensures SumOutstandingFor(a, e, from, to).Some? && SumOutstandingFor(b, e, from, to).Some?
    ensures SumOutstandingFor(a + b, e, from, to).Some?
    ensures var ta, tb, t := SumOutstandingFor(a, e, from, to).value, SumOutstandingFor(b, e, from, to).value,
                             SumOutstandingFor(a + b, e, from, to).value;
      && t.scheduledPrincipal == ta.scheduledPrincipal + tb.scheduledPrincipal
      && t.scheduledTotal == ta.scheduledTotal + tb.scheduledTotal
      && t.actualPrincipal == ta.actualPrincipal + tb.actualPrincipal
      && t.actualTotal == ta.actualTotal + tb.actualTotal
      && t.advancePrincipal == ta.advancePrincipal + tb.advancePrincipal
      && t.advanceTotal == ta.advanceTotal + tb.advanceTotal
      && t.loansCount <= ta.loansCount + tb.loansCount
      && t.clientsCount <= ta.clientsCount + tb.clientsCount
  {
    var p := CurrentOverdueFilter(e, from, to);
    var sa, sb := Where(a, p), Where(b, p);
    WhereAppend(a, b, p);
    var s := sa + sb;
    assert s == Where(a + b, p);
    var xa :| xa in a && CurrentOverdueIn(xa, e, from, to);
    var xb :| xb in b && CurrentOverdueIn(xb, e, from, to);
    assert xa in sa && xb in sb;
    SumAppend(sa, sb, ScheduledPrincipal);
    SumAppend(sa, sb, ScheduledTotal);
    SumAppend(sa, sb, DuePrincipal);
    SumAppend(sa, sb, DueTotal);
    SumAppend(sa, sb, PaidAheadPrincipal);
    SumAppend(sa, sb, PaidAheadTotal);
    DistinctUnion(sa, sb, LoanIdOf);
    DistinctUnion(sa, sb, ClientIdOf);
  }

  lemma {:induction false} DistinctUnion(a: seq<Row>, b: seq<Row>, k: Row -> Option<int>)
    ensures |Distinct(a + b, k)| <= |Distinct(a, k)| + |Distinct(b, k)|
  {
    var da, db, d := Distinct(a, k), Distinct(b, k), Distinct(a + b, k);
    forall v | v in d ensures v in da + db {
      var x :| x in a + b && k(x) == Some(v);
    }
    assert d <= da + db;
    SubsetCard(d, da + db);
  }

  lemma SubsetCard(s: set<int>, t: set<int>)
    requires s <= t
    ensures |s| <= |t|
  {
    assert t == s + (t - s);
  }
}
