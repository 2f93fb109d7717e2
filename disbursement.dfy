/**
 * The disbursement aggregator: money lent out under a branch, center or
 * client group over a date range. It reads the origination tables (loans,
 * clients, centers) directly, not the ledger.
 */
module Disbursement {
  import opened Wrappers
  import opened Relation
  import opened LoanHistoryRows

  datatype LoanRecord = LoanRecord(
    id: int,
    clientId: int,
    amount: int,
    disbursalDate: Option<int>,
    deletedAt: Option<int>)

  datatype ClientRecord = ClientRecord(centerId: int, clientGroupId: Option<int>)

  /**
   * The organisational tables: branch and client group ids, each center's
   * branch and each client's center and group, keyed by their primary keys.
   */
  datatype Hierarchy = Hierarchy(
    branches: set<int>,
    centers: map<int, int>,
    clientGroups: set<int>,
    clients: map<int, ClientRecord>)

  /**
   * The join from the object down to the loan: branch -> center -> client
   * -> loan, center -> client -> loan, or client group -> client -> loan.
   */
  predicate UnderEntity(o: Hierarchy, l: LoanRecord, e: Entity)
    requires e.Branch? || e.Center? || e.ClientGroup?
  {
    && l.clientId in o.clients
    && match e
       case Branch(b) =>
         b in o.branches && o.clients[l.clientId].centerId in o.centers
         && o.centers[o.clients[l.clientId].centerId] == b
       case Center(c) => c in o.centers && o.clients[l.clientId].centerId == c
       case ClientGroup(g) => g in o.clientGroups && o.clients[l.clientId].clientGroupId == Some(g)
  }

  /** Disbursed within [from, to] and not deleted. */
  predicate DisbursedWithin(l: LoanRecord, from: int, to: int) {
    && l.disbursalDate.Some?
    && from <= l.disbursalDate.value <= to
    && l.deletedAt.None?
  }

  function DisbursedFilter(o: Hierarchy, e: Entity, from: int, to: int): LoanRecord -> bool
    requires e.Branch? || e.Center? || e.ClientGroup?
  {
    (l: LoanRecord) => UnderEntity(o, l, e) && DisbursedWithin(l, from, to)
  }

  function Amount(l: LoanRecord): int { l.amount }

  /** SUM(l.amount), COUNT(l.id). */
  datatype Disbursed = Disbursed(amount: Option<int>, count: nat)

  /**
   * amount_disbursed_for(obj, from, to): the amount and number of the
   * loans under obj disbursed within [from, to] and not deleted; the
   * amount is NULL when there are none. Any other kind of object leaves
   * the query unset.
   */
  function AmountDisbursedFor(o: Hierarchy, loans: seq<LoanRecord>, e: Entity, from: int, to: int): (r: Disbursed)
    requires e.Branch? || e.Center? || e.ClientGroup?
    ensures r.amount.None? <==> r.count == 0
    ensures r.count == 0 <==> forall l :: l in loans ==> !(UnderEntity(o, l, e) && DisbursedWithin(l, from, to))
    ensures r.count <= |loans|
  {
    var selected := Where(loans, DisbursedFilter(o, e, from, to));
    assert selected != [] ==> selected[0] in selected;
    Disbursed(SqlSum(selected, Amount), |selected|)
  }

  /**
   * One more loan: a loan under the object, disbursed within the range and
   * not deleted, adds one to the count and its amount to the amount (a NULL
   * amount becomes its amount); any other loan changes neither figure.
   */
  lemma {:induction false} AmountDisbursedForStep(o: Hierarchy, loans: seq<LoanRecord>, l: LoanRecord, e: Entity, from: int, to: int)
    requires e.Branch? || e.Center? || e.ClientGroup?
    ensures var before, after := AmountDisbursedFor(o, loans, e, from, to), AmountDisbursedFor(o, loans + [l], e, from, to);
      if UnderEntity(o, l, e) && DisbursedWithin(l, from, to)
      then after == Disbursed(SqlAdd(before.amount, l.amount), before.count + 1)
      else after == before
  {
    var p := DisbursedFilter(o, e, from, to);
    WhereSnoc(loans, l, p);
    SqlSumSnoc(Where(loans, p), l, Amount);
  }

  /**
   * A loan counted for a center is counted for the center's branch, so a
   * center never reports more loans than its branch.
   */
  lemma {:induction false} CenterWithinBranch(o: Hierarchy, loans: seq<LoanRecord>, c: int, from: int, to: int)
    requires c in o.centers && o.centers[c] in o.branches
    ensures AmountDisbursedFor(o, loans, Center(c), from, to).count <=
            AmountDisbursedFor(o, loans, Branch(o.centers[c]), from, to).count
  {
    WhereStronger(loans, DisbursedFilter(o, Center(c), from, to), DisbursedFilter(o, Branch(o.centers[c]), from, to));
  }

  /** Recording a deleted loan changes no disbursement figure. */
  lemma {:induction false} DeletedLoanIgnored(o: Hierarchy, loans: seq<LoanRecord>, l: LoanRecord, e: Entity, from: int, to: int)
    requires e.Branch? || e.Center? || e.ClientGroup?
    requires l.deletedAt.Some?
    ensures AmountDisbursedFor(o, loans + [l], e, from, to) == AmountDisbursedFor(o, loans, e, from, to)
  {
    var p := DisbursedFilter(o, e, from, to);
    WhereAppend(loans, [l], p);
    assert Where([l], p) == [];
    assert Where(loans + [l], p) == Where(loans, p);
  }
}
