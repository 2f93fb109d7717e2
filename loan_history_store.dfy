/**
 * The write path: the LoanHistory table as a stored object, and write_for,
 * which copies one day's figures from the amortization engine into a new
 * row keyed by (loan_id, date).
 */
module LoanHistoryStore {
  import opened Wrappers
  import opened LoanHistoryRows

  /**
   * A loan as the amortization engine answers for it, as of a day number.
   * A figure the engine cannot produce is `None` (nil).
   */
  datatype LoanOracle = LoanOracle(
    id: int,
    getStatus: int -> int,
    scheduledOutstandingPrincipalOn: int -> Option<int>,
    scheduledOutstandingTotalOn: int -> Option<int>,
    actualOutstandingPrincipalOn: int -> Option<int>,
    actualOutstandingTotalOn: int -> Option<int>)

  /** The attributes whose presence the record validates, in the order it checks them. */
  datatype Field =
    | LoanRef
    | ScheduledOutstandingPrincipal
    | ScheduledOutstandingTotal
    | ActualOutstandingPrincipal
    | ActualOutstandingTotal

  /**
   * Whether field f of the record written for (loan, date) would be nil.
   * Without a loan no figure can be read, so every field is absent.
   */
  predicate Absent(loan: Option<LoanOracle>, date: int, f: Field) {
    loan.None? ||
    match f
    case LoanRef => false
    case ScheduledOutstandingPrincipal => loan.value.scheduledOutstandingPrincipalOn(date).None?
    case ScheduledOutstandingTotal => loan.value.scheduledOutstandingTotalOn(date).None?
    case ActualOutstandingPrincipal => loan.value.actualOutstandingPrincipalOn(date).None?
    case ActualOutstandingTotal => loan.value.actualOutstandingTotalOn(date).None?
  }

  /** The presence validation: the fields it reports, in the order it checks them. */
  function MissingFields(loan: Option<LoanOracle>, date: int): (missing: seq<Field>)
    ensures forall f :: f in missing <==> Absent(loan, date, f)
    ensures missing == [] <==>
      loan.Some? &&
      loan.value.scheduledOutstandingPrincipalOn(date).Some? &&
      loan.value.scheduledOutstandingTotalOn(date).Some? &&
      loan.value.actualOutstandingPrincipalOn(date).Some? &&
      loan.value.actualOutstandingTotalOn(date).Some?
  {
    var m := Check(loan, date, LoanRef) + Check(loan, date, ScheduledOutstandingPrincipal) +
      Check(loan, date, ScheduledOutstandingTotal) + Check(loan, date, ActualOutstandingPrincipal) +
      Check(loan, date, ActualOutstandingTotal);
    assert forall f :: f in m <==> f in Check(loan, date, f);
    m
  }

  /** One presence check: reports f when it is absent. */
  function Check(loan: Option<LoanOracle>, date: int, f: Field): seq<Field> {
    if Absent(loan, date, f) then [f] else []
  }

  /** Whether some row already holds key k. */
  predicate HasKey(rows: seq<Row>, k: (int, int)) {
    exists i :: 0 <= i < |rows| && Key(rows[i]) == k
  }

  /** How many rows hold key k. */
  function CountKey(rows: seq<Row>, k: (int, int)): nat {
    if rows == [] then 0
    else (if Key(rows[0]) == k then 1 else 0) + CountKey(rows[1..], k)
  }

  /** In a keyed table a key that occurs at all occurs exactly once. */
  lemma {:induction false} KeyCountIsOne(rows: seq<Row>, k: (int, int))
    requires KeysUnique(rows)
    ensures CountKey(rows, k) == if HasKey(rows, k) then 1 else 0
  {
    if rows != [] {
      assert KeysUnique(rows[1..]) by {
        forall i, j | 0 <= i < j < |rows[1..]| ensures Key(rows[1..][i]) != Key(rows[1..][j]) {
          assert rows[1..][i] == rows[i + 1] && rows[1..][j] == rows[j + 1];
        }
      }
      KeyCountIsOne(rows[1..], k);
      if Key(rows[0]) == k {
        forall i | 0 <= i < |rows[1..]| ensures Key(rows[1..][i]) != k {
          assert rows[1..][i] == rows[i + 1];
        }
        assert HasKey(rows, k) by { assert Key(rows[0]) == k; }
      } else {
        assert HasKey(rows, k) <==> HasKey(rows[1..], k) by {
          if HasKey(rows, k) {
            var i :| 0 <= i < |rows| && Key(rows[i]) == k;
            assert i > 0 && Key(rows[1..][i - 1]) == k;
          }
          if HasKey(rows[1..], k) {
            var i :| 0 <= i < |rows[1..]| && Key(rows[1..][i]) == k;
            assert Key(rows[i + 1]) == k;
          }
        }
      }
    }
  }

  /** The loan_history table. */
  class LoanHistory {
    var rows: seq<Row>

    /** The composite primary key (loan_id, date) holds. */
    ghost predicate Valid()
      reads this
    {
      KeysUnique(rows)
    }

    constructor ()
      ensures Valid() && rows == []
    {
      rows := [];
    }

    /**
     * LoanHistory.write_for(loan, date): create a row from the engine's
     * status and four outstanding figures as of date. The record is not
     * stored when validation reports a missing field, and the store's key
     * constraint refuses a second row for an existing (loan_id, date).
     */
    method WriteFor(loan: Option<LoanOracle>, date: int) returns (outcome: WriteOutcome)
      requires Valid()
      modifies this
      ensures Valid()
      ensures MissingFields(loan, date) != [] ==>
        outcome == Invalid(MissingFields(loan, date)) && rows == old(rows)
      ensures MissingFields(loan, date) == [] && HasKey(old(rows), (loan.value.id, date)) ==>
        outcome == DuplicateKey && rows == old(rows)
      ensures MissingFields(loan, date) == [] && !HasKey(old(rows), (loan.value.id, date)) ==>
        outcome.Created? && rows == old(rows) + [outcome.row]
      ensures outcome.Created? ==>
        var r := outcome.row;
        && Key(r) == (loan.value.id, date)
        && r.runNumber == 0
        && r.status == loan.value.getStatus(date)
        && Some(r.scheduledOutstandingPrincipal) == loan.value.scheduledOutstandingPrincipalOn(date)
        && Some(r.scheduledOutstandingTotal) == loan.value.scheduledOutstandingTotalOn(date)
        && Some(r.actualOutstandingPrincipal) == loan.value.actualOutstandingPrincipalOn(date)
        && Some(r.actualOutstandingTotal) == loan.value.actualOutstandingTotalOn(date)
        && !r.current && r.amountInDefault.None? && r.daysOverdue.None?
        && r.clientId.None? && r.clientGroupId.None? && r.centerId.None? && r.branchId.None?
      ensures !outcome.Invalid? ==> CountKey(rows, (loan.value.id, date)) == 1
    {
      var missing := MissingFields(loan, date);
      if missing != [] {
        outcome := Invalid(missing);
        return;
      }
      var l := loan.value;
      var key := (l.id, date);
      if HasKey(rows, key) {
        KeyCountIsOne(rows, key);
        outcome := DuplicateKey;
        return;
      }
      var r := Row(
        loanId := l.id,
        date := date,
        runNumber := 0,
        current := false,
        amountInDefault := None,
        daysOverdue := None,
        status := l.getStatus(date),
        scheduledOutstandingTotal := l.scheduledOutstandingTotalOn(date).value,
        scheduledOutstandingPrincipal := l.scheduledOutstandingPrincipalOn(date).value,
        actualOutstandingTotal := l.actualOutstandingTotalOn(date).value,
        actualOutstandingPrincipal := l.actualOutstandingPrincipalOn(date).value,
        clientId := None,
        clientGroupId := None,
        centerId := None,
        branchId := None);
      var before := rows;
      rows := rows + [r];
      forall i, j | 0 <= i < j < |rows| ensures Key(rows[i]) != Key(rows[j]) {
        if j == |before| {
          assert Key(before[i]) != key;
        } else {
          assert rows[i] == before[i] && rows[j] == before[j];
        }
      }
      assert Key(rows[|before|]) == key;
      KeyCountIsOne(rows, key);
      outcome := Created(r);
    }
  }

  /** What write_for reports back to its caller. */
  datatype WriteOutcome =
    | Created(row: Row)
    | Invalid(missing: seq<Field>)
    | DuplicateKey
}
