/**
 Conservation: at every moment of every run, debits and credits agree within
 each currency, as of every date (src/reporting/trial-balance.service.ts:22-24,
 src/common/types/money.type.ts:41-61). assertBalanced only compares totals
 across currencies.
 */
module Conservation {
  import opened Money
  import opened Sums
  import opened Ledger
  import opened Reversals
  import opened Engine

  function InCurrency(currency: string): Entry -> int {
    (e: Entry) => if e.currency == currency then Signed(e.entryType, e.amount) else 0
  }

  ghost predicate RowsConserve(entries: seq<Entry>) {
    forall currency :: Total(entries, InCurrency(currency)) == 0
  }

  /** Postings conserve each currency as they are stored, and so do the transactions that get reversed. */
  ghost predicate RequestsConserve(sys: System, start: Database) {
    forall i :: 0 <= i < |sys.requests| ==>
      if sys.requests[i].Posting? then ConservesEachCurrency(sys.requests[i].lines)
      else RowsConserve(OriginalsOf(start.entries, sys.requests[i].original))
  }

  ghost predicate NetsToZero(entries: seq<Entry>) {
    forall currency, asOf :: Net(entries, currency, asOf) == 0
  }

  ghost predicate PlanConserves(tx: Tx) {
    InTransaction(tx) && Accepted(tx.plan.lines) ==> ConservesEachCurrency(tx.plan.lines)
  }

  ghost predicate Conserved(sys: System, s: State) {
    && Sound(sys, s)
    && NetsToZero(s.db.entries)
    && (forall i :: 0 <= i < |s.txs| && !sys.requests[i].Posting? ==>
          RowsConserve(OriginalsOf(s.db.entries, sys.requests[i].original)))
    && (forall i :: 0 <= i < |s.txs| ==> PlanConserves(s.txs[i]))
  }

  // ---- Reversal journals -----------------------------------------------------

  /** The mirror is stored with exactly the opposite net of the rows it mirrors. */
  lemma {:induction false} MirrorNegates(originals: seq<Entry>, currency: string)
    ensures StoredNet(Mirror(originals), currency) == -Total(originals, InCurrency(currency))
  {
    if |originals| > 0 {
      var front, last := originals[..|originals| - 1], originals[|originals| - 1];
      assert Mirror(originals)[..|originals| - 1] == Mirror(front);
      MirrorNegates(front, currency);
      RoundWhole(last.amount);
    }
  }

  /** All lines of a refund are whole amounts in the currency of the first original row. */
  lemma RefundIsOneCurrency(originals: seq<Entry>, refundAmount: real, feeRefund: real)
    requires |originals| >= 2 && Balanced(RefundLines(originals, refundAmount, feeRefund))
    ensures ConservesEachCurrency(RefundLines(originals, refundAmount, feeRefund))
  {
    StoredBalanced(RefundLines(originals, refundAmount, feeRefund), originals[0].currency);
  }

  lemma FirstPlanConserves(sys: System, db: Database, request: Request, tx: Tx)
    requires tx.phase.Starting? && !request.Posting?
    requires RowsConserve(OriginalsOf(db.entries, request.original))
    ensures PlanConserves(Begin(sys, db, request, tx))
  {
    var originals := OriginalsOf(db.entries, request.original);
    var tx' := Begin(sys, db, request, tx);
    if InTransaction(tx') && Accepted(tx'.plan.lines) {
      if request.FullReversal? {
        forall currency ensures StoredNet(tx'.plan.lines, currency) == 0 {
          MirrorNegates(originals, currency);
        }
      } else {
        assert tx'.plan.lines == RefundLines(originals, request.refundAmount, tx'.plan.feeRefund);
        RefundIsOneCurrency(originals, request.refundAmount, tx'.plan.feeRefund);
      }
    }
  }

  // ---- Steps -----------------------------------------------------------------

  lemma CommitKeepsNets(sys: System, s: State, i: nat)
    requires Conserved(sys, s) && i < |s.txs| && s.txs[i].phase.Committing?
    ensures NetsToZero(s.db.entries + s.txs[i].inserted)
  {
    var request, tx := sys.requests[i], s.txs[i];
    assert TxOk(request, tx) && PlanConserves(tx);
    forall currency, asOf ensures Net(s.db.entries + tx.inserted, currency, asOf) == 0 {
      TotalConcat(s.db.entries, tx.inserted, NetWeight(currency, asOf));
      StoredKeepsNet(request.journalId, tx.effectiveDate, ReferenceType(request), ReferenceId(request),
                     tx.plan.lines, currency, asOf);
      assert Net(tx.inserted, currency, asOf) == 0 by {
        assert StoredNet(tx.plan.lines, currency) == 0;
      }
      assert Net(s.db.entries, currency, asOf) == 0;
    }
  }

  lemma {:induction false} StoredRowsConserve(journalId: Id, effectiveDate: int, kind: TransactionType, referenceId: Id,
                                              lines: seq<Line>, currency: string)
    ensures Total(StoredAll(journalId, effectiveDate, kind, referenceId, lines), InCurrency(currency))
         == StoredNet(lines, currency)
  {
    if |lines| > 0 {
      var front := lines[..|lines| - 1];
      var rows := StoredAll(journalId, effectiveDate, kind, referenceId, lines);
      StoredRowsConserve(journalId, effectiveDate, kind, referenceId, front, currency);
      assert rows[..|lines| - 1] == StoredAll(journalId, effectiveDate, kind, referenceId, front);
    }
  }

  lemma InsertedConserves(sys: System, s: State, i: nat)
    requires Conserved(sys, s) && i < |s.txs| && s.txs[i].phase.Committing?
    ensures RowsConserve(s.txs[i].inserted)
  {
    hide OriginalsOf, NetsToZero, LocksExclusive, RowsExclusive;
    var request, tx := sys.requests[i], s.txs[i];
    assert TxOk(request, tx) && PlanConserves(tx);
    forall currency ensures Total(tx.inserted, InCurrency(currency)) == 0 {
      StoredRowsConserve(request.journalId, tx.effectiveDate, ReferenceType(request), ReferenceId(request),
                         tx.plan.lines, currency);
      assert StoredNet(tx.plan.lines, currency) == 0;
    }
  }

  /** The rows of a transaction stay conserved, also when the transaction itself is posted during the run. */
  lemma CommitKeepsRows(sys: System, s: State, i: nat, original: Id)
    requires Conserved(sys, s) && i < |s.txs| && s.txs[i].phase.Committing?
    requires RowsConserve(OriginalsOf(s.db.entries, original))
    ensures RowsConserve(OriginalsOf(s.db.entries + s.txs[i].inserted, original))
  {
    hide OriginalsOf, NetsToZero, PlanConserves;
    var rows := OriginalsOf(s.db.entries, original);
    InsertedConserves(sys, s, i);
    CommitAddsOriginals(sys, s, i, original);
    if ReferenceId(sys.requests[i]) == original {
      forall currency ensures Total(rows + s.txs[i].inserted, InCurrency(currency)) == 0 {
        TotalConcat(rows, s.txs[i].inserted, InCurrency(currency));
      }
    } else {
      assert rows + [] == rows;
    }
  }

  lemma PlansConserve(sys: System, start: Database, s: State, i: nat, row: nat)
    requires Conserved(sys, s) && RequestsConserve(sys, start) && i < |s.txs|
    ensures PlanConserves(AdvanceTx(sys, s.db, s.now, sys.requests[i], s.txs[i], row))
  {
    hide AdvanceTx, ConservesEachCurrency, RowsConserve, Net, Accepted;
    var request, tx := sys.requests[i], s.txs[i];
    assert PlanConserves(tx) && TxOk(request, tx);
    if tx.phase.Starting? {
      AdvanceFromStart(sys, s.db, s.now, request, tx, row);
      if request.Posting? {
        PostingPlan(sys, s.db, request, tx);
      } else {
        assert RowsConserve(OriginalsOf(s.db.entries, request.original));
        FirstPlanConserves(sys, s.db, request, tx);
      }
    } else {
      PlanIsKept(sys, s.db, s.now, request, tx, row);
    }
  }

  lemma PostingPlan(sys: System, db: Database, request: Request, tx: Tx)
    requires tx.phase.Starting? && request.Posting?
    ensures InTransaction(Begin(sys, db, request, tx)) ==> Begin(sys, db, request, tx).plan.lines == request.lines
  {
  }

  lemma NextConserves(sys: System, start: Database, s: State, e: Event, s': State)
    requires Conserved(sys, s) && RequestsConserve(sys, start)
    requires Next(sys, s, e, s')
    ensures Conserved(sys, s')
  {
    hide AdvanceTx, TxOk, LocksExclusive, RowsExclusive, RequestsConserve, NetsToZero, OriginalsOf,
      ConservesEachCurrency, RowsConserve;
    NextIsSound(sys, s, e, s');
    match e
    case Advance(i, row) =>
      PlansConserve(sys, start, s, i, row);
      if s.txs[i].phase.Committing? {
        CommitKeepsNets(sys, s, i);
        forall j | 0 <= j < |s.txs| && !sys.requests[j].Posting?
          ensures RowsConserve(OriginalsOf(s'.db.entries, sys.requests[j].original))
        {
          CommitKeepsRows(sys, s, i, sys.requests[j].original);
        }
      }
    case Conflict(i) => assert PlanConserves(s.txs[i]);
    case Abort(i) =>
    case Tick(_) =>
  }

  /** Every committed state of every run nets to zero in each currency as of every date. */
  lemma {:induction false} RunConserves(sys: System, states: seq<State>, k: nat)
    requires IsRun(sys, states) && k < |states|
    requires RequestsConserve(sys, states[0].db)
    requires NetsToZero(states[0].db.entries)
    ensures Conserved(sys, states[k])
    ensures forall currency, asOf :: Net(states[k].db.entries, currency, asOf) == 0
  {
    if k == 0 {
      InitialIsSound(sys, states[0]);
    } else {
      RunConserves(sys, states, k - 1);
      assert Follows(sys, states[k - 1], states[k - 1 + 1]);
      var e :| Next(sys, states[k - 1], e, states[k]);
      NextConserves(sys, states[0].db, states[k - 1], e, states[k]);
    }
  }
}
