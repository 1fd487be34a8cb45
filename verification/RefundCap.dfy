/**
 The refund protocol: partial refunds and full reversals of one transaction race
 under a lock on its id (src/reversals/reversals.service.ts:151-196, 362-409,
 444-472, 493-543). Whatever the interleaving, the stored amounts of all
 reversals together never exceed the largest amount the transaction has had,
 and never its present amount unless that amount has dropped.
 */
module RefundCap {
  import opened Money
  import opened Sums
  import opened Ledger
  import opened Reversals
  import opened Engine
  import opened OriginalAmounts

  predicate Targets(request: Request, original: Id) {
    !request.Posting? && request.original == original
  }

  // ---- The invariant ---------------------------------------------------------

  predicate PastGuards(tx: Tx) {
    PastLocking(tx) && !tx.phase.CheckingReversals? && !tx.phase.CheckingCap?
  }

  ghost predicate MayCommit(request: Request, reversals: seq<Reversal>, cap: int)
    requires !request.Posting?
  {
    match request
    case FullReversal(_, original, _, _) => !AlreadyReversed(reversals, original)
    case PartialRefund(_, original, _, _, refundAmount, _, _) => !OverLimit(reversals, original, refundAmount, cap)
  }

  /** A plan and the amount it was made for; by now the transaction may have another amount. */
  ghost predicate PlanFits(request: Request, plan: Plan)
    requires !request.Posting?
  {
    match request
    case FullReversal(_, _, _, _) => AllPositive(plan.lines) ==> 0 < plan.originalAmount
    case PartialRefund(_, _, _, _, refundAmount, policy, originalFee) =>
      && refundAmount <= plan.originalAmount as real
      && plan.feeRefund == FeeRefund(refundAmount, plan.originalAmount, originalFee, policy)
      && |plan.lines| > 0 && plan.lines[0].amount == RoundHalfUp(refundAmount) as real
  }

  /** No row before this one reverses the transaction. */
  predicate FirstOf(reversals: seq<Reversal>, p: nat, original: Id)
    requires p < |reversals|
  {
    reversals[p].original == original && forall q :: 0 <= q < p ==> reversals[q].original != original
  }

  /** The request's row is stored; that of a full reversal is the first of its transaction. */
  ghost predicate IsRecorded(request: Request, tx: Tx, reversals: seq<Reversal>)
    requires !request.Posting?
  {
    exists p :: 0 <= p < |reversals| && reversals[p] == NewReversal(request, tx)
      && (request.FullReversal? ==> FirstOf(reversals, p, request.original))
  }

  ghost predicate RequestOk(request: Request, tx: Tx, db: Database, original: Id, low: int, high: int) {
    Targets(request, original) ==>
      && (InTransaction(tx) || tx.phase.Committed? ==>
            PlanFits(request, tx.plan) && Within(tx.plan.originalAmount, low, high))
      && (PastGuards(tx) ==> MayCommit(request, db.reversals, tx.plan.originalAmount))
      && (tx.phase.Committed? ==> IsRecorded(request, tx, db.reversals))
  }

  ghost predicate RowsPositive(reversals: seq<Reversal>, original: Id) {
    forall r :: r in reversals && r.original == original ==> 0 < r.amount
  }

  /** The stored reversals fit under `high`, and so does what is under way, if the transaction's amounts do. */
  ghost predicate Capped(sys: System, s: State, original: Id, low: int, high: int) {
    && Sound(sys, s)
    && RowsPositive(s.db.reversals, original)
    && Refunded(s.db.reversals, original) <= high
    && (forall i :: 0 <= i < |s.txs| ==> RequestOk(sys.requests[i], s.txs[i], s.db, original, low, high))
  }

  // ---- What a plan that was accepted looks like ------------------------------

  /** An accepted mirror has a positive original amount behind it. */
  lemma AcceptedMirrorIsPositive(originals: seq<Entry>, platformCash: Option<Id>)
    requires |originals| > 0 && AllPositive(Mirror(originals))
    ensures 0 < DeriveOriginalAmount(originals, platformCash)
  {
    forall e | e in originals ensures 0 < e.amount {
      var k :| 0 <= k < |originals| && originals[k] == e;
      assert Mirror(originals)[k].amount > 0.0;
    }
    var economic := NotOn(originals, platformCash);
    assert originals[0] in originals;
    if |economic| > 0 {
      assert economic[0] in economic;
    }
  }

  /** A plan fits the amount of the rows it is made from. */
  lemma PlannedFits(sys: System, db: Database, request: Request, plan: Plan)
    requires !request.Posting? && Planned(sys, db, request) == Ok(plan)
    ensures PlanFits(request, plan)
    ensures plan.originalAmount == OriginalAmount(sys, db, request.original)
    ensures OriginalsOf(db.entries, request.original) != []
  {
    hide OriginalsOf, DeriveOriginalAmount, Mirror, RefundLines, FeeRefund, AllPositive;
    var originals := OriginalsOf(db.entries, request.original);
    if request.FullReversal? {
      if AllPositive(plan.lines) {
        AcceptedMirrorIsPositive(originals, sys.platformCash);
      }
    } else {
      RefundStarts(originals, request.refundAmount, plan.feeRefund);
    }
  }

  lemma RefundStarts(originals: seq<Entry>, refundAmount: real, feeRefund: real)
    requires |originals| >= 2
    ensures |RefundLines(originals, refundAmount, feeRefund)| > 0
    ensures RefundLines(originals, refundAmount, feeRefund)[0].amount == RoundHalfUp(refundAmount) as real
  {
  }

  /** The row an accepted request records is positive, and fits under the planned amount once it may commit. */
  lemma RecordFits(request: Request, tx: Tx, reversals: seq<Reversal>)
    requires !request.Posting? && PlanFits(request, tx.plan) && AllPositive(tx.plan.lines)
    requires MayCommit(request, reversals, tx.plan.originalAmount)
    ensures 0 < NewReversal(request, tx).amount
    ensures Refunded(reversals, request.original) + NewReversal(request, tx).amount <= tx.plan.originalAmount
  {
    match request
    case FullReversal(_, original, _, _) =>
      forall r | r in reversals ensures AmountOf(original)(r) == 0 {
        assert r.original != original;
      }
      TotalZero(reversals, AmountOf(original));
    case PartialRefund(_, original, _, _, refundAmount, _, _) =>
      assert tx.plan.lines[0].amount > 0.0;
      RoundStaysBelow(refundAmount, tx.plan.originalAmount - Refunded(reversals, original));
  }

  // ---- Steps -----------------------------------------------------------------

  lemma CommitKeepsCap(sys: System, s: State, i: nat, original: Id, low: int, high: int)
    requires Capped(sys, s, original, low, high)
    requires i < |s.txs| && s.txs[i].phase.Committing?
    ensures
      var db' := AdvanceDb(s.db, s.txs[i]);
      && RowsPositive(db'.reversals, original)
      && Refunded(db'.reversals, original) <= high
  {
    hide MayCommit, NewReversal, LocksExclusive, RowsExclusive, Balanced, Keys, Refunded, PlanFits, IsRecorded;
    var request, tx := sys.requests[i], s.txs[i];
    assert TxOk(request, tx) && RequestOk(request, tx, s.db, original, low, high);
    RecordsItsOriginal(request, tx);
    if Targets(request, original) {
      RecordFits(request, tx, s.db.reversals);
      RecordAdds(s.db.reversals, NewReversal(request, tx), original);
      assert tx.recorded == [NewReversal(request, tx)];
      NothingNegative(s.db.reversals, original);
    } else {
      ForeignRowsDoNotCount(s.db.reversals, tx.recorded, original);
    }
  }

  lemma NothingNegative(reversals: seq<Reversal>, original: Id)
    requires RowsPositive(reversals, original)
    ensures 0 <= Refunded(reversals, original)
  {
    forall r | r in reversals ensures 0 <= AmountOf(original)(r) {
    }
    TotalNonNegative(reversals, AmountOf(original));
  }

  lemma RecordAdds(reversals: seq<Reversal>, added: Reversal, original: Id)
    requires added.original == original
    ensures Refunded(reversals + [added], original) == Refunded(reversals, original) + added.amount
  {
    TotalConcat(reversals, [added], AmountOf(original));
    TotalSingle(added, AmountOf(original));
  }

  lemma RecordsItsOriginal(request: Request, tx: Tx)
    ensures !request.Posting? ==> NewReversal(request, tx).original == request.original
  {
  }

  /** A request passes the guards only by the statement that evaluates them. */
  lemma GuardStatement(sys: System, db: Database, now: nat, request: Request, tx: Tx, row: nat)
    requires !request.Posting? && !tx.phase.Starting?
    requires PastGuards(AdvanceTx(sys, db, now, request, tx, row)) && !PastGuards(tx)
    ensures MayCommit(request, db.reversals, tx.plan.originalAmount)
  {
    hide Begin, Keys, Insufficient, TooLarge, WindowExceeded, FullyReversed, OriginalsOf, DeriveOriginalAmount,
      AlreadyReversed, OverLimit, Duplicate, NewReversal, NewEntry, Accepted;
  }

  lemma OnlyCommittingCommits(sys: System, db: Database, now: nat, request: Request, tx: Tx, row: nat)
    requires !tx.phase.Starting?
    ensures AdvanceTx(sys, db, now, request, tx, row).phase.Committed? ==> tx.phase.Committing? || tx.phase.Committed?
  {
    hide Begin, Keys, Insufficient, TooLarge, WindowExceeded, FullyReversed, OriginalsOf, DeriveOriginalAmount,
      AlreadyReversed, OverLimit, Duplicate, NewReversal, NewEntry, Accepted;
  }

  lemma CommittingFinishes(sys: System, db: Database, now: nat, request: Request, tx: Tx, row: nat)
    requires tx.phase.Committing?
    ensures Finished(AdvanceTx(sys, db, now, request, tx, row))
  {
  }

  /** The row a committing request adds is recorded, and of a full reversal nothing came before. */
  lemma CommitIsRecorded(request: Request, tx: Tx, tx': Tx, reversals: seq<Reversal>, added: seq<Reversal>)
    requires !request.Posting? && MayCommit(request, reversals, tx.plan.originalAmount)
    requires added == [NewReversal(request, tx)] && tx'.plan == tx.plan
    ensures IsRecorded(request, tx', reversals + added)
  {
    hide OverLimit;
    var p := |reversals|;
    assert (reversals + added)[p] == NewReversal(request, tx');
    assert request.FullReversal? ==> FirstOf(reversals + added, p, request.original);
  }

  lemma StaysRecorded(request: Request, tx: Tx, tx': Tx, reversals: seq<Reversal>, more: seq<Reversal>)
    requires !request.Posting? && IsRecorded(request, tx, reversals) && tx'.plan == tx.plan
    ensures IsRecorded(request, tx', reversals + more)
  {
    var p :| 0 <= p < |reversals| && reversals[p] == NewReversal(request, tx)
      && (request.FullReversal? ==> FirstOf(reversals, p, request.original));
    assert (reversals + more)[p] == NewReversal(request, tx');
    assert request.FullReversal? ==> FirstOf(reversals + more, p, request.original);
  }

  lemma StarterStaysOk(sys: System, db: Database, request: Request, tx: Tx, original: Id, low: int, high: int)
    requires Targets(request, original) && tx.phase.Starting?
    requires Within(OriginalAmount(sys, db, original), low, high)
    ensures RequestOk(request, Begin(sys, db, request, tx), db, original, low, high)
  {
    hide Begin, Planned, OriginalAmount, MayCommit, IsRecorded, PlanFits, Within;
    BeginPlans(sys, db, request, tx);
    var tx' := Begin(sys, db, request, tx);
    if InTransaction(tx') {
      PlannedFits(sys, db, request, tx'.plan);
    }
  }

  lemma MoverStaysOk(sys: System, s: State, i: nat, row: nat, original: Id, low: int, high: int)
    requires Capped(sys, s, original, low, high) && i < |s.txs|
    requires Within(OriginalAmount(sys, s.db, original), low, high)
    ensures
      var s' := AdvanceState(sys, s, i, row);
      RequestOk(sys.requests[i], s'.txs[i], s'.db, original, low, high)
  {
    hide AdvanceTx, Begin, OriginalAmount, MayCommit, NewReversal, LocksExclusive, RowsExclusive, IsRecorded, PlanFits,
      Within, NewEntries, Accepted;
    var request, tx := sys.requests[i], s.txs[i];
    assert RequestOk(request, tx, s.db, original, low, high) && TxOk(request, tx);
    if Targets(request, original) {
      var tx' := AdvanceTx(sys, s.db, s.now, request, tx, row);
      if tx.phase.Starting? {
        StarterStaysOk(sys, s.db, request, tx, original, low, high);
        AdvanceFromStart(sys, s.db, s.now, request, tx, row);
      } else {
        PlanIsKept(sys, s.db, s.now, request, tx, row);
        OnlyCommittingCommits(sys, s.db, s.now, request, tx, row);
        if PastGuards(tx') && !PastGuards(tx) {
          GuardStatement(sys, s.db, s.now, request, tx, row);
        }
        if tx.phase.Committing? {
          CommittingFinishes(sys, s.db, s.now, request, tx, row);
          CommitIsRecorded(request, tx, tx', s.db.reversals, tx.recorded);
        } else if tx.phase.Committed? {
          StaysRecorded(request, tx, tx', s.db.reversals, []);
          assert s.db.reversals + [] == s.db.reversals;
        }
      }
    }
  }

  lemma OthersStayOk(sys: System, s: State, i: nat, j: nat, original: Id, low: int, high: int)
    requires Capped(sys, s, original, low, high)
    requires i < |s.txs| && j < |s.txs| && i != j
    ensures RequestOk(sys.requests[j], s.txs[j], AdvanceDb(s.db, s.txs[i]), original, low, high)
  {
    hide TxOk, LocksExclusive, RowsExclusive, IsRecorded, PlanFits, Within;
    assert RequestOk(sys.requests[j], s.txs[j], s.db, original, low, high);
    if s.txs[i].phase.Committing? && Targets(sys.requests[j], original) {
      CommitRecords(sys, s, i);
      if s.txs[j].phase.Committed? {
        StaysRecorded(sys.requests[j], s.txs[j], s.txs[j], s.db.reversals, s.txs[i].recorded);
      }
      if Targets(sys.requests[i], original) {
        if PastLocking(s.txs[j]) {
          LockedTogether(sys, s, i, j, original);
        }
      } else {
        ForeignRowsDoNotCount(s.db.reversals, s.txs[i].recorded, original);
      }
    }
  }

  lemma CommitRecords(sys: System, s: State, i: nat)
    requires Sound(sys, s) && i < |s.txs| && s.txs[i].phase.Committing?
    ensures forall r :: r in s.txs[i].recorded ==> Targets(sys.requests[i], r.original)
  {
    assert TxOk(sys.requests[i], s.txs[i]);
  }

  lemma ForeignRowsDoNotCount(reversals: seq<Reversal>, more: seq<Reversal>, original: Id)
    requires forall r :: r in more ==> r.original != original
    ensures Refunded(reversals + more, original) == Refunded(reversals, original)
    ensures AlreadyReversed(reversals + more, original) == AlreadyReversed(reversals, original)
  {
    TotalConcat(reversals, more, AmountOf(original));
    TotalZero(more, AmountOf(original));
  }

  lemma AdvanceKeepsCapped(sys: System, s: State, i: nat, row: nat, original: Id, low: int, high: int)
    requires Capped(sys, s, original, low, high) && Within(OriginalAmount(sys, s.db, original), low, high)
    requires i < |s.txs| && Sound(sys, AdvanceState(sys, s, i, row))
    ensures Capped(sys, AdvanceState(sys, s, i, row), original, low, high)
  {
    hide AdvanceTx, TxOk, LocksExclusive, RowsExclusive, RequestOk, RowsPositive, Refunded, OriginalAmount, Within;
    var s' := AdvanceState(sys, s, i, row);
    if s.txs[i].phase.Committing? {
      CommitKeepsCap(sys, s, i, original, low, high);
    }
    forall j | 0 <= j < |s.txs|
      ensures RequestOk(sys.requests[j], s'.txs[j], s'.db, original, low, high)
    {
      if j == i {
        MoverStaysOk(sys, s, i, row, original, low, high);
      } else {
        OthersStayOk(sys, s, i, j, original, low, high);
      }
    }
  }

  lemma StopKeepsOk(request: Request, tx: Tx, tx': Tx, db: Database, original: Id, low: int, high: int)
    requires RequestOk(request, tx, db, original, low, high) && InTransaction(tx)
    requires tx' == Retry(tx) || tx' == Fail(tx)
    ensures RequestOk(request, tx', db, original, low, high)
  {
    hide PlanFits, Within, MayCommit, IsRecorded;
  }

  lemma NextKeepsCapped(sys: System, s: State, e: Event, s': State, original: Id, low: int, high: int)
    requires Capped(sys, s, original, low, high) && Within(OriginalAmount(sys, s.db, original), low, high)
    requires Next(sys, s, e, s')
    ensures Capped(sys, s', original, low, high)
  {
    hide TxOk, LocksExclusive, RowsExclusive, RowsPositive, Refunded, OriginalAmount, AdvanceState, RequestOk, Within,
      Retry, Fail;
    NextIsSound(sys, s, e, s');
    match e
    case Advance(i, row) => AdvanceKeepsCapped(sys, s, i, row, original, low, high);
    case Conflict(i) =>
      StopKeepsOk(sys.requests[i], s.txs[i], s'.txs[i], s.db, original, low, high);
      assert forall j :: 0 <= j < |s.txs| && j != i ==> s'.txs[j] == s.txs[j];
    case Abort(i) =>
      StopKeepsOk(sys.requests[i], s.txs[i], s'.txs[i], s.db, original, low, high);
      assert forall j :: 0 <= j < |s.txs| && j != i ==> s'.txs[j] == s.txs[j];
    case Tick(_) =>
  }

  // ---- Every run -------------------------------------------------------------

  lemma {:induction false} RunStaysCapped(sys: System, states: seq<State>, k: nat, original: Id, low: int, high: int)
    requires IsRun(sys, states) && k < |states| && AmountsWithin(sys, states, k, original, low, high)
    requires RowsPositive(states[0].db.reversals, original)
    requires Refunded(states[0].db.reversals, original) <= high
    ensures Capped(sys, states[k], original, low, high)
  {
    hide OriginalAmount, Within, RowsPositive, Refunded;
    if k == 0 {
      InitialIsSound(sys, states[0]);
      assert forall i :: 0 <= i < |states[0].txs| ==> states[0].txs[i] == Fresh;
    } else {
      RunStaysCapped(sys, states, k - 1, original, low, high);
      assert Follows(sys, states[k - 1], states[k - 1 + 1]);
      var e :| Next(sys, states[k - 1], e, states[k]);
      NextKeepsCapped(sys, states[k - 1], e, states[k], original, low, high);
    }
  }

  /**
   Over every run, whatever else is posted under the transaction's id and whenever:
   the stored reversal amounts total at most the largest amount it had so far.
   */
  lemma RefundsStayUnderThePeak(sys: System, states: seq<State>, k: nat, original: Id)
    requires IsRun(sys, states) && k < |states|
    requires RowsPositive(states[0].db.reversals, original)
    requires Refunded(states[0].db.reversals, original) <= OriginalAmount(sys, states[0].db, original)
    ensures RowsPositive(states[k].db.reversals, original)
    ensures Refunded(states[k].db.reversals, original) <= PeakAmount(sys, states, k, original)
  {
    hide OriginalAmount, Refunded, RowsPositive, IsRun, PeakAmount;
    WithinThePeak(sys, states, k, original);
    RunStaysCapped(sys, states, k, original, 0, PeakAmount(sys, states, k, original));
  }

  /**
   Over every run the stored reversal amounts total at most the amount the
   transaction has by then, if one journal is posted under its id, or if every
   journal posted under it has a line off platform cash.
   */
  lemma RefundsStayCapped(sys: System, states: seq<State>, k: nat, original: Id)
    requires IsRun(sys, states) && k < |states|
    requires PostedOnce(sys, states[0].db, original) || PostsOffCash(sys, states[0].db, original)
    requires RowsPositive(states[0].db.reversals, original)
    requires Refunded(states[0].db.reversals, original) <= OriginalAmount(sys, states[0].db, original)
    ensures Refunded(states[k].db.reversals, original) <= OriginalAmount(sys, states[k].db, original)
  {
    hide IsRun, PostedOnce, PostsOffCash, RowsPositive, Refunded, OriginalAmount, OffCash, PeakAmount;
    forall m | 0 <= m <= k
      ensures OriginalAmount(sys, states[m].db, original) <= OriginalAmount(sys, states[k].db, original)
    {
      if PostedOnce(sys, states[0].db, original) {
        AmountGrowsPostedOnce(sys, states, m, k, original);
      } else {
        AmountGrowsOffCash(sys, states, m, k, original);
      }
    }
    PeakIsLargest(sys, states, k, original);
    RefundsStayUnderThePeak(sys, states, k, original);
  }

  /**
   Without either condition it fails: a journal all on platform cash is reversed
   in full, a smaller one off it is then posted under the same id, and the
   reversal exceeds what the transaction amounts to by then.
   */
  lemma SmallerJournalLeavesTheCapBehind(original: Id, reversalId: Id, cash: Id, payer: Id, payee: Id, key: string,
                                         currency: string, large: nat, small: nat)
    requires 0 < small < large && payer != cash && payee != cash
    ensures
      var first, second := Transfer(cash, cash, large, currency), Transfer(payer, payee, small, currency);
      var before := Posted("first", original, first);
      var after := before + Posted("second", original, second);
      var plan := PlanReversal(before, original, Some(cash));
      && Accepted(first) && Accepted(second) && plan.Ok? && plan.value.originalAmount == large
      && DeriveOriginalAmount(OriginalsOf(after, original), Some(cash)) == small
  {
    hide NotOn, LargestAmount, OriginalsOf, Accepted, Posted, Transfer;
    var platformCash := Some(cash);
    TransferPosted("first", original, cash, cash, large, currency, platformCash);
    TransferPosted("second", original, payer, payee, small, currency, platformCash);
    TransferAmounts("first", original, cash, cash, large, currency, platformCash);
    TransferAmounts("second", original, payer, payee, small, currency, platformCash);
    var rows, more := Posted("first", original, Transfer(cash, cash, large, currency)),
                      Posted("second", original, Transfer(payer, payee, small, currency));
    OriginalsConcat(rows, more, original);
    NotOnConcat(rows, more, platformCash);
    assert [] + more == more;
  }
}
