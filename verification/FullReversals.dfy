/**
 Full reversals among the other reversals of their transaction
 (src/reversals/reversals.service.ts:151-196, 493-543): what a committed one
 excludes, and exactly when a refund still passes after it.
 */
module FullReversals {
  import opened Money
  import opened Sums
  import opened Ledger
  import opened Reversals
  import opened Engine
  import opened OriginalAmounts
  import opened RefundCap

  ghost predicate DistinctReversalIds(sys: System) {
    forall i, j :: 0 <= i < j < |sys.requests| && !sys.requests[i].Posting? && !sys.requests[j].Posting?
      ==> sys.requests[i].reversalId != sys.requests[j].reversalId
  }

  /** Two different rows add up. */
  lemma {:induction false} TwoRowsAdd(reversals: seq<Reversal>, original: Id, p: nat, q: nat)
    requires RowsPositive(reversals, original) && p < q < |reversals|
    requires reversals[p].original == original && reversals[q].original == original
    ensures reversals[p].amount + reversals[q].amount <= Refunded(reversals, original)
  {
    var front := reversals[..|reversals| - 1];
    assert reversals == front + [reversals[|reversals| - 1]];
    if q == |reversals| - 1 {
      TotalAtLeast(front, AmountOf(original), p);
    } else {
      TwoRowsAdd(front, original, p, q);
    }
  }

  lemma RowIsCounted(reversals: seq<Reversal>, original: Id, p: nat)
    requires RowsPositive(reversals, original) && p < |reversals| && reversals[p].original == original
    ensures reversals[p].amount <= Refunded(reversals, original)
  {
    forall r | r in reversals ensures 0 <= AmountOf(original)(r) {
    }
    TotalAtLeast(reversals, AmountOf(original), p);
  }

  /** A row that makes up all that is refunded is the only one. */
  lemma OnlyRow(reversals: seq<Reversal>, original: Id, p: nat)
    requires RowsPositive(reversals, original) && p < |reversals| && reversals[p].original == original
    requires Refunded(reversals, original) <= reversals[p].amount
    ensures Refunded(reversals, original) == reversals[p].amount
    ensures forall q :: 0 <= q < |reversals| && reversals[q].original == original ==> q == p
  {
    RowIsCounted(reversals, original, p);
    forall q | 0 <= q < |reversals| && reversals[q].original == original ensures q == p {
      if q != p {
        TwoRowsAdd(reversals, original, if p < q then p else q, if p < q then q else p);
      }
    }
  }

  lemma CommittedIsRecorded(sys: System, s: State, i: nat, original: Id, low: int, high: int) returns (p: nat)
    requires Capped(sys, s, original, low, high) && i < |s.txs| && s.txs[i].phase.Committed?
    requires Targets(sys.requests[i], original)
    ensures p < |s.db.reversals| && s.db.reversals[p] == NewReversal(sys.requests[i], s.txs[i])
    ensures s.db.reversals[p].original == original
    ensures sys.requests[i].FullReversal? ==> FirstOf(s.db.reversals, p, original)
    ensures Within(s.txs[i].plan.originalAmount, low, high)
  {
    assert RequestOk(sys.requests[i], s.txs[i], s.db, original, low, high);
    p :| 0 <= p < |s.db.reversals| && s.db.reversals[p] == NewReversal(sys.requests[i], s.txs[i])
      && (sys.requests[i].FullReversal? ==> FirstOf(s.db.reversals, p, original));
    RecordsItsOriginal(sys.requests[i], s.txs[i]);
  }

  /** Two requests never record the same row. */
  lemma DistinctRows(sys: System, s: State, i: nat, j: nat, p: nat, q: nat)
    requires |s.txs| == |sys.requests| && DistinctReversalIds(sys) && i < |s.txs| && j < |s.txs| && i != j
    requires !sys.requests[i].Posting? && !sys.requests[j].Posting?
    requires p < |s.db.reversals| && s.db.reversals[p] == NewReversal(sys.requests[i], s.txs[i])
    requires q < |s.db.reversals| && s.db.reversals[q] == NewReversal(sys.requests[j], s.txs[j])
    ensures p != q
  {
    assert sys.requests[if i < j then i else j].reversalId != sys.requests[if i < j then j else i].reversalId;
  }

  /** No other request on the transaction has committed, and what this one recorded is its only reversal. */
  ghost predicate StandsAlone(sys: System, s: State, i: nat, original: Id)
    requires |s.txs| == |sys.requests| && i < |s.txs|
  {
    && Refunded(s.db.reversals, original) == s.txs[i].plan.originalAmount
    && (forall r :: r in s.db.reversals && r.original == original ==>
          r.reversalId == ReferenceId(sys.requests[i]) && r.amount == s.txs[i].plan.originalAmount)
    && (forall j :: 0 <= j < |s.txs| && j != i && Targets(sys.requests[j], original) ==> !s.txs[j].phase.Committed?)
  }

  /** In one state: a full reversal under whose amount everything fits is alone. */
  lemma AloneUnderItsAmount(sys: System, s: State, i: nat, original: Id, low: int, high: int)
    requires Capped(sys, s, original, low, high) && DistinctReversalIds(sys) && i < |s.txs|
    requires sys.requests[i].FullReversal? && sys.requests[i].original == original && s.txs[i].phase.Committed?
    requires high <= s.txs[i].plan.originalAmount
    ensures StandsAlone(sys, s, i, original)
  {
    hide RequestOk, LocksExclusive, RowsExclusive, TxOk, Refunded, Within, DistinctReversalIds;
    var p := CommittedIsRecorded(sys, s, i, original, low, high);
    OnlyRow(s.db.reversals, original, p);
    forall j | 0 <= j < |s.txs| && j != i && Targets(sys.requests[j], original) ensures !s.txs[j].phase.Committed? {
      if s.txs[j].phase.Committed? {
        var q := CommittedIsRecorded(sys, s, j, original, low, high);
        DistinctRows(sys, s, i, j, p, q);
        assert false;
      }
    }
  }

  /**
   Over every run, whatever else is posted under the id: the row of a committed
   full reversal is the first of its transaction, no second full reversal ever
   commits, and as long as the transaction has never amounted to more than what
   was reversed nothing else commits either and the row is the only one.
   */
  lemma FullReversalStandsAlone(sys: System, states: seq<State>, k: nat, i: nat, original: Id)
    requires IsRun(sys, states) && k < |states| && i < |sys.requests| && DistinctReversalIds(sys)
    requires RowsPositive(states[0].db.reversals, original)
    requires Refunded(states[0].db.reversals, original) <= OriginalAmount(sys, states[0].db, original)
    requires sys.requests[i].FullReversal? && sys.requests[i].original == original
    requires states[k].txs[i].phase.Committed?
    ensures IsRecorded(sys.requests[i], states[k].txs[i], states[k].db.reversals)
    ensures states[k].txs[i].plan.originalAmount <= Refunded(states[k].db.reversals, original)
    ensures forall j ::
              && 0 <= j < |sys.requests| && j != i
              && sys.requests[j].FullReversal? && sys.requests[j].original == original
              ==> !states[k].txs[j].phase.Committed?
    ensures PeakAmount(sys, states, k, original) == states[k].txs[i].plan.originalAmount ==>
              StandsAlone(sys, states[k], i, original)
  {
    hide PeakAmount, OriginalAmount, RowsPositive, Refunded, RequestOk, Within, Follows, StandsAlone;
    var s, peak := states[k], PeakAmount(sys, states, k, original);
    WithinThePeak(sys, states, k, original);
    RunStaysCapped(sys, states, k, original, 0, peak);
    var p := CommittedIsRecorded(sys, s, i, original, 0, peak);
    RowIsCounted(s.db.reversals, original, p);
    forall j | 0 <= j < |sys.requests| && j != i && sys.requests[j].FullReversal? && sys.requests[j].original == original
      ensures !s.txs[j].phase.Committed?
    {
      if s.txs[j].phase.Committed? {
        var q := CommittedIsRecorded(sys, s, j, original, 0, peak);
        DistinctRows(sys, s, i, j, p, q);
        assert false;
      }
    }
    if peak == s.txs[i].plan.originalAmount {
      AloneUnderItsAmount(sys, s, i, original, 0, peak);
    }
  }

  /** For a transaction posted once: the full reversal is of the amount it has, and stands alone for good. */
  lemma FullReversalIsFinal(sys: System, states: seq<State>, k: nat, i: nat, original: Id)
    requires IsRun(sys, states) && k < |states| && i < |sys.requests| && DistinctReversalIds(sys)
    requires PostedOnce(sys, states[0].db, original)
    requires RowsPositive(states[0].db.reversals, original)
    requires Refunded(states[0].db.reversals, original) <= OriginalAmount(sys, states[0].db, original)
    requires sys.requests[i].FullReversal? && sys.requests[i].original == original
    requires states[k].txs[i].phase.Committed?
    ensures states[k].txs[i].plan.originalAmount == OriginalAmount(sys, states[k].db, original)
    ensures StandsAlone(sys, states[k], i, original)
  {
    hide OriginalAmount, RowsPositive, Refunded, RequestOk, PostedOnce, IsRun, StandsAlone;
    var s, amount := states[k], OriginalAmount(sys, states[k].db, original);
    OneAmount(sys, states, k, original);
    RunStaysCapped(sys, states, k, original, amount, amount);
    var p := CommittedIsRecorded(sys, s, i, original, amount, amount);
    assert 0 < s.db.reversals[p].amount by {
      PositiveAt(s.db.reversals, original, p);
    }
    AloneUnderItsAmount(sys, s, i, original, amount, amount);
  }

  lemma PositiveAt(reversals: seq<Reversal>, original: Id, p: nat)
    requires RowsPositive(reversals, original) && p < |reversals| && reversals[p].original == original
    ensures 0 < reversals[p].amount
  {
  }

  // ---- When a refund passes after a full reversal ----------------------------

  /** The guards of a partial refund planned for one amount while the rows now have another. */
  predicate GuardsPass(reversals: seq<Reversal>, original: Id, refundAmount: real, planned: int, now: int) {
    !FullyReversed(reversals, original, now) && !OverLimit(reversals, original, refundAmount, planned)
  }

  /** With nothing but a full reversal stored: exactly when a refund still passes. */
  lemma GuardsAfterFullIff(reversals: seq<Reversal>, original: Id, p: nat, refundAmount: real, planned: int, now: int)
    requires RowsPositive(reversals, original) && p < |reversals|
    requires reversals[p].original == original && reversals[p].feePolicy == FullFee
    requires Refunded(reversals, original) == reversals[p].amount
    ensures GuardsPass(reversals, original, refundAmount, planned, now) <==>
            reversals[p].amount != now && reversals[p].amount as real + refundAmount <= planned as real
  {
    hide Refunded;
    OnlyRow(reversals, original, p);
    assert reversals[p] in reversals;
  }

  /** The two statements before a refund posts are these guards. */
  lemma GuardSteps(sys: System, db: Database, now: nat, request: Request, tx: Tx, row: nat)
    requires request.PartialRefund? && tx.phase.CheckingReversals?
    ensures
      var once := AdvanceTx(sys, db, now, request, tx, row);
      AdvanceTx(sys, db, now, request, once, row).phase.ReadingHead? <==>
        && GuardsPass(db.reversals, request.original, request.refundAmount, tx.plan.originalAmount,
                      OriginalAmount(sys, db, request.original))
        && Accepted(tx.plan.lines)
  {
    hide Begin, Keys, Insufficient, TooLarge, WindowExceeded, FullyReversed, OriginalsOf, DeriveOriginalAmount,
      AlreadyReversed, OverLimit, Duplicate, NewReversal, NewEntry, Accepted;
  }

  /**
   In any state of any run, after a full reversal that makes up all that is
   refunded: a further refund planned on the rows of that state goes on to post
   exactly if it fits, with the full reversal, under what they amount to now.
   */
  lemma RefundAfterFullReversalIff(sys: System, states: seq<State>, k: nat, i: nat, original: Id,
                                   request: Request, tx: Tx, row: nat)
    requires IsRun(sys, states) && k < |states| && i < |sys.requests|
    requires RowsPositive(states[0].db.reversals, original)
    requires Refunded(states[0].db.reversals, original) <= OriginalAmount(sys, states[0].db, original)
    requires sys.requests[i].FullReversal? && sys.requests[i].original == original
    requires states[k].txs[i].phase.Committed?
    requires Refunded(states[k].db.reversals, original) == states[k].txs[i].plan.originalAmount
    requires request.PartialRefund? && request.original == original && request.refundAmount > 0.0
    requires tx.phase.CheckingReversals? && Accepted(tx.plan.lines)
    requires tx.plan.originalAmount == OriginalAmount(sys, states[k].db, original)
    ensures
      var s := states[k];
      var once := AdvanceTx(sys, s.db, s.now, request, tx, row);
      AdvanceTx(sys, s.db, s.now, request, once, row).phase.ReadingHead? <==>
        s.txs[i].plan.originalAmount as real + request.refundAmount <= OriginalAmount(sys, s.db, original) as real
  {
    hide PeakAmount, OriginalAmount, RowsPositive, Refunded, RequestOk, Within, Follows, AdvanceTx, GuardsPass, Accepted,
      LocksExclusive, RowsExclusive, TxOk;
    var s, peak := states[k], PeakAmount(sys, states, k, original);
    WithinThePeak(sys, states, k, original);
    RunStaysCapped(sys, states, k, original, 0, peak);
    var p := CommittedIsRecorded(sys, s, i, original, 0, peak);
    GuardsAfterFullIff(s.db.reversals, original, p, request.refundAmount, tx.plan.originalAmount,
                       OriginalAmount(sys, s.db, original));
    GuardSteps(sys, s.db, s.now, request, tx, row);
  }

  lemma OneRow(row: Reversal)
    ensures Refunded([row], row.original) == row.amount
    ensures 0 < row.amount ==> RowsPositive([row], row.original)
  {
    TotalSingle(row, AmountOf(row.original));
  }

  /**
   The ledger of such a state: two transfers are posted under one id, the second
   one larger; the first is reversed in full in between. Before the second no
   refund passes; after it a refund passes exactly up to the difference.
   */
  lemma ReusedIdReopensRefunds(original: Id, reversalId: Id, platformCash: Option<Id>, payer: Id, payee: Id, key: string,
                               currency: string, amount: nat, more: nat, refundAmount: real)
    requires amount > 0 && more > 0 && refundAmount > 0.0
    requires Some(payer) != platformCash && Some(payee) != platformCash
    ensures
      var first, second := Transfer(payer, payee, amount, currency), Transfer(payer, payee, amount + more, currency);
      var before := Posted("first", original, first);
      var after := before + Posted("second", original, second);
      var plan := PlanReversal(before, original, platformCash);
      var rows := [Reversal(original, reversalId, plan.value.originalAmount, FullFee, 0, key)];
      var now := DeriveOriginalAmount(OriginalsOf(after, original), platformCash);
      && Accepted(first) && Accepted(second) && plan.Ok? && plan.value.originalAmount == amount && now == amount + more
      && !GuardsPass(rows, original, refundAmount, amount, amount)
      && (GuardsPass(rows, original, refundAmount, now, now) <==> refundAmount <= more as real)
  {
    hide *;
    TransfersGrow(original, platformCash, payer, payee, currency, amount, more);
    var row := Reversal(original, reversalId, amount, FullFee, 0, key);
    OneRow(row);
    GuardsAfterFullIff([row], original, 0, refundAmount, amount, amount);
    GuardsAfterFullIff([row], original, 0, refundAmount, amount + more, amount + more);
  }
}
