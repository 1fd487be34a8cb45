/**
 Fees given back by PROPORTIONAL refunds (src/reversals/reversals.service.ts:274-295),
 over every interleaving of the refund protocol. Each refund takes its share of
 the amount the transaction had when the refund was planned, so the bounds are
 between the shares of the smallest and of the largest amount it has had.
 */
module ProportionalFee {
  import opened Money
  import opened Sums
  import opened Ledger
  import opened Reversals
  import opened Engine
  import opened OriginalAmounts
  import opened RefundCap
  import opened FullReversals

  predicate IsProportional(r: Reversal, original: Id) {
    r.original == original && r.feePolicy == Proportional
  }

  function Count(original: Id): Reversal -> int {
    (r: Reversal) => if IsProportional(r, original) then 1 else 0
  }

  function FeeOf(original: Id): Reversal -> int {
    (r: Reversal) => if IsProportional(r, original) then r.feeAmountReversed else 0
  }

  function ProportionalAmountOf(original: Id): Reversal -> int {
    (r: Reversal) => if IsProportional(r, original) then r.amount else 0
  }

  /** The part of the fee that belongs to an amount. */
  function Share(amount: real, originalAmount: int, fee: real): real
    requires originalAmount > 0
  {
    amount / (originalAmount as real) * fee
  }

  /** The fee stored is at most the share of `low`, at least that of `high`, up to the slack. */
  ghost predicate RowNearShare(r: Reversal, original: Id, low: int, high: int, fee: real, slack: real)
    requires 0 < low <= high
  {
    IsProportional(r, original) ==>
      && r.feeAmountReversed as real - Share(r.amount as real, low, fee) <= slack
      && Share(r.amount as real, high, fee) - r.feeAmountReversed as real <= slack
      && r.feeAmountReversed <= RoundHalfUp(fee)
  }

  // ---- Sums of shares --------------------------------------------------------

  lemma ShareAdds(a: real, b: real, originalAmount: int, fee: real)
    requires originalAmount > 0
    ensures Share(a + b, originalAmount, fee) == Share(a, originalAmount, fee) + Share(b, originalAmount, fee)
  {
    var o := originalAmount as real;
    assert (a + b) / o == a / o + b / o;
  }

  lemma ShareOfAll(originalAmount: int, fee: real)
    requires originalAmount > 0
    ensures Share(originalAmount as real, originalAmount, fee) == fee
  {
  }

  lemma ShareMonotone(a: real, b: real, originalAmount: int, fee: real)
    requires originalAmount > 0 && fee >= 0.0 && a <= b
    ensures Share(a, originalAmount, fee) <= Share(b, originalAmount, fee)
  {
    var o := originalAmount as real;
    assert a / o <= b / o;
    var d := b / o - a / o;
    assert d * fee >= 0.0;
    assert (a / o + d) * fee == a / o * fee + d * fee;
  }

  /** Of a larger whole the share is smaller. */
  lemma ShareAntitone(amount: real, low: int, high: int, fee: real)
    requires 0 < low <= high && fee >= 0.0 && amount >= 0.0
    ensures Share(amount, high, fee) <= Share(amount, low, fee)
  {
    var l, h := low as real, high as real;
    assert amount / h <= amount / l by {
      assert amount / h * h == amount && amount / l * l == amount;
      assert amount / l >= 0.0;
      assert amount / l * h >= amount / l * l;
    }
    var d := amount / l - amount / h;
    assert d * fee >= 0.0;
    assert (amount / h + d) * fee == amount / h * fee + d * fee;
  }

  /** The totals over the proportional rows: fees given back, the share of what was refunded, the number of rows. */
  ghost predicate NearShare(rows: seq<Reversal>, original: Id, low: int, high: int, fee: real, slack: real)
    requires 0 < low <= high
  {
    var total := Total(rows, FeeOf(original)) as real;
    var refunded := Total(rows, ProportionalAmountOf(original)) as real;
    var n := Total(rows, Count(original)) as real;
    total - Share(refunded, low, fee) <= n * slack && Share(refunded, high, fee) - total <= n * slack
  }

  lemma Accumulate(n: real, slack: real, gap: real, more: real)
    requires gap <= n * slack && more <= slack
    ensures gap + more <= (n + 1.0) * slack
  {
    assert (n + 1.0) * slack == n * slack + slack;
  }

  lemma OneMoreNear(before: int, amount: int, total: int, stored: int, n: int, low: int, high: int, fee: real, slack: real)
    requires 0 < low <= high
    requires total as real - Share(before as real, low, fee) <= n as real * slack
    requires Share(before as real, high, fee) - total as real <= n as real * slack
    requires stored as real - Share(amount as real, low, fee) <= slack
    requires Share(amount as real, high, fee) - stored as real <= slack
    ensures (total + stored) as real - Share((before + amount) as real, low, fee) <= (n + 1) as real * slack
    ensures Share((before + amount) as real, high, fee) - (total + stored) as real <= (n + 1) as real * slack
  {
    hide Share;
    assert (before + amount) as real == before as real + amount as real;
    assert (total + stored) as real == total as real + stored as real && (n + 1) as real == n as real + 1.0;
    ShareAdds(before as real, amount as real, low, fee);
    ShareAdds(before as real, amount as real, high, fee);
    Accumulate(n as real, slack, total as real - Share(before as real, low, fee),
               stored as real - Share(amount as real, low, fee));
    Accumulate(n as real, slack, Share(before as real, high, fee) - total as real,
               Share(amount as real, high, fee) - stored as real);
  }

  lemma {:induction false} FeesNearShare(rows: seq<Reversal>, original: Id, low: int, high: int, fee: real, slack: real)
    requires 0 < low <= high
    requires forall r :: r in rows ==> RowNearShare(r, original, low, high, fee, slack)
    ensures NearShare(rows, original, low, high, fee, slack)
  {
    if |rows| == 0 {
      assert Share(0.0, low, fee) == 0.0 && Share(0.0, high, fee) == 0.0;
    } else {
      hide Share, RoundHalfUp, RowNearShare, IsProportional, NearShare;
      var front, last := rows[..|rows| - 1], rows[|rows| - 1];
      FeesNearShare(front, original, low, high, fee, slack);
      assert RowNearShare(last, original, low, high, fee, slack);
      OneMoreRowNear(rows, original, low, high, fee, slack);
    }
  }

  /** The three totals with one more row. */
  lemma OneMoreRowCounts(rows: seq<Reversal>, original: Id)
    requires |rows| > 0
    ensures
      var front, last := rows[..|rows| - 1], rows[|rows| - 1];
      var proportional := IsProportional(last, original);
      && Total(rows, FeeOf(original)) == Total(front, FeeOf(original)) + (if proportional then last.feeAmountReversed else 0)
      && Total(rows, ProportionalAmountOf(original))
           == Total(front, ProportionalAmountOf(original)) + (if proportional then last.amount else 0)
      && Total(rows, Count(original)) == Total(front, Count(original)) + (if proportional then 1 else 0)
  {
  }

  lemma OneMoreRowNear(rows: seq<Reversal>, original: Id, low: int, high: int, fee: real, slack: real)
    requires 0 < low <= high && |rows| > 0
    requires NearShare(rows[..|rows| - 1], original, low, high, fee, slack)
    requires RowNearShare(rows[|rows| - 1], original, low, high, fee, slack)
    ensures NearShare(rows, original, low, high, fee, slack)
  {
    hide Share, RoundHalfUp, Total, IsProportional;
    OneMoreRowCounts(rows, original);
    var front, last := rows[..|rows| - 1], rows[|rows| - 1];
    var refunded, total := Total(front, ProportionalAmountOf(original)), Total(front, FeeOf(original));
    if IsProportional(last, original) {
      OneMoreNear(refunded, last.amount, total, last.feeAmountReversed, Total(front, Count(original)), low, high, fee, slack);
      assert Total(rows, FeeOf(original)) == total + last.feeAmountReversed;
      assert Total(rows, ProportionalAmountOf(original)) == refunded + last.amount;
      assert Total(rows, Count(original)) == Total(front, Count(original)) + 1;
    } else {
      assert Total(rows, FeeOf(original)) == total && Total(rows, ProportionalAmountOf(original)) == refunded;
      assert Total(rows, Count(original)) == Total(front, Count(original));
    }
  }

  // ---- One refund ------------------------------------------------------------

  /** The refunds of the run that ask for proportional fees all know the same original fee. */
  ghost predicate SameFee(sys: System, original: Id, fee: real) {
    forall i :: 0 <= i < |sys.requests| && Targets(sys.requests[i], original)
      && sys.requests[i].PartialRefund? && sys.requests[i].policy == Proportional
      ==> sys.requests[i].originalFee == fee
  }

  ghost predicate WholeRefunds(sys: System, original: Id) {
    forall i :: 0 <= i < |sys.requests| && Targets(sys.requests[i], original) && sys.requests[i].PartialRefund?
      ==> IsWhole(sys.requests[i].refundAmount)
  }

  /** Half a tick per refund; a refund with more than four decimals may be off by half a tick's share more. */
  ghost predicate SlackFor(sys: System, original: Id, low: int, fee: real, slack: real)
    requires low > 0
  {
    (WholeRefunds(sys, original) && slack == 0.5) || slack == 0.5 + Share(0.5, low, fee)
  }

  lemma RoundedShare(refundAmount: real, originalAmount: int, fee: real, slack: real)
    requires originalAmount > 0 && fee >= 0.0 && refundAmount <= originalAmount as real
    requires (IsWhole(refundAmount) && slack == 0.5) || 0.5 + Share(0.5, originalAmount, fee) <= slack
    ensures
      var stored := RoundHalfUp(FeeRefund(refundAmount, originalAmount, fee, Proportional));
      var share := Share(RoundHalfUp(refundAmount) as real, originalAmount, fee);
      && stored as real - share <= slack && share - stored as real <= slack
      && stored <= RoundHalfUp(fee)
  {
    var exact := Share(refundAmount, originalAmount, fee);
    RoundWhole(RoundHalfUp(exact));
    ShareMonotone(refundAmount, originalAmount as real, originalAmount, fee);
    ShareOfAll(originalAmount, fee);
    RoundMonotone(exact, fee);
    var amount := RoundHalfUp(refundAmount) as real;
    if IsWhole(refundAmount) {
      RoundWhole(refundAmount.Floor);
      ShareMonotone(0.0, 0.5, originalAmount, fee);
      assert amount == refundAmount;
    } else {
      ShareMonotone(amount, refundAmount + 0.5, originalAmount, fee);
      ShareMonotone(refundAmount, amount + 0.5, originalAmount, fee);
      ShareAdds(refundAmount, 0.5, originalAmount, fee);
      ShareAdds(amount, 0.5, originalAmount, fee);
    }
  }

  /** The row of a refund planned for an amount between `low` and `high`. */
  lemma RefundNearShare(r: Reversal, original: Id, refundAmount: real, planned: int, low: int, high: int, fee: real,
                        slack: real)
    requires 0 < low <= planned <= high && fee >= 0.0 && refundAmount <= planned as real
    requires (IsWhole(refundAmount) && slack == 0.5) || slack == 0.5 + Share(0.5, low, fee)
    requires r.amount == RoundHalfUp(refundAmount) && 0 < r.amount
    requires r.feeAmountReversed == RoundHalfUp(FeeRefund(refundAmount, planned, fee, Proportional))
    ensures RowNearShare(r, original, low, high, fee, slack)
  {
    hide Share, FeeRefund, RoundHalfUp;
    ShareAntitone(0.5, low, planned, fee);
    RoundedShare(refundAmount, planned, fee, slack);
    ShareAntitone(r.amount as real, low, planned, fee);
    ShareAntitone(r.amount as real, planned, high, fee);
  }

  ghost predicate RowsNearShare(rows: seq<Reversal>, original: Id, low: int, high: int, fee: real, slack: real)
    requires 0 < low <= high
  {
    forall r :: r in rows ==> RowNearShare(r, original, low, high, fee, slack)
  }

  lemma CommittedRowNearShare(sys: System, s: State, i: nat, original: Id, low: int, high: int, fee: real, slack: real)
    requires 0 < low <= high && fee >= 0.0 && SameFee(sys, original, fee) && SlackFor(sys, original, low, fee, slack)
    requires Capped(sys, s, original, low, high)
    requires i < |s.txs| && s.txs[i].phase.Committing?
    ensures RowsNearShare(s.txs[i].recorded, original, low, high, fee, slack)
  {
    hide LocksExclusive, RowsExclusive, Share, FeeRefund, Accepted, RoundHalfUp, MayCommit, RowNearShare;
    var request, tx := sys.requests[i], s.txs[i];
    assert TxOk(request, tx) && RefundCap.RequestOk(request, tx, s.db, original, low, high);
    if Targets(request, original) && request.PartialRefund? && request.policy == Proportional {
      PostsPositive(request, tx);
      RefundNearShare(NewReversal(request, tx), original, request.refundAmount, tx.plan.originalAmount, low, high, fee,
                      slack);
    } else {
      NotProportional(request, tx, original, low, high, fee, slack);
    }
  }

  /** What an accepted refund records is positive, and so is the amount it was planned for. */
  lemma PostsPositive(request: Request, tx: Tx)
    requires request.PartialRefund? && PlanFits(request, tx.plan) && TxOk(request, tx) && tx.phase.Committing?
    ensures 0 < RoundHalfUp(request.refundAmount) && 0.0 < request.refundAmount
  {
    hide Balanced, FeeRefund;
    assert tx.plan.lines[0].amount > 0.0;
  }

  lemma NotProportional(request: Request, tx: Tx, original: Id, low: int, high: int, fee: real, slack: real)
    requires 0 < low <= high && TxOk(request, tx) && tx.phase.Committing?
    requires !(Targets(request, original) && request.PartialRefund? && request.policy == Proportional)
    ensures RowsNearShare(tx.recorded, original, low, high, fee, slack)
  {
    hide Accepted, Share;
  }

  // ---- Every run -------------------------------------------------------------

  lemma {:induction false} RowsStayNearShare(sys: System, states: seq<State>, k: nat, original: Id, low: int, high: int,
                                             fee: real, slack: real)
    requires IsRun(sys, states) && k < |states| && 0 < low <= high && AmountsWithin(sys, states, k, original, low, high)
    requires fee >= 0.0 && SameFee(sys, original, fee) && SlackFor(sys, original, low, fee, slack)
    requires RowsPositive(states[0].db.reversals, original) && Refunded(states[0].db.reversals, original) <= high
    requires RowsNearShare(states[0].db.reversals, original, low, high, fee, slack)
    ensures RowsNearShare(states[k].db.reversals, original, low, high, fee, slack)
  {
    hide OriginalAmount, RowNearShare, SlackFor, SameFee, Capped, RowsPositive, Refunded, Next, Within;
    if k > 0 {
      RowsStayNearShare(sys, states, k - 1, original, low, high, fee, slack);
      RunStaysCapped(sys, states, k - 1, original, low, high);
      var s := states[k - 1];
      assert Follows(sys, s, states[k - 1 + 1]);
      var e :| Next(sys, s, e, states[k]);
      OnlyCommitsPost(sys, s, e, states[k]);
      if states[k].db != s.db {
        CommittedRowNearShare(sys, s, e.i, original, low, high, fee, slack);
      }
    }
  }

  /** What is refunded proportionally is part of everything refunded. */
  lemma ProportionalIsPart(rows: seq<Reversal>, original: Id)
    requires RowsPositive(rows, original)
    ensures Total(rows, ProportionalAmountOf(original)) <= Refunded(rows, original)
  {
    TotalLe(rows, ProportionalAmountOf(original), AmountOf(original));
  }

  lemma TotalsStayBounded(rows: seq<Reversal>, original: Id, low: int, high: int, fee: real, slack: real)
    requires 0 < low <= high && fee >= 0.0 && RowsPositive(rows, original) && Refunded(rows, original) <= high
    requires RowsNearShare(rows, original, low, high, fee, slack)
    ensures NearShare(rows, original, low, high, fee, slack)
    ensures Total(rows, FeeOf(original)) as real
         <= Share(high as real, low, fee) + Total(rows, Count(original)) as real * slack
    ensures forall r :: r in rows && IsProportional(r, original) ==> r.feeAmountReversed <= RoundHalfUp(fee)
  {
    hide Share;
    FeesNearShare(rows, original, low, high, fee, slack);
    ProportionalIsPart(rows, original);
    ShareMonotone(Total(rows, ProportionalAmountOf(original)) as real, high as real, low, fee);
    forall r | r in rows && IsProportional(r, original) ensures r.feeAmountReversed <= RoundHalfUp(fee) {
      assert RowNearShare(r, original, low, high, fee, slack);
    }
  }

  /**
   Over every run in which the transaction, whenever it has an amount, has one
   between `low` and `high`: n proportional refunds give back fees that total,
   within n * slack, between the shares of `high` and of `low` in what they
   refunded, hence at most the fee times high / low plus n * slack, and no single
   one more than the (stored) fee. For refunds of at most four decimals the slack
   is half a tick.
   */
  lemma FeesStayBounded(sys: System, states: seq<State>, k: nat, original: Id, low: int, high: int, fee: real,
                        slack: real)
    requires IsRun(sys, states) && k < |states| && 0 < low <= high && AmountsWithin(sys, states, k, original, low, high)
    requires fee >= 0.0 && SameFee(sys, original, fee) && SlackFor(sys, original, low, fee, slack)
    requires RowsPositive(states[0].db.reversals, original) && Refunded(states[0].db.reversals, original) <= high
    requires RowsNearShare(states[0].db.reversals, original, low, high, fee, slack)
    ensures
      var rows := states[k].db.reversals;
      && NearShare(rows, original, low, high, fee, slack)
      && Total(rows, FeeOf(original)) as real
           <= Share(high as real, low, fee) + Total(rows, Count(original)) as real * slack
      && forall r :: r in rows && IsProportional(r, original) ==> r.feeAmountReversed <= RoundHalfUp(fee)
  {
    hide OriginalAmount, RowNearShare, SlackFor, SameFee, IsRun, RequestOk, Sound, RowsPositive, Refunded, NearShare,
      Total, Share, Within, AmountsWithin;
    RowsStayNearShare(sys, states, k, original, low, high, fee, slack);
    RunStaysCapped(sys, states, k, original, low, high);
    TotalsStayBounded(states[k].db.reversals, original, low, high, fee, slack);
  }

  /** For a transaction posted once the two amounts are one: at most the fee plus n * slack. */
  lemma FeesOfOneJournal(sys: System, states: seq<State>, k: nat, original: Id, cap: int, fee: real, slack: real)
    requires IsRun(sys, states) && k < |states| && PostedOnce(sys, states[0].db, original)
    requires OriginalAmount(sys, states[k].db, original) == cap > 0
    requires fee >= 0.0 && SameFee(sys, original, fee) && SlackFor(sys, original, cap, fee, slack)
    requires RowsPositive(states[0].db.reversals, original)
    requires Refunded(states[0].db.reversals, original) <= OriginalAmount(sys, states[0].db, original)
    requires RowsNearShare(states[0].db.reversals, original, cap, cap, fee, slack)
    ensures
      var rows := states[k].db.reversals;
      && NearShare(rows, original, cap, cap, fee, slack)
      && Total(rows, FeeOf(original)) as real <= fee + Total(rows, Count(original)) as real * slack
  {
    hide OriginalAmount, RowNearShare, SlackFor, SameFee, IsRun, RowsPositive, Refunded, NearShare, Total, Within,
      AmountsWithin, PostedOnce;
    OneAmount(sys, states, k, original);
    FeesStayBounded(sys, states, k, original, cap, cap, fee, slack);
    ShareOfAll(cap, fee);
  }

  /**
   When the amount grows between two refunds the fee is not a bound: the whole
   of an amount is refunded, which gives back the whole fee, the transaction then
   doubles under its id, and refunding as much again gives back half of it more.
   */
  lemma GrowingAmountGivesBackMore(original: Id, key: string, originals: seq<Entry>, grown: seq<Entry>,
                                   amount: nat, half: nat)
    requires amount > 0 && half > 1 && |originals| >= 2 && HasFeeRow(originals) && |grown| >= 2 && HasFeeRow(grown)
    ensures
      var refund, fee := amount as real, (half + half) as real;
      var first := FeeRefund(refund, amount, fee, Proportional);
      var second := FeeRefund(refund, amount + amount, fee, Proportional);
      var row := Reversal(original, "", amount, Proportional, RoundHalfUp(first), key);
      var again := Reversal(original, "", amount, Proportional, RoundHalfUp(second), key);
      && Accepted(RefundLines(originals, refund, first)) && GuardsPass([], original, refund, amount, amount)
      && Accepted(RefundLines(grown, refund, second))
      && GuardsPass([row], original, refund, amount + amount, amount + amount)
      && Total([row, again], FeeOf(original)) as real > fee + 2.0 * 0.5
  {
    hide HasFeeRow, RefundLines, Accepted;
    var fee := (half + half) as real;
    assert FeeRefund(amount as real, amount, fee, Proportional) == fee by {
      RoundWhole(half + half);
      ShareOfAll(amount, fee);
    }
    assert FeeRefund(amount as real, amount + amount, fee, Proportional) == half as real by {
      assert (amount + amount) as real == 2.0 * amount as real && fee == 2.0 * half as real;
      assert amount as real / (amount + amount) as real == 0.5;
      RoundWhole(half);
    }
    RoundWhole(half + half);
    RoundWhole(half);
    WholeRefundIsPostedIff(originals, amount, half + half);
    WholeRefundIsPostedIff(grown, amount, half);
    var row := Reversal(original, "", amount, Proportional, half + half, key);
    var again := Reversal(original, "", amount, Proportional, half, key);
    TotalSingle(row, AmountOf(original));
    TotalSingle(row, FeeOf(original));
    TotalConcat([row], [again], FeeOf(original));
    TotalSingle(again, FeeOf(original));
    assert [row] + [again] == [row, again];
  }

  /**
   With more than four decimals the half-tick bound fails: nine refunds of 1.4
   ticks out of 10 are each within the cap and posted, are stored as 1, and give
   back 126 ticks of a fee of 100.
   */
  lemma FineRefundsGiveBackMore(original: Id, key: string, originals: seq<Entry>)
    requires |originals| >= 2 && HasFeeRow(originals)
    ensures
      var fee := FeeRefund(1.4, 10, 100.0, Proportional);
      var row := Reversal(original, "", RoundHalfUp(1.4), Proportional, RoundHalfUp(fee), key);
      var rows := seq(9, k => row);
      && Accepted(RefundLines(originals, 1.4, fee))
      && (forall k :: 0 <= k < 9 ==> !OverLimit(rows[..k], original, 1.4, 10))
      && Total(rows, FeeOf(original)) as real > 100.0 + 9.0 * 0.5
  {
    hide HasFeeRow, RefundLines, Accepted;
    var row := Reversal(original, "", 1, Proportional, 14, key);
    assert RoundHalfUp(1.4) == 1;
    assert 1.4 / 10.0 * 100.0 == 14.0;
    assert FeeRefund(1.4, 10, 100.0, Proportional) == 14.0;
    assert RoundHalfUp(14.0) == 14;
    RefundIsPostedIff(originals, 1.4, 14.0);
    assert Fraction(1.4) == 0.4 && Fraction(14.0) == 0.0;
    var rows := seq(9, k => row);
    forall k | 0 <= k < 9 ensures !OverLimit(rows[..k], original, 1.4, 10) {
      Repeated(rows[..k], row, AmountOf(original));
    }
    Repeated(rows, row, FeeOf(original));
  }

  lemma {:induction false} Repeated(rows: seq<Reversal>, row: Reversal, weight: Reversal -> int)
    requires forall k :: 0 <= k < |rows| ==> rows[k] == row
    ensures Total(rows, weight) == |rows| * weight(row)
  {
    if |rows| > 0 {
      Repeated(rows[..|rows| - 1], row, weight);
    }
  }
}
