/** What a reversal or refund would post (src/reversals/reversals.service.ts). */
module Reversals {
  import opened Money
  import opened Sums
  import opened Ledger

  datatype FeePolicy = Proportional | FullFee | NoFee

  /** A row of the reversals table. */
  datatype Reversal = Reversal(
    original: Id, reversalId: Id, amount: int, feePolicy: FeePolicy,
    feeAmountReversed: int, idempotencyKey: string)

  datatype Refusal = NotFound | ExceedsOriginal | NoCounterparty

  /** What is fixed before the database transaction starts. */
  datatype Plan = Plan(lines: seq<Line>, originalAmount: int, refundAmount: real, feeRefund: real)

  function OriginalsOf(entries: seq<Entry>, original: Id): (r: seq<Entry>)
    ensures forall e :: e in r <==> e in entries && e.referenceId == original
  {
    if |entries| == 0 then []
    else
      var front, last := entries[..|entries| - 1], entries[|entries| - 1];
      assert entries == front + [last];
      if last.referenceId == original then OriginalsOf(front, original) + [last] else OriginalsOf(front, original)
  }

  lemma {:induction false} OriginalsConcat(entries: seq<Entry>, more: seq<Entry>, original: Id)
    ensures OriginalsOf(entries + more, original) == OriginalsOf(entries, original) + OriginalsOf(more, original)
  {
    if |more| == 0 {
      assert entries + more == entries;
    } else {
      OriginalsConcat(entries, more[..|more| - 1], original);
      assert (entries + more)[..|entries + more| - 1] == entries + more[..|more| - 1];
    }
  }

  /** Rows of one reference are all or none of the original's rows. */
  lemma {:induction false} AllOrNone(rows: seq<Entry>, reference: Id, original: Id)
    requires forall e :: e in rows ==> e.referenceId == reference
    ensures OriginalsOf(rows, original) == if reference == original then rows else []
  {
    if |rows| > 0 {
      var front, last := rows[..|rows| - 1], rows[|rows| - 1];
      assert rows == front + [last];
      AllOrNone(front, reference, original);
    }
  }

  /** The reduce of deriveOriginalAmount; it starts from zero. */
  function LargestAmount(entries: seq<Entry>): (m: int)
    ensures 0 <= m
    ensures forall e :: e in entries ==> e.amount <= m
    ensures m == 0 || exists e :: e in entries && e.amount == m
  {
    if |entries| == 0 then 0
    else
      var front, last := entries[..|entries| - 1], entries[|entries| - 1];
      assert entries == front + [last];
      var m := LargestAmount(front);
      if last.amount > m then last.amount else m
  }

  function NotOn(entries: seq<Entry>, account: Option<Id>): (r: seq<Entry>)
    ensures forall e :: e in r <==> e in entries && Some(e.account) != account
  {
    if |entries| == 0 then []
    else
      var front, last := entries[..|entries| - 1], entries[|entries| - 1];
      assert entries == front + [last];
      if Some(last.account) != account then NotOn(front, account) + [last] else NotOn(front, account)
  }

  /** deriveOriginalAmount: the largest line that is not the balancing leg. */
  function DeriveOriginalAmount(entries: seq<Entry>, platformCash: Option<Id>): (m: int)
    ensures 0 <= m
  {
    var economic := NotOn(entries, platformCash);
    LargestAmount(if |economic| > 0 then economic else entries)
  }

  // ---- Full reversal ---------------------------------------------------------

  function MirrorLine(e: Entry): Line {
    Line(e.account, Flip(e.entryType), e.amount as real, e.currency, "Reversal of entry")
  }

  function Mirror(entries: seq<Entry>): (lines: seq<Line>)
    ensures |lines| == |entries|
    ensures forall k :: 0 <= k < |entries| ==> lines[k] == MirrorLine(entries[k])
  {
    seq(|entries|, k requires 0 <= k < |entries| => MirrorLine(entries[k]))
  }

  // ---- Partial refund --------------------------------------------------------

  function FeeRefund(refundAmount: real, originalAmount: int, originalFee: real, policy: FeePolicy): real {
    match policy
    case FullFee => originalFee
    case NoFee => 0.0
    case Proportional =>
      if originalAmount > 0
      then RoundHalfUp(refundAmount / (originalAmount as real) * originalFee) as real
      else 0.0
  }

  /** The head of the stable descending sort by amount. */
  function IndexOfLargest(entries: seq<Entry>): (k: nat)
    requires |entries| > 0
    ensures k < |entries|
    ensures forall j :: 0 <= j < |entries| ==> entries[j].amount <= entries[k].amount
    ensures forall j :: 0 <= j < k ==> entries[j].amount < entries[k].amount
  {
    if |entries| == 1 then 0
    else
      var k := IndexOfLargest(entries[..|entries| - 1]);
      if entries[|entries| - 1].amount > entries[k].amount then |entries| - 1 else k
  }

  /** `find((e) => e.entryType === 'CREDIT' && e.accountId !== wallet)`. */
  function FirstCreditNotOn(entries: seq<Entry>, wallet: Id): Option<Entry> {
    if |entries| == 0 then None
    else if entries[0].entryType == Credit && entries[0].account != wallet then Some(entries[0])
    else FirstCreditNotOn(entries[1..], wallet)
  }

  function RefundLines(originals: seq<Entry>, refundAmount: real, feeRefund: real): seq<Line>
    requires |originals| >= 2
  {
    var k := IndexOfLargest(originals);
    var rest := originals[..k] + originals[k + 1..];
    var wallet, merchant := originals[k], rest[IndexOfLargest(rest)];
    var currency := originals[0].currency;
    var merchantLine := Line(merchant.account, Debit, RoundHalfUp(refundAmount) as real, currency, "Partial refund");
    var walletLine :=
      Line(wallet.account, Credit, RoundHalfUp(refundAmount + feeRefund) as real, currency, "Partial refund credited");
    var feeEntry := FirstCreditNotOn(originals, wallet.account);
    if feeRefund > 0.0 && |originals| > 2 && feeEntry.Some? then
      [merchantLine,
       Line(feeEntry.value.account, Debit, RoundHalfUp(feeRefund) as real, currency, "Fee reversal"),
       walletLine]
    else
      [merchantLine, walletLine]
  }

  // ---- The guards inside the transaction -------------------------------------

  function AmountOf(original: Id): Reversal -> int {
    (r: Reversal) => if r.original == original then r.amount else 0
  }

  /** Sum of the stored amounts of the reversals of one transaction. */
  function Refunded(reversals: seq<Reversal>, original: Id): int {
    Total(reversals, AmountOf(original))
  }

  predicate AlreadyReversed(reversals: seq<Reversal>, original: Id) {
    exists r :: r in reversals && r.original == original
  }

  predicate FullyReversed(reversals: seq<Reversal>, original: Id, originalAmount: int) {
    exists r :: r in reversals && r.original == original && r.feePolicy == FullFee && r.amount == originalAmount
  }

  predicate Duplicate(reversals: seq<Reversal>, original: Id, idempotencyKey: string) {
    exists r :: r in reversals && r.original == original && r.idempotencyKey == idempotencyKey
  }

  predicate OverLimit(reversals: seq<Reversal>, original: Id, refundAmount: real, originalAmount: int) {
    Refunded(reversals, original) as real + refundAmount > originalAmount as real
  }

  function PlanReversal(entries: seq<Entry>, original: Id, platformCash: Option<Id>): Result<Plan, Refusal> {
    var originals := OriginalsOf(entries, original);
    if |originals| == 0 then Err(NotFound)
    else
      var amount := DeriveOriginalAmount(originals, platformCash);
      Ok(Plan(Mirror(originals), amount, amount as real, 0.0))
  }

  function PlanRefund(entries: seq<Entry>, original: Id, platformCash: Option<Id>, refundAmount: real,
                      policy: FeePolicy, originalFee: real): Result<Plan, Refusal> {
    var originals := OriginalsOf(entries, original);
    if |originals| == 0 then Err(NotFound)
    else
      var amount := DeriveOriginalAmount(originals, platformCash);
      if refundAmount > amount as real then Err(ExceedsOriginal)
      else if |originals| < 2 then Err(NoCounterparty)
      else
        var fee := FeeRefund(refundAmount, amount, originalFee, policy);
        Ok(Plan(RefundLines(originals, refundAmount, fee), amount, refundAmount, fee))
  }

  // ---- What a refund's journal says ------------------------------------------

  /** The fee a policy gives back: all of it, its share of the original amount to the nearest tick, or nothing. */
  ghost predicate FeeGivenBack(policy: FeePolicy, refundAmount: real, originalAmount: int, originalFee: real, fee: real) {
    && (policy == FullFee ==> fee == originalFee)
    && (policy == NoFee ==> fee == 0.0)
    && (policy == Proportional && originalAmount <= 0 ==> fee == 0.0)
    && (policy == Proportional && originalAmount > 0 ==>
          fee == RoundHalfUp(refundAmount / originalAmount as real * originalFee) as real)
  }

  /** Row `k` leads a stable descending sort by amount of the rows other than `except`. */
  ghost predicate IsLargestBut(rows: seq<Entry>, except: int, k: int) {
    && 0 <= k < |rows| && k != except
    && (forall j :: 0 <= j < |rows| && j != except ==> rows[j].amount <= rows[k].amount)
    && (forall j :: 0 <= j < k && j != except ==> rows[j].amount < rows[k].amount)
  }

  /** Row `k` is the first credit that is not on the account. */
  ghost predicate IsFirstCreditOff(rows: seq<Entry>, account: Id, k: int) {
    && 0 <= k < |rows| && rows[k].entryType == Credit && rows[k].account != account
    && forall j :: 0 <= j < k ==> rows[j].entryType == Debit || rows[j].account == account
  }

  ghost predicate Says(line: Line, account: Id, entryType: EntryType, amount: int, currency: string) {
    line.account == account && line.entryType == entryType && line.amount == amount as real && line.currency == currency
  }

  /**
   The journal of a refund: the refund is debited to the account of the second
   largest row, refund and fee are credited to the account of the largest, and a
   positive fee is debited to the first credit row off that account, if the
   original has a third row and there is such a credit.
   */
  ghost predicate IsRefundJournal(originals: seq<Entry>, refundAmount: real, fee: real, lines: seq<Line>) {
    exists w, m :: IsLargestBut(originals, -1, w) && IsLargestBut(originals, w, m)
      && SaysRefund(originals, originals[w].account, originals[m].account, refundAmount, fee, lines)
  }

  ghost predicate SaysRefund(originals: seq<Entry>, wallet: Id, merchant: Id, refundAmount: real, fee: real,
                             lines: seq<Line>)
    requires |originals| > 0
  {
    var currency := originals[0].currency;
    && |lines| >= 2
    && Says(lines[0], merchant, Debit, RoundHalfUp(refundAmount), currency)
    && Says(lines[|lines| - 1], wallet, Credit, RoundHalfUp(refundAmount + fee), currency)
    && (if exists k :: IsFirstCreditOff(originals, wallet, k) && fee > 0.0 && |originals| > 2
        then |lines| == 3 && exists k :: IsFirstCreditOff(originals, wallet, k)
                               && Says(lines[1], originals[k].account, Debit, RoundHalfUp(fee), currency)
        else |lines| == 2)
  }

  lemma LargestIsLargest(rows: seq<Entry>)
    requires |rows| > 0
    ensures IsLargestBut(rows, -1, IndexOfLargest(rows))
  {
  }

  lemma LargestOfTheRest(rows: seq<Entry>) returns (m: nat)
    requires |rows| >= 2
    ensures
      var k := IndexOfLargest(rows);
      var rest := rows[..k] + rows[k + 1..];
      IsLargestBut(rows, k, m) && rest[IndexOfLargest(rest)] == rows[m]
  {
    var k := IndexOfLargest(rows);
    var rest := rows[..k] + rows[k + 1..];
    var r := IndexOfLargest(rest);
    m := if r < k then r else r + 1;
    hide IndexOfLargest;
    assert rest[r] == rows[m];
    forall j | 0 <= j < |rows| && j != k
      ensures rows[j].amount <= rows[m].amount && (j < m ==> rows[j].amount < rows[m].amount)
    {
      assert rest[if j < k then j else j - 1] == rows[j];
    }
  }

  lemma {:induction false} FirstCreditIs(rows: seq<Entry>, wallet: Id)
    ensures FirstCreditNotOn(rows, wallet).None? ==> forall k :: !IsFirstCreditOff(rows, wallet, k)
    ensures FirstCreditNotOn(rows, wallet).Some? ==>
              exists k :: IsFirstCreditOff(rows, wallet, k) && rows[k] == FirstCreditNotOn(rows, wallet).value
    decreases |rows|
  {
    if |rows| > 0 {
      if rows[0].entryType == Credit && rows[0].account != wallet {
        assert IsFirstCreditOff(rows, wallet, 0);
      } else {
        var rest := rows[1..];
        FirstCreditIs(rest, wallet);
        forall k | IsFirstCreditOff(rows, wallet, k) ensures IsFirstCreditOff(rest, wallet, k - 1) {
          assert forall j :: 0 <= j < k - 1 ==> rest[j] == rows[j + 1];
        }
        if FirstCreditNotOn(rest, wallet).Some? {
          var k :| IsFirstCreditOff(rest, wallet, k) && rest[k] == FirstCreditNotOn(rest, wallet).value;
          assert forall j :: 0 < j < k + 1 ==> rows[j] == rest[j - 1];
          assert IsFirstCreditOff(rows, wallet, k + 1);
        }
      }
    }
  }

  /** What partialRefund builds is such a journal. */
  lemma RefundLinesSay(originals: seq<Entry>, refundAmount: real, fee: real)
    requires |originals| >= 2
    ensures IsRefundJournal(originals, refundAmount, fee, RefundLines(originals, refundAmount, fee))
  {
    var w := IndexOfLargest(originals);
    LargestIsLargest(originals);
    var m := LargestOfTheRest(originals);
    FirstCreditIs(originals, originals[w].account);
    hide IndexOfLargest, FirstCreditNotOn, RoundHalfUp, IsFirstCreditOff, IsLargestBut;
    assert SaysRefund(originals, originals[w].account, originals[m].account, refundAmount, fee,
                      RefundLines(originals, refundAmount, fee));
  }

  /** The refusal of a refund before its transaction, in the order in which the reasons are looked at. */
  ghost predicate RefusedFor(originals: seq<Entry>, originalAmount: int, refundAmount: real, refusal: Option<Refusal>) {
    refusal == if originals == [] then Some(NotFound)
               else if originalAmount as real < refundAmount then Some(ExceedsOriginal)
               else if |originals| == 1 then Some(NoCounterparty)
               else None
  }

  /** What is planned for a refund, in terms of the rows and the policy. */
  lemma RefundPlanIs(entries: seq<Entry>, original: Id, platformCash: Option<Id>, refundAmount: real,
                     policy: FeePolicy, originalFee: real)
    ensures
      var originals := OriginalsOf(entries, original);
      var amount := DeriveOriginalAmount(originals, platformCash);
      match PlanRefund(entries, original, platformCash, refundAmount, policy, originalFee)
      case Err(refusal) => RefusedFor(originals, amount, refundAmount, Some(refusal))
      case Ok(plan) =>
        && RefusedFor(originals, amount, refundAmount, None)
        && plan.originalAmount == amount && plan.refundAmount == refundAmount
        && FeeGivenBack(policy, refundAmount, amount, originalFee, plan.feeRefund)
        && IsRefundJournal(originals, refundAmount, plan.feeRefund, plan.lines)
  {
    hide OriginalsOf, DeriveOriginalAmount, RefundLines, IsRefundJournal, RoundHalfUp;
    var originals := OriginalsOf(entries, original);
    var amount := DeriveOriginalAmount(originals, platformCash);
    if |originals| >= 2 {
      RefundLinesSay(originals, refundAmount, FeeRefund(refundAmount, amount, originalFee, policy));
    }
  }

  /** Under FULL the wallet gets refund and fee, under NONE just what the merchant gives. */
  lemma PolicyDecidesTheWalletLine(originals: seq<Entry>, refundAmount: real, originalAmount: int, originalFee: real,
                                   policy: FeePolicy, fee: real, lines: seq<Line>)
    requires IsRefundJournal(originals, refundAmount, fee, lines)
    requires FeeGivenBack(policy, refundAmount, originalAmount, originalFee, fee)
    ensures |lines| >= 2
    ensures policy == FullFee ==> lines[|lines| - 1].amount == RoundHalfUp(refundAmount + originalFee) as real
    ensures policy == NoFee ==> |lines| == 2 && lines[1].amount == lines[0].amount
  {
    hide RoundHalfUp, IsLargestBut, IsFirstCreditOff;
    assert refundAmount + 0.0 == refundAmount;
  }

  /** partialRefund up to its transaction: the lines, with the fee line spliced in between. */
  method PlanPartialRefund(entries: seq<Entry>, original: Id, platformCash: Option<Id>, refundAmount: real,
                           policy: FeePolicy, originalFee: real)
    returns (r: Result<Plan, Refusal>)
    ensures r == PlanRefund(entries, original, platformCash, refundAmount, policy, originalFee)
  {
    hide OriginalsOf, DeriveOriginalAmount, IndexOfLargest, FirstCreditNotOn, RoundHalfUp, FeeRefund;
    var originals := OriginalsOf(entries, original);
    if |originals| == 0 {
      return Err(NotFound);
    }
    var originalAmount := DeriveOriginalAmount(originals, platformCash);
    if refundAmount > originalAmount as real {
      return Err(ExceedsOriginal);
    }
    var feeRefund := FeeRefund(refundAmount, originalAmount, originalFee, policy);
    if |originals| < 2 {
      return Err(NoCounterparty);
    }
    var k := IndexOfLargest(originals);
    var rest := originals[..k] + originals[k + 1..];
    var wallet, merchant := originals[k], rest[IndexOfLargest(rest)];
    var currency := originals[0].currency;
    var lines :=
      [Line(merchant.account, Debit, RoundHalfUp(refundAmount) as real, currency, "Partial refund"),
       Line(wallet.account, Credit, RoundHalfUp(refundAmount + feeRefund) as real, currency, "Partial refund credited")];
    if feeRefund > 0.0 && |originals| > 2 {
      var feeEntry := FirstCreditNotOn(originals, wallet.account);
      if feeEntry.Some? {
        lines := lines[..1]
          + [Line(feeEntry.value.account, Debit, RoundHalfUp(feeRefund) as real, currency, "Fee reversal")]
          + lines[1..];
      }
    }
    assert lines == RefundLines(originals, refundAmount, feeRefund);
    return Ok(Plan(lines, originalAmount, refundAmount, feeRefund));
  }

  /** The splice has somewhere to put the fee: a third row, and a credit row besides the wallet's. */
  predicate HasFeeRow(originals: seq<Entry>)
    requires |originals| > 0
  {
    |originals| > 2 && FirstCreditNotOn(originals, originals[IndexOfLargest(originals)].account).Some?
  }

  predicate RefundIsPostable(originals: seq<Entry>, refundAmount: real, feeRefund: real)
    requires |originals| > 0
  {
    && RoundHalfUp(refundAmount) > 0
    && if feeRefund > 0.0 && HasFeeRow(originals)
       then RoundHalfUp(feeRefund) > 0 && FractionsAgree(refundAmount, feeRefund)
       else RoundHalfUp(refundAmount + feeRefund) == RoundHalfUp(refundAmount)
  }

  /**
   When a refund's journal is posted, for amounts with any number of decimals:
   the refund must reach a tick, and either there is a row to take a positive
   fee from, the fee reaches a tick and the two agree below a tick, or the fee
   is lost in the rounding of the wallet line.
   */
  lemma RefundIsPostedIff(originals: seq<Entry>, refundAmount: real, feeRefund: real)
    requires |originals| >= 2
    ensures Accepted(RefundLines(originals, refundAmount, feeRefund)) <==>
            RefundIsPostable(originals, refundAmount, feeRefund)
  {
    hide RefundLines, RoundHalfUp, Accepted, HasFeeRow, FractionsAgree;
    RefundShape(originals, refundAmount, feeRefund);
    var lines := RefundLines(originals, refundAmount, feeRefund);
    if feeRefund > 0.0 && HasFeeRow(originals) {
      ThreeLinesBalance(lines, RoundHalfUp(refundAmount), RoundHalfUp(feeRefund), RoundHalfUp(refundAmount + feeRefund));
      if refundAmount >= 0.0 {
        RoundSum(refundAmount, feeRefund);
      } else {
        RoundMonotone(refundAmount, 0.0);
        RoundWhole(0);
      }
    } else {
      TwoLinesBalance(lines, RoundHalfUp(refundAmount), RoundHalfUp(refundAmount + feeRefund));
    }
  }

  /** With four decimals the condition reads: no fee, or a row to take it from. */
  lemma WholeRefundIsPostedIff(originals: seq<Entry>, refundAmount: nat, feeRefund: nat)
    requires |originals| >= 2 && refundAmount > 0
    ensures Accepted(RefundLines(originals, refundAmount as real, feeRefund as real)) <==>
            feeRefund == 0 || HasFeeRow(originals)
  {
    hide RefundLines, Accepted, HasFeeRow, RoundHalfUp;
    RefundIsPostedIff(originals, refundAmount as real, feeRefund as real);
    assert refundAmount as real + feeRefund as real == (refundAmount + feeRefund) as real;
    assert Fraction(feeRefund as real) == 0.0 && Fraction(refundAmount as real) == 0.0;
    RoundWhole(refundAmount);
    RoundWhole(feeRefund);
    RoundWhole(refundAmount + feeRefund);
  }

  /** The amounts on the lines of a refund. */
  lemma RefundShape(originals: seq<Entry>, refundAmount: real, feeRefund: real)
    requires |originals| >= 2
    ensures
      var lines := RefundLines(originals, refundAmount, feeRefund);
      var refund, fee, total := RoundHalfUp(refundAmount), RoundHalfUp(feeRefund), RoundHalfUp(refundAmount + feeRefund);
      if feeRefund > 0.0 && HasFeeRow(originals)
      then |lines| == 3 && IsLine(lines[0], Debit, refund) && IsLine(lines[1], Debit, fee) && IsLine(lines[2], Credit, total)
      else |lines| == 2 && IsLine(lines[0], Debit, refund) && IsLine(lines[1], Credit, total)
  {
    hide IndexOfLargest, FirstCreditNotOn, RoundHalfUp;
  }

  predicate IsLine(line: Line, entryType: EntryType, amount: int) {
    line.entryType == entryType && line.amount == amount as real
  }

  lemma TwoLinesBalance(lines: seq<Line>, debit: int, credit: int)
    requires |lines| == 2 && IsLine(lines[0], Debit, debit) && IsLine(lines[1], Credit, credit)
    ensures Accepted(lines) <==> debit > 0 && credit == debit
  {
    var none: seq<Line> := [];
    assert lines == none + [lines[0]] + [lines[1]];
    OneMoreLine(none, lines[0], "");
    OneMoreLine(none + [lines[0]], lines[1], "");
  }

  lemma ThreeLinesBalance(lines: seq<Line>, amount: int, fee: int, total: int)
    requires |lines| == 3
    requires IsLine(lines[0], Debit, amount) && IsLine(lines[1], Debit, fee) && IsLine(lines[2], Credit, total)
    ensures Accepted(lines) <==> amount > 0 && fee > 0 && total == amount + fee
  {
    var none: seq<Line> := [];
    assert lines == none + [lines[0]] + [lines[1]] + [lines[2]];
    OneMoreLine(none, lines[0], "");
    OneMoreLine(none + [lines[0]], lines[1], "");
    OneMoreLine(none + [lines[0]] + [lines[1]], lines[2], "");
  }
}
