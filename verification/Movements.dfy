/**
 What each handler's journal does to each account, in terms of the payload
 (src/transactions/handlers): who pays how much to whom, what is charged, and
 what the balancing leg on platform cash comes to.
 */
module Movements {
  import opened Money
  import opened Sums
  import opened Ledger
  import opened Reversals
  import opened Handlers

  /** The amount if this is the account it goes to. */
  function To(account: Id, payee: Id, amount: int): int {
    if account == payee then amount else 0
  }

  function OnLeg(account: Id, currency: string): Leg -> int {
    (l: Leg) => if l.account == account && l.currency == currency then Signed(l.entryType, l.amount) else 0
  }

  lemma {:induction false} StoredLegs(legs: seq<Leg>, journalId: Id, date: int, kind: TransactionType, referenceId: Id,
                                      account: Id, currency: string)
    ensures BalanceIn(StoredAll(journalId, date, kind, referenceId, ToLines(legs)), account, currency)
         == Total(legs, OnLeg(account, currency))
  {
    if |legs| > 0 {
      var front, last := legs[..|legs| - 1], legs[|legs| - 1];
      var rows := StoredAll(journalId, date, kind, referenceId, ToLines(legs));
      assert rows[..|legs| - 1] == StoredAll(journalId, date, kind, referenceId, ToLines(front));
      StoredLegs(front, journalId, date, kind, referenceId, account, currency);
      RoundWhole(last.amount);
    }
  }

  /** The balancing leg takes the opposite of what the real legs come to. */
  lemma PlugMoves(legs: seq<Leg>, platformCash: Id, inCurrency: string, journalId: Id, date: int, kind: TransactionType,
                  referenceId: Id, account: Id, currency: string)
    ensures BalanceIn(StoredAll(journalId, date, kind, referenceId, ToLines(WithPlug(legs, platformCash, inCurrency))),
                      account, currency)
         == Total(legs, OnLeg(account, currency))
          - (if currency == inCurrency then To(account, platformCash, Total(legs, SignedLeg())) else 0)
  {
    hide Plug, BalanceIn, StoredAll, ToLines;
    var all := WithPlug(legs, platformCash, inCurrency);
    PlugOfLegs(legs);
    StoredLegs(all, journalId, date, kind, referenceId, account, currency);
    if all != legs {
      assert all == legs + [all[|legs|]];
      TotalConcat(legs, [all[|legs|]], OnLeg(account, currency));
      TotalSingle(all[|legs|], OnLeg(account, currency));
    }
  }

  lemma ThreeLegs(legs: seq<Leg>, weight: Leg -> int)
    requires |legs| == 3
    ensures Total(legs, weight) == weight(legs[0]) + weight(legs[1]) + weight(legs[2])
  {
    TotalHead(legs, weight);
    TwoLegs(legs[1..], weight);
  }

  /** Payer pays amount and fee, payee gets the amount, the fee account the fee; platform cash evens it out. */
  lemma PaymentWithFee(legs: seq<Leg>, payer: Id, payee: Id, feeAccount: Id, platformCash: Id, currency: string,
                       amount: int, fee: int, journalId: Id, date: int, kind: TransactionType, referenceId: Id, account: Id)
    requires legs == [Leg(payer, Credit, amount + fee, currency), Leg(payee, Debit, amount, currency),
                      Leg(feeAccount, Credit, fee, currency)]
    ensures BalanceIn(StoredAll(journalId, date, kind, referenceId, ToLines(WithPlug(legs, platformCash, currency))),
                      account, currency)
         == To(account, payee, amount) - To(account, payer, amount + fee) - To(account, feeAccount, fee)
          + To(account, platformCash, fee + fee)
  {
    hide WithPlug, StoredAll, ToLines, BalanceIn;
    PlugMoves(legs, platformCash, currency, journalId, date, kind, referenceId, account, currency);
    ThreeLegs(legs, OnLeg(account, currency));
    ThreeLegs(legs, SignedLeg());
  }

  /** P2P: a flat fee of 10. */
  lemma P2pMoves(p: P2pPayload, journalId: Id, date: int, kind: TransactionType, referenceId: Id, account: Id)
    requires p.amount >= 0.0
    ensures
      var amount, fee := RoundHalfUp(p.amount), 10_0000;
      BalanceIn(StoredAll(journalId, date, kind, referenceId, P2pJournal(p)), account, p.currency)
        == To(account, p.recipient, amount) - To(account, p.sender, amount + fee) - To(account, p.feeRevenue, fee)
         + To(account, p.platformCash, fee + fee)
  {
    hide RoundHalfUp, BalanceIn, StoredAll, WithPlug, ToLines;
    RoundAddWhole(p.amount, P2P_FEE);
    PaymentWithFee(P2pReal(p), p.sender, p.recipient, p.feeRevenue, p.platformCash, p.currency,
                   RoundHalfUp(p.amount), P2P_FEE, journalId, date, kind, referenceId, account);
  }

  /** QR: half a percent, at least 1. */
  lemma QrMoves(p: QrPayload, journalId: Id, date: int, kind: TransactionType, referenceId: Id, account: Id)
    requires p.amount >= 0.0
    ensures
      var amount := RoundHalfUp(p.amount);
      var fee := RoundHalfUp(if p.amount * 0.005 > 1_0000.0 then p.amount * 0.005 else 1_0000.0);
      BalanceIn(StoredAll(journalId, date, kind, referenceId, QrJournal(p)), account, p.currency)
        == To(account, p.merchant, amount) - To(account, p.wallet, amount + fee) - To(account, p.feeRevenue, fee)
         + To(account, p.platformCash, fee + fee)
  {
    hide RoundHalfUp, BalanceIn, StoredAll, WithPlug, ToLines;
    RoundAddWhole(p.amount, QrFee(p.amount));
    PaymentWithFee(QrReal(p), p.wallet, p.merchant, p.feeRevenue, p.platformCash, p.currency,
                   RoundHalfUp(p.amount), QrFee(p.amount), journalId, date, kind, referenceId, account);
  }

  lemma {:induction false} OptionalLeg(legs: seq<Leg>, payee: Id, amount: nat, currency: string, account: Id)
    ensures Total(legs + IfPositive(payee, amount, currency), OnLeg(account, currency))
         == Total(legs, OnLeg(account, currency)) - To(account, payee, amount)
    ensures Total(legs + IfPositive(payee, amount, currency), SignedLeg()) == Total(legs, SignedLeg()) - amount
  {
    var more := IfPositive(payee, amount, currency);
    TotalConcat(legs, more, OnLeg(account, currency));
    TotalConcat(legs, more, SignedLeg());
    if amount > 0 {
      TotalSingle(more[0], OnLeg(account, currency));
      TotalSingle(more[0], SignedLeg());
    }
  }

  /** NIP: 26.88, stamp duty of 50 from 10000 on, 7.5% VAT on the fee and a levy of 0.005%, each to its own account. */
  lemma NipMoves(p: NipPayload, journalId: Id, date: int, kind: TransactionType, referenceId: Id, account: Id)
    requires NipValid(p)
    ensures
      var amount, fee, vat := RoundHalfUp(p.amount), 26_8800, 2_0160;
      var duty := if p.amount >= 10000_0000.0 then 50_0000 else 0;
      var levy := RoundHalfUp(p.amount * 0.00005);
      var charges := fee + duty + vat + levy;
      BalanceIn(StoredAll(journalId, date, kind, referenceId, NipJournal(p)), account, p.currency)
        == To(account, p.recipient, amount) - To(account, p.sender, amount + charges) - To(account, p.feeRevenue, fee)
         - To(account, p.stampDutyPayable, duty) - To(account, p.vatPayable, vat)
         - To(account, p.cybersecurityLevyPayable, levy) + To(account, p.platformCash, charges + charges)
  {
    var duty, vat, levy := StampDuty(p.amount, p.currency), Vat(NIP_FEE, p.currency), Levy(p);
    NipCharges(p);
    hide RoundHalfUp, StampDuty, Vat, CybersecurityLevy, NipTotal, BalanceIn, StoredAll, WithPlug, ToLines, NipReal, NipValid;
    NipLegs(p, duty, vat, levy, account);
    PlugMoves(NipReal(p), p.platformCash, p.currency, journalId, date, kind, referenceId, account, p.currency);
  }

  lemma NipCharges(p: NipPayload)
    requires NipValid(p)
    ensures StampDuty(p.amount, p.currency) == if p.amount >= 10000_0000.0 then 50_0000 else 0
    ensures Vat(NIP_FEE, p.currency) == 2_0160
    ensures CybersecurityLevy(p.amount, p.currency) == RoundHalfUp(p.amount * 0.00005)
  {
  }

  lemma NipLegs(p: NipPayload, duty: nat, vat: nat, levy: nat, account: Id)
    requires p.amount > 0.0
    requires duty == StampDuty(p.amount, p.currency) && vat == Vat(NIP_FEE, p.currency)
    requires levy == CybersecurityLevy(p.amount, p.currency)
    ensures
      var amount, charges := RoundHalfUp(p.amount), NIP_FEE + duty + vat + levy;
      && Total(NipReal(p), SignedLeg()) == -(charges + charges)
      && Total(NipReal(p), OnLeg(account, p.currency))
         == To(account, p.recipient, amount) - To(account, p.sender, amount + charges) - To(account, p.feeRevenue, NIP_FEE)
          - To(account, p.stampDutyPayable, duty) - To(account, p.vatPayable, vat)
          - To(account, p.cybersecurityLevyPayable, levy)
  {
    hide RoundHalfUp, StampDuty, Vat, CybersecurityLevy, NipTotal, IfPositive;
    NipTotalIsSum(p, duty, vat, levy);
    var three := [Leg(p.sender, Credit, NipTotal(p), p.currency), Leg(p.recipient, Debit, RoundHalfUp(p.amount), p.currency),
                  Leg(p.feeRevenue, Credit, NIP_FEE, p.currency)];
    ThreeLegs(three, OnLeg(account, p.currency));
    ThreeLegs(three, SignedLeg());
    var four := three + IfPositive(p.stampDutyPayable, duty, p.currency);
    var five := four + IfPositive(p.vatPayable, vat, p.currency);
    OptionalLeg(three, p.stampDutyPayable, duty, p.currency, account);
    OptionalLeg(four, p.vatPayable, vat, p.currency, account);
    OptionalLeg(five, p.cybersecurityLevyPayable, levy, p.currency, account);
    assert NipReal(p) == five + IfPositive(p.cybersecurityLevyPayable, levy, p.currency);
  }

  /** What an EMI payment pays: a penalty of 0.1% a day, the scheduled interest, and the rest as principal. */
  lemma EmiMoves(p: EmiPayload, journalId: Id, date: int, kind: TransactionType, referenceId: Id, account: Id)
    requires EmiValid(p)
    ensures
      var scheduled := p.scheduledPrincipal + p.scheduledInterest;
      var penalty := if p.daysOverdue > 0 then RoundHalfUp(ExactPenalty(scheduled, p.daysOverdue)) else 0;
      var payment := if p.paymentAmount.Some? then p.paymentAmount.value else RoundHalfUp(scheduled + penalty as real) as real;
      var interest := RoundHalfUp(p.scheduledInterest);
      var principal := RoundHalfUp(payment - penalty as real - p.scheduledInterest);
      BalanceIn(StoredAll(journalId, date, kind, referenceId, EmiJournal(p)), account, p.currency)
        == -To(account, p.wallet, RoundHalfUp(payment)) - To(account, p.loanReceivable, principal)
         - To(account, p.interestIncome, interest) - To(account, p.penaltyRevenue, penalty)
         + To(account, p.platformCash, RoundHalfUp(payment) + principal + interest + penalty)
  {
    hide *;
    var a := ComputeAmounts(p);
    EmiAmountsAre(p);
    EmiLegsMove(p, a, journalId, date, kind, referenceId, account);
  }

  lemma EmiAmountsAre(p: EmiPayload)
    requires EmiValid(p)
    ensures
      var a := ComputeAmounts(p);
      var scheduled := p.scheduledPrincipal + p.scheduledInterest;
      && a.penalty == (if p.daysOverdue > 0 then RoundHalfUp(ExactPenalty(scheduled, p.daysOverdue)) else 0)
      && a.payment == (if p.paymentAmount.Some? then p.paymentAmount.value
                       else RoundHalfUp(scheduled + a.penalty as real) as real)
      && a.penalty >= 0 && a.penaltyApplied == a.penalty as real && a.interestApplied == p.scheduledInterest
      && a.principalApplied == a.payment - a.penalty as real - p.scheduledInterest
  {
    WaterfallPaysInFull(p);
    PenaltyIsNotNegative(p);
    hide RoundHalfUp, ExactPenalty;
  }

  /** A thousandth of the scheduled total for each day. */
  lemma PenaltyByTheDay(scheduledTotal: real, daysOverdue: nat)
    ensures ExactPenalty(scheduledTotal, 0) == 0.0
    ensures ExactPenalty(scheduledTotal, daysOverdue + 1) == ExactPenalty(scheduledTotal, daysOverdue) + scheduledTotal / 1000.0
  {
    var daily, days := scheduledTotal * 0.001, daysOverdue as real;
    assert (daysOverdue + 1) as real == days + 1.0;
    assert daily * (days + 1.0) == daily * days + daily;
  }

  lemma EmiLegsMove(p: EmiPayload, a: EmiAmounts, journalId: Id, date: int, kind: TransactionType, referenceId: Id, account: Id)
    requires a == ComputeAmounts(p) && a.penalty >= 0 && a.penaltyApplied == a.penalty as real
    ensures
      var payment, principal, interest := RoundHalfUp(a.payment), RoundHalfUp(a.principalApplied), RoundHalfUp(a.interestApplied);
      BalanceIn(StoredAll(journalId, date, kind, referenceId, EmiJournal(p)), account, p.currency)
        == -To(account, p.wallet, payment) - To(account, p.loanReceivable, principal)
         - To(account, p.interestIncome, interest) - To(account, p.penaltyRevenue, a.penalty)
         + To(account, p.platformCash, payment + principal + interest + a.penalty)
  {
    RoundWhole(a.penalty);
    hide ComputeAmounts, RoundHalfUp, BalanceIn, StoredAll, WithPlug, ToLines;
    var legs := EmiReal(p);
    var three := legs[..3];
    ThreeLegs(three, OnLeg(account, p.currency));
    ThreeLegs(three, SignedLeg());
    assert legs == three + IfPositive(p.penaltyRevenue, a.penalty, p.currency);
    OptionalLeg(three, p.penaltyRevenue, a.penalty, p.currency, account);
    PlugMoves(legs, p.platformCash, p.currency, journalId, date, kind, referenceId, account, p.currency);
  }

  /** FX: the source amount at the payload's rate, less half a percent, in the target currency. */
  lemma ConversionMoves(p: FxPayload, journalId: Id, date: int, kind: TransactionType, referenceId: Id, account: Id,
                        currency: string)
    ensures
      var sold, gross := RoundHalfUp(p.sourceAmount), RoundHalfUp(p.sourceAmount * p.exchangeRate);
      var markup := RoundHalfUp(gross as real * 0.005);
      BalanceIn(StoredAll(journalId, date, kind, referenceId, FxJournal(p)), account, currency)
        == (if currency == p.sourceCurrency
            then To(account, p.holdingSource, sold) - To(account, p.sourceWallet, sold) else 0)
         + (if currency == p.targetCurrency
            then To(account, p.targetWallet, gross - markup) - To(account, p.holdingTarget, gross)
                 - To(account, p.fxRevenue, markup) + To(account, p.platformCash, markup + markup) else 0)
  {
    GrossIs(p);
    hide RoundHalfUp, BalanceIn, StoredAll, WithPlug, ToLines, Markup, GrossTarget, FxReal;
    FxLegs(p, RoundHalfUp(p.sourceAmount), GrossTarget(p), Markup(p), account, currency);
    PlugMoves(FxReal(p), p.platformCash, p.targetCurrency, journalId, date, kind, referenceId, account, currency);
  }

  lemma GrossIs(p: FxPayload)
    ensures GrossTarget(p) == RoundHalfUp(p.sourceAmount * p.exchangeRate)
    ensures Markup(p) == RoundHalfUp(RoundHalfUp(p.sourceAmount * p.exchangeRate) as real * 0.005)
  {
    hide RoundHalfUp;
  }

  lemma FxLegs(p: FxPayload, sold: int, gross: int, markup: int, account: Id, currency: string)
    requires sold == RoundHalfUp(p.sourceAmount) && gross == GrossTarget(p) && markup == Markup(p)
    ensures Total(FxReal(p), SignedLeg()) == -(markup + markup)
    ensures Total(FxReal(p), OnLeg(account, currency))
         == (if currency == p.sourceCurrency
             then To(account, p.holdingSource, sold) - To(account, p.sourceWallet, sold) else 0)
          + (if currency == p.targetCurrency
             then To(account, p.targetWallet, gross - markup) - To(account, p.holdingTarget, gross)
                  - To(account, p.fxRevenue, markup) else 0)
  {
    hide RoundHalfUp, GrossTarget, Markup;
    FiveLegs(FxReal(p), OnLeg(account, currency));
    FiveLegs(FxReal(p), SignedLeg());
  }

  /** Partial refund: refund and fee back to the wallet, the fee by the policy of the payload. */
  lemma RefundMoves(p: RefundPayload, journalId: Id, date: int, kind: TransactionType, referenceId: Id, account: Id)
    requires RefundValid(p)
    ensures
      var fee := RefundFee(p);
      var back, refund := RoundHalfUp(p.refundAmount + fee), RoundHalfUp(p.refundAmount);
      var feeBack := if fee > 0.0 then RoundHalfUp(fee) else 0;
      && (p.policy == FullFee ==> fee == p.originalFee)
      && (p.policy == NoFee ==> fee == 0.0)
      && (p.policy == Proportional ==> fee == RoundHalfUp(ShareOfFee(p.refundAmount, p.originalAmount, p.originalFee)) as real)
      && BalanceIn(StoredAll(journalId, date, kind, referenceId, RefundJournal(p)), account, p.currency)
           == To(account, p.wallet, back) - To(account, p.merchantSettlement, refund) + To(account, p.feeRevenue, feeBack)
            - To(account, p.platformCash, back - refund + feeBack)
  {
    FeeOfPolicy(p);
    hide RoundHalfUp, BalanceIn, StoredAll, WithPlug, ToLines, RefundFee, RefundReal;
    RefundLegs(p, account);
    PlugMoves(RefundReal(p), p.platformCash, p.currency, journalId, date, kind, referenceId, account, p.currency);
  }

  /** The share is to the fee as the part is to the whole. */
  lemma ShareIsInProportion(part: real, whole: real, fee: real)
    requires whole != 0.0
    ensures ShareOfFee(part, whole, fee) * whole == part * fee
  {
    var q := part / whole;
    assert q * whole == part;
    assert q * fee * whole == q * whole * fee;
  }

  lemma FeeOfPolicy(p: RefundPayload)
    requires RefundValid(p)
    ensures p.policy == FullFee ==> RefundFee(p) == p.originalFee
    ensures p.policy == NoFee ==> RefundFee(p) == 0.0
    ensures p.policy == Proportional ==>
              RefundFee(p) == RoundHalfUp(ShareOfFee(p.refundAmount, p.originalAmount, p.originalFee)) as real
  {
    hide RoundHalfUp, ShareOfFee;
  }

  lemma RefundLegs(p: RefundPayload, account: Id)
    requires RefundValid(p)
    ensures
      var fee := RefundFee(p);
      var back, refund := RoundHalfUp(p.refundAmount + fee), RoundHalfUp(p.refundAmount);
      var feeBack := if fee > 0.0 then RoundHalfUp(fee) else 0;
      && Total(RefundReal(p), SignedLeg()) == back - refund + feeBack
      && Total(RefundReal(p), OnLeg(account, p.currency))
           == To(account, p.wallet, back) - To(account, p.merchantSettlement, refund) + To(account, p.feeRevenue, feeBack)
  {
    hide RoundHalfUp, RefundFee;
    var legs := RefundReal(p);
    var two := legs[..2];
    TwoLegs(two, OnLeg(account, p.currency));
    TwoLegs(two, SignedLeg());
    if RefundFee(p) > 0.0 {
      assert legs == two + [legs[2]];
      TotalConcat(two, [legs[2]], OnLeg(account, p.currency));
      TotalConcat(two, [legs[2]], SignedLeg());
      TotalSingle(legs[2], OnLeg(account, p.currency));
      TotalSingle(legs[2], SignedLeg());
    } else {
      assert legs == two;
    }
  }
}
