/**
 How large the balancing legs of the handlers' journals are, and what the
 reconciliation query reads of a journal that has one
 (src/transactions/handlers/balancing-leg.util.ts,
 src/reporting/reconciliation.service.ts:90-106).
 */
module BalancingLegs {
  import opened Money
  import opened Sums
  import opened Ledger
  import opened Reversals
  import opened Handlers
  import Reconciliation

  // ---- The largest stored amount ---------------------------------------------

  function Larger(x: int, y: int): int {
    if x < y then y else x
  }

  function Magnitude(x: int): int {
    if x < 0 then -x else x
  }

  /** Some leg is of this size and none is larger. */
  ghost predicate LargestLeg(legs: seq<Leg>, m: int) {
    (exists l :: l in legs && l.amount == m) && forall l :: l in legs ==> 0 < l.amount <= m
  }

  lemma StoredAmounts(legs: seq<Leg>, journalId: Id, date: int, kind: TransactionType, referenceId: Id)
    ensures
      var rows := StoredAll(journalId, date, kind, referenceId, ToLines(legs));
      |rows| == |legs| && forall k :: 0 <= k < |legs| ==> rows[k].amount == legs[k].amount
  {
    hide RoundHalfUp;
    forall k | 0 <= k < |legs|
      ensures StoredAll(journalId, date, kind, referenceId, ToLines(legs))[k].amount == legs[k].amount
    {
      RoundWhole(legs[k].amount);
    }
  }

  lemma {:induction false} LargestOf(rows: seq<Entry>, legs: seq<Leg>, m: int)
    requires LargestLeg(legs, m)
    requires |rows| == |legs| && forall k :: 0 <= k < |legs| ==> rows[k].amount == legs[k].amount
    ensures LargestAmount(rows) == m
  {
    forall e | e in rows ensures e.amount <= m {
      var k :| 0 <= k < |rows| && rows[k] == e;
      assert legs[k] in legs;
    }
    var l :| l in legs && l.amount == m;
    var k :| 0 <= k < |legs| && legs[k] == l;
    assert rows[k] in rows;
  }

  lemma OneMoreLeg(legs: seq<Leg>, m: int, leg: Leg)
    requires LargestLeg(legs, m) && leg.amount > 0
    ensures LargestLeg(legs + [leg], Larger(m, leg.amount))
  {
    var l :| l in legs && l.amount == m;
    assert l in legs + [leg] && leg in legs + [leg];
  }

  /** The largest stored amount is that of the largest leg or of the balancing leg. */
  lemma LargestStored(legs: seq<Leg>, m: int, platformCash: Id, currency: string,
                      journalId: Id, date: int, kind: TransactionType, referenceId: Id)
    requires LargestLeg(legs, m)
    ensures LargestAmount(StoredAll(journalId, date, kind, referenceId, ToLines(WithPlug(legs, platformCash, currency))))
         == Larger(m, Magnitude(Total(legs, SignedLeg())))
  {
    hide Plug, StoredAll, ToLines, LargestAmount;
    var all := WithPlug(legs, platformCash, currency);
    PlugOfLegs(legs);
    LargestIsPositive(legs, m);
    if Total(legs, SignedLeg()) != 0 {
      OneMoreLeg(legs, m, all[|legs|]);
      assert all == legs + [all[|legs|]];
    }
    StoredAmounts(all, journalId, date, kind, referenceId);
    LargestOf(StoredAll(journalId, date, kind, referenceId, ToLines(all)), all, Larger(m, Magnitude(Total(legs, SignedLeg()))));
  }

  lemma LargestIsPositive(legs: seq<Leg>, m: int)
    requires LargestLeg(legs, m)
    ensures m > 0
  {
  }

  lemma SplitLegsAreBounded(legs: seq<Leg>, wallet: Id, amount: int)
    requires SplitsExactly(legs, wallet, amount) && forall l :: l in legs ==> l.amount > 0
    ensures LargestLeg(legs, amount)
    ensures Total(legs, SignedLeg()) == -amount + Total(legs[1..], SignedLeg())
  {
    TotalHead(legs, SignedLeg());
    assert legs[0] in legs;
    forall l | l in legs ensures l.amount <= amount {
      var k :| 0 <= k < |legs| && legs[k] == l;
      if k > 0 {
        assert legs[1..][k - 1] == legs[k];
        TotalAtLeast(legs[1..], Amount(), k - 1);
      }
    }
  }

  // ---- What the reconciliation query reads -----------------------------------

  /** The ledger amount compared for a reference, if it has rows in the range. */
  function ReconciledAmount(entries: seq<Entry>, from: int, to: int, referenceId: Id): Option<int> {
    var ledger := Reconciliation.Index(Reconciliation.LedgerRows(entries, from, to), Reconciliation.ReferenceOf());
    if referenceId in ledger then Some(ledger[referenceId].amount) else None
  }

  /** In the range, the reference has exactly the rows stored for these legs and their plug. */
  ghost predicate PostedAs(entries: seq<Entry>, from: int, to: int, referenceId: Id, legs: seq<Leg>, platformCash: Id,
                           currency: string)
  {
    exists journalId, date, kind ::
      OriginalsOf(Reconciliation.InRange(entries, from, to), referenceId)
      == StoredAll(journalId, date, kind, referenceId, ToLines(WithPlug(legs, platformCash, currency)))
  }

  lemma LargestIsUnique(rows: seq<Entry>, selected: seq<Entry>, referenceId: Id, g: Reconciliation.LedgerRow, currency: string)
    requires rows == OriginalsOf(selected, referenceId) && Reconciliation.IsLargestOf(g, selected)
    requires g.referenceId == referenceId && g.currency == currency
    requires forall e :: e in rows ==> e.currency == currency && 0 < e.amount
    ensures g.amount == LargestAmount(rows)
  {
    var e :| e in selected && Reconciliation.SameGroup(g, e) && e.amount == g.amount;
    assert e in rows;
    var m := LargestAmount(rows);
    var w :| w in rows && w.amount == m;
    assert Reconciliation.SameGroup(g, w);
  }

  /** The query reads the largest stored amount, the balancing leg included. */
  lemma QueryReadsTheLargest(entries: seq<Entry>, from: int, to: int, referenceId: Id, legs: seq<Leg>, m: int,
                             platformCash: Id, currency: string)
    requires PostedAs(entries, from, to, referenceId, legs, platformCash, currency) && LargestLeg(legs, m)
    requires forall l :: l in legs ==> l.currency == currency
    ensures ReconciledAmount(entries, from, to, referenceId) == Some(Larger(m, Magnitude(Total(legs, SignedLeg()))))
  {
    hide OriginalsOf, StoredAll, ToLines, LargestAmount, Reconciliation.Grouped, Reconciliation.Index,
      Reconciliation.InRange, Reconciliation.IsLargestOf, LargestLeg, WithPlug;
    var journalId, date, kind :|
      OriginalsOf(Reconciliation.InRange(entries, from, to), referenceId)
      == StoredAll(journalId, date, kind, referenceId, ToLines(WithPlug(legs, platformCash, currency)));
    var selected := Reconciliation.InRange(entries, from, to);
    var rows := OriginalsOf(selected, referenceId);
    StoredLegs(legs, m, platformCash, currency, journalId, date, kind, referenceId);
    assert rows[0] in rows && rows[0] in selected;
    Reconciliation.LedgerAmountIsLargest(selected, referenceId, currency);
    var g := Reconciliation.Index(Reconciliation.Grouped(selected), Reconciliation.ReferenceOf())[referenceId];
    LargestIsUnique(rows, selected, referenceId, g, currency);
    LargestStored(legs, m, platformCash, currency, journalId, date, kind, referenceId);
  }

  lemma StoredLegs(legs: seq<Leg>, m: int, platformCash: Id, currency: string,
                   journalId: Id, date: int, kind: TransactionType, referenceId: Id)
    requires LargestLeg(legs, m) && forall l :: l in legs ==> l.currency == currency
    ensures
      var rows := StoredAll(journalId, date, kind, referenceId, ToLines(WithPlug(legs, platformCash, currency)));
      |rows| > 0 && forall e :: e in rows ==> e.currency == currency && 0 < e.amount
  {
    hide Plug;
    var all := WithPlug(legs, platformCash, currency);
    var rows := StoredAll(journalId, date, kind, referenceId, ToLines(all));
    PlugOfLegs(legs);
    forall e | e in rows ensures e.currency == currency && 0 < e.amount {
      var k :| 0 <= k < |rows| && rows[k] == e;
      RoundWhole(all[k].amount);
      assert k < |legs| ==> all[k] == legs[k] && legs[k] in legs;
    }
  }

  // ---- Wallet payments: the leg is twice what is charged on top --------------

  /** A wallet pays a counterparty and charges on top, in one currency. */
  ghost predicate PaysOnTop(legs: seq<Leg>, wallet: Id, total: int, amount: int, currency: string) {
    && SplitsExactly(legs, wallet, total)
    && (forall l :: l in legs ==> l.amount > 0 && l.currency == currency)
    && Total(legs[1..], SignedLeg()) == amount - (total - amount)
    && amount < total
  }

  /**
   The balancing leg is a debit of twice the charges, it exceeds every real leg
   exactly if the amount paid is less than the charges, and then the query reads
   the balancing leg instead of what the customer paid.
   */
  lemma LegOfPaymentOnTop(legs: seq<Leg>, wallet: Id, total: int, amount: int, platformCash: Id, currency: string)
    requires PaysOnTop(legs, wallet, total, amount, currency)
    ensures Plug(ToLines(legs)) == Some(BalancingLeg(Debit, 2 * (total - amount)))
    ensures (forall l :: l in legs ==> l.amount < 2 * (total - amount)) <==> amount < total - amount
    ensures forall entries, from, to, referenceId ::
              PostedAs(entries, from, to, referenceId, legs, platformCash, currency) ==>
                ReconciledAmount(entries, from, to, referenceId)
                == Some(if amount < total - amount then 2 * (total - amount) else total)
  {
    hide Plug, ReconciledAmount, PostedAs;
    SplitLegsAreBounded(legs, wallet, total);
    PlugOfLegs(legs);
    assert legs[0] in legs;
    forall entries, from, to, referenceId | PostedAs(entries, from, to, referenceId, legs, platformCash, currency)
      ensures ReconciledAmount(entries, from, to, referenceId)
           == Some(if amount < total - amount then 2 * (total - amount) else total)
    {
      QueryReadsTheLargest(entries, from, to, referenceId, legs, total, platformCash, currency);
    }
  }

  lemma P2pPaysOnTop(p: P2pPayload)
    requires P2pValid(p) && Accepted(P2pJournal(p))
    ensures PaysOnTop(P2pReal(p), p.sender, P2pTotal(p), RoundHalfUp(p.amount), p.currency)
  {
    var legs := P2pReal(p);
    PlugBalances(legs, p.platformCash, p.currency);
    assert legs[1] in legs;
    RoundAddWhole(p.amount, P2P_FEE);
    TwoLegs(legs[1..], Amount());
    TwoLegs(legs[1..], SignedLeg());
  }

  lemma QrPaysOnTop(p: QrPayload)
    requires QrValid(p) && Accepted(QrJournal(p))
    ensures PaysOnTop(QrReal(p), p.wallet, QrTotal(p), RoundHalfUp(p.amount), p.currency)
  {
    var legs := QrReal(p);
    PlugBalances(legs, p.platformCash, p.currency);
    RoundAddWhole(p.amount, QrFee(p.amount));
    TwoLegs(legs[1..], Amount());
    TwoLegs(legs[1..], SignedLeg());
  }

  /** Optional credit lines count negatively. */
  lemma OptionalCredit(legs: seq<Leg>, account: Id, amount: nat, currency: string)
    ensures Total(legs + IfPositive(account, amount, currency), SignedLeg()) == Total(legs, SignedLeg()) - amount
  {
    var more := IfPositive(account, amount, currency);
    TotalConcat(legs, more, SignedLeg());
    if amount > 0 {
      TotalSingle(more[0], SignedLeg());
    }
  }

  lemma NipRest(p: NipPayload)
    requires p.amount > 0.0
    ensures Total(NipReal(p)[1..], SignedLeg()) == RoundHalfUp(p.amount) - (NipTotal(p) - RoundHalfUp(p.amount))
  {
    hide RoundHalfUp, NipTotal, StampDuty, Vat, CybersecurityLevy, IfPositive;
    var duty, vat, levy := StampDuty(p.amount, p.currency), Vat(NIP_FEE, p.currency), Levy(p);
    NipTotalIsSum(p, duty, vat, levy);
    var two := [Leg(p.recipient, Debit, RoundHalfUp(p.amount), p.currency),
                Leg(p.feeRevenue, Credit, NIP_FEE, p.currency)];
    TwoLegs(two, SignedLeg());
    var withDuty := two + IfPositive(p.stampDutyPayable, duty, p.currency);
    var withVat := withDuty + IfPositive(p.vatPayable, vat, p.currency);
    OptionalCredit(two, p.stampDutyPayable, duty, p.currency);
    OptionalCredit(withDuty, p.vatPayable, vat, p.currency);
    OptionalCredit(withVat, p.cybersecurityLevyPayable, levy, p.currency);
    assert NipReal(p)[1..] == withVat + IfPositive(p.cybersecurityLevyPayable, levy, p.currency);
  }

  lemma NipPaysOnTop(p: NipPayload)
    requires NipValid(p) && Accepted(NipJournal(p))
    ensures PaysOnTop(NipReal(p), p.sender, NipTotal(p), RoundHalfUp(p.amount), p.currency)
  {
    hide RoundHalfUp, NipTotal, StampDuty, Vat, CybersecurityLevy;
    PlugBalances(NipReal(p), p.platformCash, p.currency);
    NipSplits(p);
    NipRest(p);
    NipTotalIsSum(p, StampDuty(p.amount, p.currency), Vat(NIP_FEE, p.currency), Levy(p));
    NipOneCurrency(p);
  }

  lemma NipOneCurrency(p: NipPayload)
    ensures forall l :: l in NipReal(p) ==> l.currency == p.currency
  {
    hide RoundHalfUp, NipTotal, StampDuty, Vat, CybersecurityLevy;
  }

  /** P2P: the leg is twice the fee, and the largest line exactly of transfers below the fee. */
  lemma P2pLeg(p: P2pPayload)
    requires P2pValid(p) && Accepted(P2pJournal(p))
    ensures Plug(ToLines(P2pReal(p))) == Some(BalancingLeg(Debit, 2 * P2P_FEE))
    ensures (forall l :: l in P2pReal(p) ==> l.amount < 2 * P2P_FEE) <==> RoundHalfUp(p.amount) < P2P_FEE
    ensures forall entries, from, to, referenceId ::
              PostedAs(entries, from, to, referenceId, P2pReal(p), p.platformCash, p.currency) ==>
                ReconciledAmount(entries, from, to, referenceId)
                == Some(if RoundHalfUp(p.amount) < P2P_FEE then 2 * P2P_FEE else P2pTotal(p))
  {
    hide Plug, ReconciledAmount, PostedAs, PaysOnTop;
    P2pPaysOnTop(p);
    LegOfPaymentOnTop(P2pReal(p), p.sender, P2pTotal(p), RoundHalfUp(p.amount), p.platformCash, p.currency);
    P2pTotalIsSum(p);
  }

  lemma P2pTotalIsSum(p: P2pPayload)
    requires P2pValid(p) && Accepted(P2pJournal(p))
    ensures P2pTotal(p) == RoundHalfUp(p.amount) + P2P_FEE
  {
    var legs := P2pReal(p);
    PlugBalances(legs, p.platformCash, p.currency);
    assert legs[1] in legs;
    RoundAddWhole(p.amount, P2P_FEE);
  }

  /** QR: the leg is twice the fee, and the largest line exactly of payments below their fee. */
  lemma QrLeg(p: QrPayload)
    requires QrValid(p) && Accepted(QrJournal(p))
    ensures
      var fee := QrFee(p.amount);
      && Plug(ToLines(QrReal(p))) == Some(BalancingLeg(Debit, 2 * fee))
      && ((forall l :: l in QrReal(p) ==> l.amount < 2 * fee) <==> RoundHalfUp(p.amount) < fee)
      && forall entries, from, to, referenceId ::
           PostedAs(entries, from, to, referenceId, QrReal(p), p.platformCash, p.currency) ==>
             ReconciledAmount(entries, from, to, referenceId)
             == Some(if RoundHalfUp(p.amount) < fee then 2 * fee else QrTotal(p))
  {
    hide Plug, ReconciledAmount, PostedAs, PaysOnTop;
    QrPaysOnTop(p);
    LegOfPaymentOnTop(QrReal(p), p.wallet, QrTotal(p), RoundHalfUp(p.amount), p.platformCash, p.currency);
    RoundAddWhole(p.amount, QrFee(p.amount));
  }

  /** NIP: the leg is twice the fee and levies, and the largest line exactly of transfers below them. */
  lemma NipLeg(p: NipPayload)
    requires NipValid(p) && Accepted(NipJournal(p))
    ensures
      var charges := NipTotal(p) - RoundHalfUp(p.amount);
      && charges == NIP_FEE + StampDuty(p.amount, p.currency) + Vat(NIP_FEE, p.currency)
                    + CybersecurityLevy(p.amount, p.currency)
      && Plug(ToLines(NipReal(p))) == Some(BalancingLeg(Debit, 2 * charges))
      && ((forall l :: l in NipReal(p) ==> l.amount < 2 * charges) <==> RoundHalfUp(p.amount) < charges)
      && forall entries, from, to, referenceId ::
           PostedAs(entries, from, to, referenceId, NipReal(p), p.platformCash, p.currency) ==>
             ReconciledAmount(entries, from, to, referenceId)
             == Some(if RoundHalfUp(p.amount) < charges then 2 * charges else NipTotal(p))
  {
    hide Plug, ReconciledAmount, PostedAs, PaysOnTop, NipTotal, NipReal, StampDuty, Vat, CybersecurityLevy, RoundHalfUp;
    NipPaysOnTop(p);
    LegOfPaymentOnTop(NipReal(p), p.sender, NipTotal(p), RoundHalfUp(p.amount), p.platformCash, p.currency);
    NipTotalIsSum(p, StampDuty(p.amount, p.currency), Vat(NIP_FEE, p.currency), Levy(p));
  }

  // ---- EMI payments: the leg is always the largest ---------------------------

  /** The waterfall's parts as they are written on the lines. */
  function EmiPartsTotal(p: EmiPayload): int {
    var a := ComputeAmounts(p);
    a.penalty + RoundHalfUp(a.interestApplied) + RoundHalfUp(a.principalApplied)
  }

  /** Every EMI leg is a credit. */
  lemma EmiLegsAreCredits(p: EmiPayload)
    ensures forall l :: l in EmiReal(p) ==> l.entryType == Credit && l.currency == p.currency
  {
    hide RoundHalfUp, ComputeAmounts;
  }

  lemma {:induction false} CreditsCountNegatively(legs: seq<Leg>)
    requires forall l :: l in legs ==> l.entryType == Credit
    ensures Total(legs, SignedLeg()) == -Total(legs, Amount())
  {
    if |legs| > 0 {
      CreditsCountNegatively(legs[..|legs| - 1]);
    }
  }

  lemma EmiWalletIsLargest(p: EmiPayload)
    requires EmiValid(p) && Accepted(EmiJournal(p))
    ensures LargestLeg(EmiReal(p), RoundHalfUp(ComputeAmounts(p).payment))
    ensures |EmiReal(p)| > 0 && EmiReal(p)[0].amount == RoundHalfUp(ComputeAmounts(p).payment)
    ensures Total(EmiReal(p)[1..], Amount()) == EmiPartsTotal(p) > 0
  {
    var a := ComputeAmounts(p);
    WaterfallPaysInFull(p);
    PenaltyIsNotNegative(p);
    EmiParts(p, a);
    EmiIsPostedIff(p);
    RoundMonotone(a.penaltyApplied, a.payment);
    RoundMonotone(a.interestApplied, a.payment);
    RoundMonotone(a.principalApplied, a.payment);
    PlugBalances(EmiReal(p), p.platformCash, p.currency);
    assert EmiReal(p)[0] in EmiReal(p);
    EmiLegsUpTo(p, a);
  }

  lemma EmiLegsUpTo(p: EmiPayload, a: EmiAmounts)
    requires a == ComputeAmounts(p)
    requires RoundHalfUp(a.penaltyApplied) <= RoundHalfUp(a.payment)
    requires RoundHalfUp(a.interestApplied) <= RoundHalfUp(a.payment)
    requires RoundHalfUp(a.principalApplied) <= RoundHalfUp(a.payment)
    ensures forall l :: l in EmiReal(p) ==> l.amount <= RoundHalfUp(a.payment)
  {
    hide RoundHalfUp, ComputeAmounts;
  }

  /**
   EMI: for every posted payment the leg is a debit of the payment plus its
   parts, it exceeds every real leg, and the query reads it: twice the payment
   exactly if interest and principal agree below a tick.
   */
  lemma EmiLeg(p: EmiPayload)
    requires EmiValid(p) && Accepted(EmiJournal(p))
    ensures
      var payment := RoundHalfUp(ComputeAmounts(p).payment);
      && Plug(ToLines(EmiReal(p))) == Some(BalancingLeg(Debit, payment + EmiPartsTotal(p)))
      && (forall l :: l in EmiReal(p) ==> l.amount < payment + EmiPartsTotal(p))
      && (payment + EmiPartsTotal(p) == 2 * payment <==>
          FractionsAgree(p.scheduledInterest, ComputeAmounts(p).principalApplied))
      && forall entries, from, to, referenceId ::
           PostedAs(entries, from, to, referenceId, EmiReal(p), p.platformCash, p.currency) ==>
             ReconciledAmount(entries, from, to, referenceId) == Some(payment + EmiPartsTotal(p))
  {
    hide Plug, ReconciledAmount, PostedAs, ComputeAmounts, RoundHalfUp, EmiPartsTotal, FractionsAgree, EmiReal, EmiValid,
      Accepted;
    EmiPartsAgreeIff(p);
    var legs, payment := EmiReal(p), RoundHalfUp(ComputeAmounts(p).payment);
    EmiWalletIsLargest(p);
    EmiLegsAreCredits(p);
    CreditsCountNegatively(legs);
    TotalHead(legs, Amount());
    PlugOfLegs(legs);
    forall entries, from, to, referenceId | PostedAs(entries, from, to, referenceId, legs, p.platformCash, p.currency)
      ensures ReconciledAmount(entries, from, to, referenceId) == Some(payment + EmiPartsTotal(p))
    {
      QueryReadsTheLargest(entries, from, to, referenceId, legs, payment, p.platformCash, p.currency);
    }
  }

  lemma EmiPartsAgreeIff(p: EmiPayload)
    requires EmiValid(p)
    ensures EmiPartsTotal(p) == RoundHalfUp(ComputeAmounts(p).payment) <==>
            FractionsAgree(p.scheduledInterest, ComputeAmounts(p).principalApplied)
  {
    var a := ComputeAmounts(p);
    WaterfallPaysInFull(p);
    PenaltyIsNotNegative(p);
    RoundAddWhole(a.interestApplied + a.principalApplied, a.penalty);
    RoundSum(a.interestApplied, a.principalApplied);
    assert a.payment == a.interestApplied + a.principalApplied + a.penalty as real;
  }
}
