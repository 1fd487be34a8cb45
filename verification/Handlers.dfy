/**
 Journals built by the transaction handlers (src/transactions/handlers). Every
 amount a handler puts on a line has been through toFixed(4), so it is whole.
 Amounts in a payload are decimals in ticks.
 */
module Handlers {
  import opened Money
  import opened Sums
  import opened Ledger
  import opened Reversals

  /** A line whose amount has been written with four decimals. */
  datatype Leg = Leg(account: Id, entryType: EntryType, amount: int, currency: string)

  function ToLine(leg: Leg): Line {
    Line(leg.account, leg.entryType, leg.amount as real, leg.currency, "")
  }

  function ToLines(legs: seq<Leg>): (lines: seq<Line>)
    ensures |lines| == |legs|
    ensures forall k :: 0 <= k < |legs| ==> lines[k] == ToLine(legs[k])
  {
    seq(|legs|, k requires 0 <= k < |legs| => ToLine(legs[k]))
  }

  function Amount(): Leg -> int {
    (l: Leg) => l.amount
  }

  function SignedLeg(): Leg -> int {
    (l: Leg) => Signed(l.entryType, l.amount)
  }

  function SignedLegIn(currency: string): Leg -> int {
    (l: Leg) => if l.currency == currency then Signed(l.entryType, l.amount) else 0
  }

  // ---- computeBalancingLeg ---------------------------------------------------

  function Excess(lines: seq<Line>): real {
    DebitTotal(lines) - CreditTotal(lines)
  }

  datatype BalancingLeg = BalancingLeg(entryType: EntryType, amount: int)

  method ComputeBalancingLeg(lines: seq<Line>) returns (leg: Option<BalancingLeg>)
    ensures leg == Plug(lines)
    ensures leg.None? <==> Balanced(lines)
    ensures leg.Some? && WholeAmounts(lines) ==>
              Balanced(lines + [Line("", leg.value.entryType, leg.value.amount as real, "", "")])
  {
    var debitTotal, creditTotal := 0.0, 0.0;
    for k := 0 to |lines|
      invariant debitTotal == DebitTotal(lines[..k]) && creditTotal == CreditTotal(lines[..k])
    {
      assert lines[..k + 1][..k] == lines[..k];
      if lines[k].entryType == Debit {
        debitTotal := debitTotal + lines[k].amount;
      } else {
        creditTotal := creditTotal + lines[k].amount;
      }
    }
    assert lines[..|lines|] == lines;
    var diff := debitTotal - creditTotal;
    if diff == 0.0 {
      return None;
    }
    leg := Some(BalancingLeg(if diff > 0.0 then Credit else Debit, RoundHalfUp(if diff > 0.0 then diff else -diff)));
    if WholeAmounts(lines) {
      WholeExcess(lines);
      RoundWhole(diff.Floor);
      RoundWhole(-diff.Floor);
      OneMoreLine(lines, Line("", leg.value.entryType, leg.value.amount as real, "", ""), "");
    }
  }

  function Plug(lines: seq<Line>): Option<BalancingLeg> {
    var diff := Excess(lines);
    if diff == 0.0 then None
    else if diff > 0.0 then Some(BalancingLeg(Credit, RoundHalfUp(diff)))
    else Some(BalancingLeg(Debit, RoundHalfUp(-diff)))
  }

  /** `plug ? [...realLines, plugLine] : realLines`. */
  function WithPlug(legs: seq<Leg>, platformCash: Id, currency: string): seq<Leg> {
    match Plug(ToLines(legs))
    case None => legs
    case Some(plug) => legs + [Leg(platformCash, plug.entryType, plug.amount, currency)]
  }

  lemma {:induction false} WholeExcess(lines: seq<Line>)
    requires WholeAmounts(lines)
    ensures IsWhole(Excess(lines))
  {
    if |lines| > 0 {
      var front, last := lines[..|lines| - 1], lines[|lines| - 1];
      WholeExcess(front);
      var n, m := Excess(front).Floor, last.amount.Floor;
      assert Excess(lines) == (if last.entryType == Debit then n + m else n - m) as real;
    }
  }

  lemma {:induction false} ExcessOfLegs(legs: seq<Leg>)
    ensures Excess(ToLines(legs)) == Total(legs, SignedLeg()) as real
  {
    if |legs| > 0 {
      assert ToLines(legs)[..|legs| - 1] == ToLines(legs[..|legs| - 1]);
      ExcessOfLegs(legs[..|legs| - 1]);
    }
  }

  lemma {:induction false} StoredNetOfLegs(legs: seq<Leg>, currency: string)
    ensures StoredNet(ToLines(legs), currency) == Total(legs, SignedLegIn(currency))
  {
    if |legs| > 0 {
      assert ToLines(legs)[..|legs| - 1] == ToLines(legs[..|legs| - 1]);
      StoredNetOfLegs(legs[..|legs| - 1], currency);
      RoundWhole(legs[|legs| - 1].amount);
    }
  }

  /** The plug in whole ticks. */
  lemma PlugOfLegs(legs: seq<Leg>)
    ensures
      var net := Total(legs, SignedLeg());
      Plug(ToLines(legs)) == if net == 0 then None
                             else if net > 0 then Some(BalancingLeg(Credit, net)) else Some(BalancingLeg(Debit, -net))
  {
    ExcessOfLegs(legs);
    RoundWhole(Total(legs, SignedLeg()));
    RoundWhole(-Total(legs, SignedLeg()));
  }

  /** With their plug, legs balance; and if they are positive, so is the plug. */
  lemma PlugBalances(legs: seq<Leg>, platformCash: Id, currency: string)
    ensures
      var all := WithPlug(legs, platformCash, currency);
      && Total(all, SignedLeg()) == 0 && Balanced(ToLines(all))
      && (AllPositive(ToLines(all)) <==> forall l :: l in legs ==> l.amount > 0)
  {
    var all := WithPlug(legs, platformCash, currency);
    PlugOfLegs(legs);
    ExcessOfLegs(all);
    if Total(legs, SignedLeg()) != 0 {
      TotalConcat(legs, [all[|legs|]], SignedLeg());
      TotalSingle(all[|legs|], SignedLeg());
    }
    if AllPositive(ToLines(all)) {
      forall l | l in legs ensures l.amount > 0 {
        var k :| 0 <= k < |legs| && legs[k] == l;
        assert ToLines(all)[k].amount > 0.0;
      }
    }
    if forall l :: l in legs ==> l.amount > 0 {
      forall k | 0 <= k < |all| ensures ToLines(all)[k].amount > 0.0 {
        assert all[k].amount > 0;
      }
    }
  }

  /** A single-currency journal is conserved once its plug is added. */
  lemma PlugConserves(legs: seq<Leg>, platformCash: Id, currency: string)
    requires forall l :: l in legs ==> l.currency == currency
    ensures ConservesEachCurrency(ToLines(WithPlug(legs, platformCash, currency)))
  {
    var all := WithPlug(legs, platformCash, currency);
    PlugBalances(legs, platformCash, currency);
    forall c ensures StoredNet(ToLines(all), c) == 0 {
      StoredNetOfLegs(all, c);
      if c == currency {
        TotalEqual(all, SignedLeg(), SignedLegIn(c));
      } else {
        TotalZero(all, SignedLegIn(c));
      }
    }
  }

  // ---- P2P transfer ----------------------------------------------------------

  const P2P_FEE: nat := 10_0000
  const P2P_MAX: int := 200000_0000

  datatype P2pPayload = P2pPayload(
    sender: Id, recipient: Id, feeRevenue: Id, platformCash: Id, amount: real, currency: string)

  predicate P2pValid(p: P2pPayload) {
    p.sender != p.recipient && p.amount <= P2P_MAX as real
  }

  function P2pTotal(p: P2pPayload): int {
    RoundHalfUp(p.amount + P2P_FEE as real)
  }

  function P2pReal(p: P2pPayload): seq<Leg> {
    [Leg(p.sender, Credit, P2pTotal(p), p.currency),
     Leg(p.recipient, Debit, RoundHalfUp(p.amount), p.currency),
     Leg(p.feeRevenue, Credit, P2P_FEE, p.currency)]
  }

  function P2pJournal(p: P2pPayload): seq<Line> {
    ToLines(WithPlug(P2pReal(p), p.platformCash, p.currency))
  }

  // ---- Merchant payment by QR code -------------------------------------------

  const QR_MIN_FEE: real := 1_0000.0
  const QR_MAX: int := 500000_0000

  datatype QrPayload = QrPayload(
    wallet: Id, merchant: Id, feeRevenue: Id, platformCash: Id, amount: real, currency: string)

  predicate QrValid(p: QrPayload) {
    0.0 < p.amount <= QR_MAX as real
  }

  function QrFee(amount: real): (fee: int)
    ensures fee >= 1_0000
  {
    RoundHalfUp(if amount * 0.005 > QR_MIN_FEE then amount * 0.005 else QR_MIN_FEE)
  }

  function QrTotal(p: QrPayload): int {
    RoundHalfUp(p.amount + QrFee(p.amount) as real)
  }

  function QrReal(p: QrPayload): seq<Leg> {
    [Leg(p.wallet, Credit, QrTotal(p), p.currency),
     Leg(p.merchant, Debit, RoundHalfUp(p.amount), p.currency),
     Leg(p.feeRevenue, Credit, QrFee(p.amount), p.currency)]
  }

  function QrJournal(p: QrPayload): seq<Line> {
    ToLines(WithPlug(QrReal(p), p.platformCash, p.currency))
  }

  // ---- NIP transfer ----------------------------------------------------------

  const NIP_FEE: nat := 26_8800
  const NIP_MAX: int := 5000000_0000
  const STAMP_DUTY_THRESHOLD: real := 10000_0000.0
  const STAMP_DUTY_FLAT_FEE: nat := 50_0000

  datatype NipPayload = NipPayload(
    sender: Id, recipient: Id, feeRevenue: Id, stampDutyPayable: Id, vatPayable: Id,
    cybersecurityLevyPayable: Id, platformCash: Id, amount: real, currency: string)

  predicate NipValid(p: NipPayload) {
    p.sender != p.recipient && p.currency == "NGN" && 0.0 < p.amount <= NIP_MAX as real
  }

  function StampDuty(amount: real, currency: string): nat {
    if currency == "NGN" && amount >= STAMP_DUTY_THRESHOLD then STAMP_DUTY_FLAT_FEE else 0
  }

  function Vat(fee: nat, currency: string): nat {
    if currency == "NGN" then RoundHalfUp(fee as real * 0.075) else 0
  }

  function CybersecurityLevy(amount: real, currency: string): int {
    if currency == "NGN" then RoundHalfUp(amount * 0.00005) else 0
  }

  function NipTotal(p: NipPayload): int {
    RoundHalfUp(p.amount + NIP_FEE as real + StampDuty(p.amount, p.currency) as real
                + Vat(NIP_FEE, p.currency) as real + CybersecurityLevy(p.amount, p.currency) as real)
  }

  /** A line that is only written when its amount is positive. */
  function IfPositive(account: Id, amount: int, currency: string): seq<Leg> {
    if amount > 0 then [Leg(account, Credit, amount, currency)] else []
  }

  function NipReal(p: NipPayload): seq<Leg> {
    [Leg(p.sender, Credit, NipTotal(p), p.currency),
     Leg(p.recipient, Debit, RoundHalfUp(p.amount), p.currency),
     Leg(p.feeRevenue, Credit, NIP_FEE, p.currency)]
    + IfPositive(p.stampDutyPayable, StampDuty(p.amount, p.currency), p.currency)
    + IfPositive(p.vatPayable, Vat(NIP_FEE, p.currency), p.currency)
    + IfPositive(p.cybersecurityLevyPayable, CybersecurityLevy(p.amount, p.currency), p.currency)
  }

  function NipJournal(p: NipPayload): seq<Line> {
    ToLines(WithPlug(NipReal(p), p.platformCash, p.currency))
  }

  // ---- Loan EMI payment ------------------------------------------------------

  datatype EmiPayload = EmiPayload(
    wallet: Id, loanReceivable: Id, interestIncome: Id, penaltyRevenue: Id, platformCash: Id,
    scheduledPrincipal: real, scheduledInterest: real, daysOverdue: nat, paymentAmount: Option<real>, currency: string)

  datatype EmiAmounts = EmiAmounts(
    penalty: int, totalDue: real, payment: real, penaltyApplied: real, interestApplied: real, principalApplied: real)

  function Min(x: real, y: real): real {
    if x < y then x else y
  }

  /** 0.1% of the scheduled total per day overdue. */
  function ExactPenalty(scheduledTotal: real, daysOverdue: nat): real {
    scheduledTotal * 0.001 * daysOverdue as real
  }

  function Penalty(scheduledTotal: real, daysOverdue: nat): int {
    if daysOverdue > 0 then RoundHalfUp(ExactPenalty(scheduledTotal, daysOverdue)) else 0
  }

  /** The waterfall of computeAmounts: penalty first, then interest, the rest is principal. */
  function ComputeAmounts(p: EmiPayload): EmiAmounts {
    var scheduledTotal := p.scheduledPrincipal + p.scheduledInterest;
    var penalty := Penalty(scheduledTotal, p.daysOverdue);
    var totalDue := scheduledTotal + penalty as real;
    var payment := if p.paymentAmount.Some? then p.paymentAmount.value else RoundHalfUp(totalDue) as real;
    var penaltyApplied := Min(payment, penalty as real);
    var afterPenalty := payment - penaltyApplied;
    var interestApplied := Min(afterPenalty, p.scheduledInterest);
    EmiAmounts(penalty, totalDue, payment, penaltyApplied, interestApplied, afterPenalty - interestApplied)
  }

  method ComputeEmiAmounts(p: EmiPayload) returns (a: EmiAmounts)
    ensures a == ComputeAmounts(p)
    ensures a.penaltyApplied + a.interestApplied + a.principalApplied == a.payment
    ensures a.penaltyApplied <= a.penalty as real && a.interestApplied <= p.scheduledInterest
  {
    hide RoundHalfUp, Penalty;
    var scheduledTotal := p.scheduledPrincipal + p.scheduledInterest;
    var penalty := Penalty(scheduledTotal, p.daysOverdue);
    var totalDue := scheduledTotal + penalty as real;
    var payment := if p.paymentAmount.Some? then p.paymentAmount.value else RoundHalfUp(totalDue) as real;
    var remaining := payment;
    var penaltyApplied := Min(remaining, penalty as real);
    remaining := remaining - penaltyApplied;
    var interestApplied := Min(remaining, p.scheduledInterest);
    remaining := remaining - interestApplied;
    a := EmiAmounts(penalty, totalDue, payment, penaltyApplied, interestApplied, remaining);
  }

  predicate EmiValid(p: EmiPayload) {
    && p.scheduledPrincipal >= 0.0 && p.scheduledInterest >= 0.0
    && p.scheduledPrincipal + p.scheduledInterest > 0.0
    && ComputeAmounts(p).payment >= ComputeAmounts(p).totalDue
  }

  function EmiReal(p: EmiPayload): seq<Leg> {
    var a := ComputeAmounts(p);
    [Leg(p.wallet, Credit, RoundHalfUp(a.payment), p.currency),
     Leg(p.loanReceivable, Credit, RoundHalfUp(a.principalApplied), p.currency),
     Leg(p.interestIncome, Credit, RoundHalfUp(a.interestApplied), p.currency)]
    + (if a.penaltyApplied > 0.0
       then [Leg(p.penaltyRevenue, Credit, RoundHalfUp(a.penaltyApplied), p.currency)] else [])
  }

  function EmiJournal(p: EmiPayload): seq<Line> {
    ToLines(WithPlug(EmiReal(p), p.platformCash, p.currency))
  }

  // ---- FX conversion ---------------------------------------------------------

  datatype FxPayload = FxPayload(
    sourceWallet: Id, targetWallet: Id, fxRevenue: Id, holdingSource: Id, holdingTarget: Id, platformCash: Id,
    sourceAmount: real, exchangeRate: real, sourceCurrency: string, targetCurrency: string)

  function GrossTarget(p: FxPayload): int {
    RoundHalfUp(p.sourceAmount * p.exchangeRate)
  }

  function Markup(p: FxPayload): int {
    RoundHalfUp(GrossTarget(p) as real * 0.005)
  }

  function FxReal(p: FxPayload): seq<Leg> {
    [Leg(p.sourceWallet, Credit, RoundHalfUp(p.sourceAmount), p.sourceCurrency),
     Leg(p.holdingSource, Debit, RoundHalfUp(p.sourceAmount), p.sourceCurrency),
     Leg(p.holdingTarget, Credit, GrossTarget(p), p.targetCurrency),
     Leg(p.targetWallet, Debit, GrossTarget(p) - Markup(p), p.targetCurrency),
     Leg(p.fxRevenue, Credit, Markup(p), p.targetCurrency)]
  }

  function FxJournal(p: FxPayload): seq<Line> {
    ToLines(WithPlug(FxReal(p), p.platformCash, p.targetCurrency))
  }

  // ---- Partial refund --------------------------------------------------------

  datatype RefundPayload = RefundPayload(
    wallet: Id, merchantSettlement: Id, feeRevenue: Id, platformCash: Id,
    refundAmount: real, originalAmount: real, originalFee: real, policy: FeePolicy, currency: string)

  predicate RefundValid(p: RefundPayload) {
    0.0 < p.refundAmount <= p.originalAmount
  }

  /** The part of the fee that belongs to a part of the whole. */
  function ShareOfFee(part: real, whole: real, fee: real): real
    requires whole != 0.0
  {
    part / whole * fee
  }

  function RefundFee(p: RefundPayload): real
    requires RefundValid(p)
  {
    match p.policy
    case FullFee => p.originalFee
    case NoFee => 0.0
    case Proportional => RoundHalfUp(ShareOfFee(p.refundAmount, p.originalAmount, p.originalFee)) as real
  }

  function RefundReal(p: RefundPayload): seq<Leg>
    requires RefundValid(p)
  {
    var fee := RefundFee(p);
    [Leg(p.wallet, Debit, RoundHalfUp(p.refundAmount + fee), p.currency),
     Leg(p.merchantSettlement, Credit, RoundHalfUp(p.refundAmount), p.currency)]
    + (if fee > 0.0 then [Leg(p.feeRevenue, Debit, RoundHalfUp(fee), p.currency)] else [])
  }

  function RefundJournal(p: RefundPayload): seq<Line>
    requires RefundValid(p)
  {
    ToLines(WithPlug(RefundReal(p), p.platformCash, p.currency))
  }

  method BuildPartialRefund(p: RefundPayload) returns (lines: seq<Line>)
    requires RefundValid(p)
    ensures lines == RefundJournal(p)
    ensures ConservesEachCurrency(lines)
  {
    hide ConservesEachCurrency, RoundHalfUp, Plug, RefundFee;
    var feeRefund := RefundFee(p);
    var realLines :=
      [Leg(p.wallet, Debit, RoundHalfUp(p.refundAmount + feeRefund), p.currency),
       Leg(p.merchantSettlement, Credit, RoundHalfUp(p.refundAmount), p.currency)];
    if feeRefund > 0.0 {
      realLines := realLines + [Leg(p.feeRevenue, Debit, RoundHalfUp(feeRefund), p.currency)];
    }
    assert realLines == RefundReal(p);
    var plug := ComputeBalancingLeg(ToLines(realLines));
    if plug.Some? {
      realLines := realLines + [Leg(p.platformCash, plug.value.entryType, plug.value.amount, p.currency)];
    }
    assert realLines == WithPlug(RefundReal(p), p.platformCash, p.currency);
    lines := ToLines(realLines);
    RefundConserves(p);
  }

  // ---- Conservation ----------------------------------------------------------

  lemma P2pConserves(p: P2pPayload)
    ensures ConservesEachCurrency(P2pJournal(p))
  {
    PlugConserves(P2pReal(p), p.platformCash, p.currency);
  }

  lemma QrConserves(p: QrPayload)
    ensures ConservesEachCurrency(QrJournal(p))
  {
    PlugConserves(QrReal(p), p.platformCash, p.currency);
  }

  lemma NipConserves(p: NipPayload)
    ensures ConservesEachCurrency(NipJournal(p))
  {
    hide RoundHalfUp;
    PlugConserves(NipReal(p), p.platformCash, p.currency);
  }

  lemma EmiConserves(p: EmiPayload)
    ensures ConservesEachCurrency(EmiJournal(p))
  {
    hide RoundHalfUp, ComputeAmounts;
    PlugConserves(EmiReal(p), p.platformCash, p.currency);
  }

  lemma RefundConserves(p: RefundPayload)
    requires RefundValid(p)
    ensures ConservesEachCurrency(RefundJournal(p))
  {
    hide RoundHalfUp, RefundFee;
    PlugConserves(RefundReal(p), p.platformCash, p.currency);
  }

  /**
   The two-currency journal: the source currency cancels, and the plug, though
   computed across both currencies, is exactly what the target currency lacks.
   */
  lemma ConversionConserves(p: FxPayload)
    ensures ConservesEachCurrency(FxJournal(p))
  {
    hide RoundHalfUp, GrossTarget, Markup;
    var legs := FxReal(p);
    var all := WithPlug(legs, p.platformCash, p.targetCurrency);
    PlugOfLegs(legs);
    FiveLegs(legs, SignedLeg());
    assert Total(legs, SignedLeg()) == -2 * Markup(p);
    forall c ensures StoredNet(FxJournal(p), c) == 0 {
      StoredNetOfLegs(all, c);
      FiveLegs(legs, SignedLegIn(c));
      if Markup(p) != 0 {
        TotalConcat(legs, [all[5]], SignedLegIn(c));
        TotalSingle(all[5], SignedLegIn(c));
      }
    }
  }

  lemma FiveLegs(legs: seq<Leg>, weight: Leg -> int)
    requires |legs| == 5
    ensures Total(legs, weight) == weight(legs[0]) + weight(legs[1]) + weight(legs[2]) + weight(legs[3]) + weight(legs[4])
  {
    TwoLegs(legs[3..], weight);
    TotalHead(legs[2..], weight);
    TotalHead(legs[1..], weight);
    TotalHead(legs, weight);
    assert legs[2..][1..] == legs[3..] && legs[1..][1..] == legs[2..];
  }

  lemma TwoLegs(legs: seq<Leg>, weight: Leg -> int)
    requires |legs| == 2
    ensures Total(legs, weight) == weight(legs[0]) + weight(legs[1])
  {
    TotalHead(legs, weight);
    assert legs[1..] == [legs[1]];
    TotalSingle(legs[1], weight);
  }

  // ---- One amount everywhere -------------------------------------------------

  /** The wallet leg comes first, and the other real legs add up to it. */
  ghost predicate SplitsExactly(legs: seq<Leg>, wallet: Id, amount: int) {
    && |legs| > 0
    && legs[0].account == wallet && legs[0].entryType == Credit && legs[0].amount == amount
    && Total(legs[1..], Amount()) == amount
  }

  ghost predicate ApartFrom(legs: seq<Leg>, platformCash: Id) {
    forall l :: l in legs ==> l.account != platformCash
  }

  /** What deriveOriginalAmount reads back once the legs and their plug are stored. */
  function DerivedLater(legs: seq<Leg>, platformCash: Id, currency: string,
                        journalId: Id, effectiveDate: int, kind: TransactionType, referenceId: Id): int {
    DeriveOriginalAmount(StoredAll(journalId, effectiveDate, kind, referenceId,
                                   ToLines(WithPlug(legs, platformCash, currency))), Some(platformCash))
  }

  /**
   The wallet leg, the limit-checked amount, the sum of the component legs and
   the amount derived for a later refund are one and the same.
   */
  ghost predicate OneAmount(legs: seq<Leg>, check: LimitCheck, platformCash: Id, currency: string) {
    && |legs| > 0 && legs[0].account == check.account && legs[0].entryType == Credit
    && check.amount == legs[0].amount as real
    && Total(legs[1..], Amount()) == legs[0].amount
    && forall journalId, date, kind, referenceId ::
         DerivedLater(legs, platformCash, currency, journalId, date, kind, referenceId) == legs[0].amount
  }

  lemma {:induction false} FilterKeepsApart(entries: seq<Entry>, platformCash: Id)
    requires forall e :: e in entries ==> e.account != platformCash
    ensures NotOn(entries, Some(platformCash)) == entries
  {
    if |entries| > 0 {
      var front := entries[..|entries| - 1];
      assert entries == front + [entries[|entries| - 1]];
      FilterKeepsApart(front, platformCash);
    }
  }

  lemma FilterDropsLast(entries: seq<Entry>, last: Entry)
    ensures NotOn(entries + [last], Some(last.account)) == NotOn(entries, Some(last.account))
  {
    assert (entries + [last])[..|entries|] == entries;
  }

  lemma OneMoreLegStored(legs: seq<Leg>, leg: Leg, journalId: Id, effectiveDate: int, kind: TransactionType, referenceId: Id)
    ensures StoredAll(journalId, effectiveDate, kind, referenceId, ToLines(legs + [leg]))
         == StoredAll(journalId, effectiveDate, kind, referenceId, ToLines(legs))
            + [Stored(journalId, effectiveDate, kind, referenceId, ToLine(leg))]
  {
  }

  lemma StoredApart(legs: seq<Leg>, platformCash: Id, rows: seq<Entry>,
                    journalId: Id, effectiveDate: int, kind: TransactionType, referenceId: Id)
    requires ApartFrom(legs, platformCash)
    requires rows == StoredAll(journalId, effectiveDate, kind, referenceId, ToLines(legs))
    ensures forall e :: e in rows ==> e.account != platformCash
  {
    hide RoundHalfUp;
    forall e | e in rows ensures e.account != platformCash {
      var k :| 0 <= k < |rows| && rows[k] == e;
      assert legs[k] in legs;
    }
  }

  /** The rows stored for legs, without the rows of the balancing leg. */
  lemma PlugIsFilteredOut(legs: seq<Leg>, platformCash: Id, currency: string,
                          journalId: Id, effectiveDate: int, kind: TransactionType, referenceId: Id)
    requires ApartFrom(legs, platformCash)
    ensures NotOn(StoredAll(journalId, effectiveDate, kind, referenceId,
                            ToLines(WithPlug(legs, platformCash, currency))), Some(platformCash))
         == StoredAll(journalId, effectiveDate, kind, referenceId, ToLines(legs))
  {
    hide Plug, NotOn, StoredAll, ToLines, ApartFrom, RoundHalfUp;
    var all := WithPlug(legs, platformCash, currency);
    var own := StoredAll(journalId, effectiveDate, kind, referenceId, ToLines(legs));
    StoredApart(legs, platformCash, own, journalId, effectiveDate, kind, referenceId);
    FilterKeepsApart(own, platformCash);
    if all != legs {
      var leg := all[|legs|];
      assert all == legs + [leg];
      OneMoreLegStored(legs, leg, journalId, effectiveDate, kind, referenceId);
      FilterDropsLast(own, Stored(journalId, effectiveDate, kind, referenceId, ToLine(leg)));
    }
  }

  /**
   If the real legs are positive and split the wallet amount, the amount that
   deriveOriginalAmount later reads back from the stored journal is the wallet
   amount, whatever the balancing leg is.
   */
  lemma DerivedAmountIsWalletAmount(legs: seq<Leg>, wallet: Id, platformCash: Id, currency: string, amount: int,
                                    journalId: Id, effectiveDate: int, kind: TransactionType, referenceId: Id)
    requires ApartFrom(legs, platformCash) && SplitsExactly(legs, wallet, amount)
    requires forall l :: l in legs ==> l.amount > 0
    ensures DerivedLater(legs, platformCash, currency, journalId, effectiveDate, kind, referenceId) == amount
  {
    hide WithPlug;
    var own := StoredAll(journalId, effectiveDate, kind, referenceId, ToLines(legs));
    PlugIsFilteredOut(legs, platformCash, currency, journalId, effectiveDate, kind, referenceId);
    RoundWhole(amount);
    assert own[0] in own && own[0].amount == amount;
    forall e | e in own ensures e.amount <= amount {
      var k :| 0 <= k < |own| && own[k] == e;
      RoundWhole(legs[k].amount);
      if k > 0 {
        assert legs[1..][k - 1] == legs[k];
        TotalAtLeast(legs[1..], Amount(), k - 1);
      }
    }
  }

  /** A posted journal whose real legs split the limit-checked amount has one amount everywhere. */
  lemma SplitGivesOneAmount(legs: seq<Leg>, check: LimitCheck, amount: int, platformCash: Id, currency: string)
    requires Accepted(ToLines(WithPlug(legs, platformCash, currency)))
    requires ApartFrom(legs, platformCash) && SplitsExactly(legs, check.account, amount)
    requires check.amount == amount as real
    ensures OneAmount(legs, check, platformCash, currency)
  {
    hide WithPlug, DerivedLater;
    PlugBalances(legs, platformCash, currency);
    forall journalId, date, kind, referenceId
      ensures DerivedLater(legs, platformCash, currency, journalId, date, kind, referenceId) == amount
    {
      DerivedAmountIsWalletAmount(legs, check.account, platformCash, currency, amount,
                                  journalId, date, kind, referenceId);
    }
  }

  function P2pLimitCheck(p: P2pPayload): LimitCheck {
    LimitCheck(p.sender, P2pTransfer, P2pTotal(p) as real)
  }

  function QrLimitCheck(p: QrPayload): LimitCheck {
    LimitCheck(p.wallet, MerchantPaymentQr, QrTotal(p) as real)
  }

  function NipLimitCheck(p: NipPayload): LimitCheck {
    LimitCheck(p.sender, NipTransfer, NipTotal(p) as real)
  }

  function EmiLimitCheck(p: EmiPayload): LimitCheck {
    LimitCheck(p.wallet, LoanEmiPayment, RoundHalfUp(ComputeAmounts(p).payment) as real)
  }

  lemma P2pOneAmount(p: P2pPayload)
    requires P2pValid(p) && Accepted(P2pJournal(p)) && ApartFrom(P2pReal(p), p.platformCash)
    ensures OneAmount(P2pReal(p), P2pLimitCheck(p), p.platformCash, p.currency)
  {
    hide OneAmount;
    var legs := P2pReal(p);
    PlugBalances(legs, p.platformCash, p.currency);
    assert legs[1] in legs;
    RoundAddWhole(p.amount, P2P_FEE);
    TwoLegs(legs[1..], Amount());
    SplitGivesOneAmount(legs, P2pLimitCheck(p), P2pTotal(p), p.platformCash, p.currency);
  }

  lemma QrOneAmount(p: QrPayload)
    requires QrValid(p) && Accepted(QrJournal(p)) && ApartFrom(QrReal(p), p.platformCash)
    ensures OneAmount(QrReal(p), QrLimitCheck(p), p.platformCash, p.currency)
  {
    hide OneAmount;
    var legs := QrReal(p);
    RoundAddWhole(p.amount, QrFee(p.amount));
    TwoLegs(legs[1..], Amount());
    SplitGivesOneAmount(legs, QrLimitCheck(p), QrTotal(p), p.platformCash, p.currency);
  }

  lemma NipOneAmount(p: NipPayload)
    requires NipValid(p) && Accepted(NipJournal(p)) && ApartFrom(NipReal(p), p.platformCash)
    ensures OneAmount(NipReal(p), NipLimitCheck(p), p.platformCash, p.currency)
  {
    hide OneAmount, NipTotal, RoundHalfUp;
    NipSplits(p);
    SplitGivesOneAmount(NipReal(p), NipLimitCheck(p), NipTotal(p), p.platformCash, p.currency);
  }

  lemma NipSplits(p: NipPayload)
    requires p.amount > 0.0
    ensures SplitsExactly(NipReal(p), p.sender, NipTotal(p))
  {
    hide RoundHalfUp, NipTotal, StampDuty, Vat, CybersecurityLevy;
    var duty, vat, levy := StampDuty(p.amount, p.currency), Vat(NIP_FEE, p.currency), Levy(p);
    NipTotalIsSum(p, duty, vat, levy);
    var two := [Leg(p.recipient, Debit, RoundHalfUp(p.amount), p.currency),
                Leg(p.feeRevenue, Credit, NIP_FEE, p.currency)];
    TwoLegs(two, Amount());
    ThreeOptionalParts(two, p.stampDutyPayable, p.vatPayable, p.cybersecurityLevyPayable, duty, vat, levy, p.currency);
    assert NipReal(p)[1..]
        == two + IfPositive(p.stampDutyPayable, duty, p.currency) + IfPositive(p.vatPayable, vat, p.currency)
           + IfPositive(p.cybersecurityLevyPayable, levy, p.currency);
  }

  lemma ThreeOptionalParts(legs: seq<Leg>, a: Id, b: Id, c: Id, x: nat, y: nat, z: nat, currency: string)
    ensures Total(legs + IfPositive(a, x, currency) + IfPositive(b, y, currency) + IfPositive(c, z, currency), Amount())
         == Total(legs, Amount()) + x + y + z
  {
    hide IfPositive;
    OptionalPart(legs, a, x, currency);
    OptionalPart(legs + IfPositive(a, x, currency), b, y, currency);
    OptionalPart(legs + IfPositive(a, x, currency) + IfPositive(b, y, currency), c, z, currency);
  }

  function Levy(p: NipPayload): nat
    requires p.amount > 0.0
  {
    CybersecurityLevy(p.amount, p.currency)
  }

  lemma NipTotalIsSum(p: NipPayload, duty: nat, vat: nat, levy: nat)
    requires p.amount > 0.0
    requires duty == StampDuty(p.amount, p.currency) && vat == Vat(NIP_FEE, p.currency)
    requires levy == CybersecurityLevy(p.amount, p.currency)
    ensures NipTotal(p) == RoundHalfUp(p.amount) + NIP_FEE + duty + vat + levy
  {
    var extra: nat := NIP_FEE + duty + vat + levy;
    assert extra as real == NIP_FEE as real + duty as real + vat as real + levy as real;
    RoundAddWhole(p.amount, extra);
  }

  /**
   The EMI payload has one amount everywhere exactly if the interest and the
   principal paid agree below a tick, as four-decimal inputs always do.
   */
  lemma EmiOneAmountIff(p: EmiPayload)
    requires EmiValid(p) && Accepted(EmiJournal(p)) && ApartFrom(EmiReal(p), p.platformCash)
    ensures OneAmount(EmiReal(p), EmiLimitCheck(p), p.platformCash, p.currency)
       <==> FractionsAgree(p.scheduledInterest, ComputeAmounts(p).principalApplied)
  {
    var a := ComputeAmounts(p);
    WaterfallPaysInFull(p);
    PenaltyIsNotNegative(p);
    RoundAddWhole(a.interestApplied + a.principalApplied, a.penalty);
    RoundSum(a.interestApplied, a.principalApplied);
    assert a.payment == a.interestApplied + a.principalApplied + a.penalty as real;
    EmiParts(p, a);
    hide ComputeAmounts, RoundHalfUp, FractionsAgree;
    if FractionsAgree(p.scheduledInterest, a.principalApplied) {
      hide OneAmount;
      SplitGivesOneAmount(EmiReal(p), EmiLimitCheck(p), RoundHalfUp(a.payment), p.platformCash, p.currency);
    }
  }

  lemma EmiParts(p: EmiPayload, a: EmiAmounts)
    requires a == ComputeAmounts(p) && a.penalty >= 0 && a.penaltyApplied == a.penalty as real
    ensures Total(EmiReal(p)[1..], Amount())
         == a.penalty + RoundHalfUp(a.interestApplied) + RoundHalfUp(a.principalApplied)
  {
    hide ComputeAmounts, RoundHalfUp;
    var legs := EmiReal(p);
    RoundWhole(a.penalty);
    var two := legs[1..3];
    TwoLegs(two, Amount());
    if a.penaltyApplied > 0.0 {
      assert legs[1..] == two + [legs[3]];
      TotalConcat(two, [legs[3]], Amount());
      TotalSingle(legs[3], Amount());
    } else {
      assert legs[1..] == two;
    }
  }

  /** With four decimals in the schedule and the payment, the parts agree. */
  lemma WholeEmiAgrees(p: EmiPayload)
    requires EmiValid(p) && IsWhole(p.scheduledInterest)
    ensures FractionsAgree(p.scheduledInterest, ComputeAmounts(p).principalApplied)
  {
    assert Fraction(p.scheduledInterest) == 0.0;
  }

  lemma PenaltyIsNotNegative(p: EmiPayload)
    requires p.scheduledPrincipal + p.scheduledInterest >= 0.0
    ensures ComputeAmounts(p).penalty >= 0
  {
    var daily := (p.scheduledPrincipal + p.scheduledInterest) * 0.001;
    Product(daily, p.daysOverdue as real);
  }

  /** A valid payment covers penalty and interest in full, and at least the scheduled principal. */
  lemma WaterfallPaysInFull(p: EmiPayload)
    requires EmiValid(p)
    ensures
      var a := ComputeAmounts(p);
      && a.penaltyApplied == a.penalty as real && a.interestApplied == p.scheduledInterest
      && a.principalApplied >= p.scheduledPrincipal
      && a.penaltyApplied + a.interestApplied + a.principalApplied == a.payment
  {
    PenaltyIsNotNegative(p);
  }

  lemma Product(x: real, y: real)
    requires x >= 0.0 && y >= 0.0
    ensures x * y >= 0.0
  {
  }

  lemma OptionalPart(legs: seq<Leg>, account: Id, amount: nat, currency: string)
    ensures Total(legs + IfPositive(account, amount, currency), Amount()) == Total(legs, Amount()) + amount
  {
    var more := IfPositive(account, amount, currency);
    TotalConcat(legs, more, Amount());
    if amount > 0 {
      TotalSingle(more[0], Amount());
    }
  }

  // ---- When an EMI payment is posted -----------------------------------------

  /**
   A validated EMI payload is posted exactly if interest and principal both
   reach a tick: a zero interest line is refused by the positivity check.
   */
  lemma EmiIsPostedIff(p: EmiPayload)
    requires EmiValid(p)
    ensures Accepted(EmiJournal(p)) <==>
            RoundHalfUp(p.scheduledInterest) > 0 && RoundHalfUp(ComputeAmounts(p).principalApplied) > 0
  {
    WaterfallPaysInFull(p);
    var a := ComputeAmounts(p);
    RoundMonotone(a.principalApplied, a.payment);
    RoundWhole(a.penalty);
    EmiLegsPositive(p, a);
  }

  lemma EmiLegsPositive(p: EmiPayload, a: EmiAmounts)
    requires a == ComputeAmounts(p) && RoundHalfUp(a.principalApplied) <= RoundHalfUp(a.payment)
    requires a.penaltyApplied > 0.0 ==> RoundHalfUp(a.penaltyApplied) > 0
    ensures Accepted(EmiJournal(p)) <==> RoundHalfUp(a.interestApplied) > 0 && RoundHalfUp(a.principalApplied) > 0
  {
    hide ComputeAmounts, RoundHalfUp;
    var legs := EmiReal(p);
    PlugBalances(legs, p.platformCash, p.currency);
    assert legs[1] in legs && legs[2] in legs;
  }
}
