/**
 The modelled handlers meet the hypotheses of the engine's theorems
 (src/transactions/handlers/base-transaction.handler.ts:139-173): a run of their
 payments overdraws no wallet, keeps every spend cap and conserves each currency.
 */
module Payments {
  import opened Money
  import opened Sums
  import opened Calendar
  import opened Ledger
  import opened Engine
  import opened Handlers
  import Conservation
  import Outcomes
  import Overdraft
  import SpendCaps

  datatype Payment = P2p(p2p: P2pPayload) | Qr(qr: QrPayload) | Nip(nip: NipPayload) | Emi(emi: EmiPayload)

  function LegsOf(payment: Payment): seq<Leg> {
    match payment
    case P2p(p) => P2pReal(p)
    case Qr(p) => QrReal(p)
    case Nip(p) => NipReal(p)
    case Emi(p) => EmiReal(p)
  }

  function WalletOf(payment: Payment): Id {
    match payment
    case P2p(p) => p.sender
    case Qr(p) => p.wallet
    case Nip(p) => p.sender
    case Emi(p) => p.wallet
  }

  function PlatformOf(payment: Payment): Id {
    match payment
    case P2p(p) => p.platformCash
    case Qr(p) => p.platformCash
    case Nip(p) => p.platformCash
    case Emi(p) => p.platformCash
  }

  function CurrencyOfPayment(payment: Payment): string {
    match payment
    case P2p(p) => p.currency
    case Qr(p) => p.currency
    case Nip(p) => p.currency
    case Emi(p) => p.currency
  }

  function CheckOf(payment: Payment): LimitCheck {
    match payment
    case P2p(p) => P2pLimitCheck(p)
    case Qr(p) => QrLimitCheck(p)
    case Nip(p) => NipLimitCheck(p)
    case Emi(p) => EmiLimitCheck(p)
  }

  /** The transaction type of each handler, of its journal as of its limit check. */
  lemma ChecksItsOwnType(payment: Payment)
    ensures CheckOf(payment).transactionType == match payment
                                                case P2p(_) => P2pTransfer
                                                case Qr(_) => MerchantPaymentQr
                                                case Nip(_) => NipTransfer
                                                case Emi(_) => LoanEmiPayment
  {
  }

  /** What execute() hands to postJournalEntry: the wallet is balance-checked and limit-checked. */
  function RequestOf(payment: Payment, journalId: Id, transactionId: Id, date: int): Request {
    Posting(journalId, CheckOf(payment).transactionType, transactionId, date,
            ToLines(WithPlug(LegsOf(payment), PlatformOf(payment), CurrencyOfPayment(payment))),
            [WalletOf(payment)], [CheckOf(payment)])
  }

  // ---- The shape all four share ----------------------------------------------

  /** The wallet's credit comes first and is what is limit-checked; all legs are in one currency. */
  ghost predicate WalletFirst(payment: Payment) {
    var legs := LegsOf(payment);
    && |legs| > 0 && legs[0].account == WalletOf(payment) == CheckOf(payment).account
    && CheckOf(payment).amount == legs[0].amount as real
    && forall l :: l in legs ==> l.currency == CurrencyOfPayment(payment)
  }

  lemma EveryPaymentIsWalletFirst(payment: Payment)
    ensures WalletFirst(payment)
  {
    hide RoundHalfUp, ComputeAmounts, StampDuty, Vat, CybersecurityLevy, NipTotal, QrFee;
  }

  // ---- One account's view of a payment ---------------------------------------

  /** The account pays with one leg of its own, or it only receives. */
  ghost predicate PaysOrReceives(payment: Payment, account: Id) {
    var legs := LegsOf(payment);
    && account != PlatformOf(payment)
    && ((WalletOf(payment) == account && forall k :: 0 < k < |legs| ==> legs[k].account != account)
        || (forall l :: l in legs && l.account == account ==> l.entryType == Debit))
  }

  ghost predicate CurrencyFits(payment: Payment, account: Id, currency: string) {
    (exists l :: l in LegsOf(payment) && l.account == account) ==> CurrencyOfPayment(payment) == currency
  }

  /** Lines of the plugged journal on an account other than the platform's are its legs. */
  lemma LinesAreLegs(legs: seq<Leg>, platformCash: Id, currency: string, account: Id, k: nat)
    requires account != platformCash
    requires
      var lines := ToLines(WithPlug(legs, platformCash, currency));
      k < |lines| && lines[k].account == account
    ensures k < |legs| && ToLines(WithPlug(legs, platformCash, currency))[k] == ToLine(legs[k])
  {
    hide Plug;
  }

  lemma PaymentIsGuarded(payment: Payment, journalId: Id, transactionId: Id, date: int, account: Id, currency: string)
    requires PaysOrReceives(payment, account) && CurrencyFits(payment, account, currency)
    ensures Overdraft.PostingGuarded(RequestOf(payment, journalId, transactionId, date), account, currency)
  {
    hide LegsOf, WithPlug, ToLines;
    EveryPaymentIsWalletFirst(payment);
    var legs := LegsOf(payment);
    var lines := RequestOf(payment, journalId, transactionId, date).lines;
    forall k | 0 <= k < |lines| && lines[k].account == account
      ensures k < |legs| && lines[k] == ToLine(legs[k]) && legs[k] in legs
    {
      LinesAreLegs(legs, PlatformOf(payment), CurrencyOfPayment(payment), account, k);
    }
    forall l | l in lines && l.account == account
      ensures l.currency == currency
      ensures (forall leg :: leg in legs && leg.account == account ==> leg.entryType == Debit) ==> l.entryType == Debit
    {
      var k :| 0 <= k < |lines| && lines[k] == l;
      assert legs[k].account == account;
    }
  }

  lemma OnlyFirstLine(lines: seq<Line>, account: Id)
    requires |lines| > 0 && forall k :: 0 < k < |lines| ==> lines[k].account != account
    ensures Total(lines, SpendCaps.LineOn(account)) == SpendCaps.LineOn(account)(lines[0])
  {
    TotalHead(lines, SpendCaps.LineOn(account));
    forall l | l in lines[1..] ensures SpendCaps.LineOn(account)(l) == 0 {
      var k :| 0 <= k < |lines[1..]| && lines[1..][k] == l;
      assert lines[k + 1] == l;
    }
    TotalZero(lines[1..], SpendCaps.LineOn(account));
  }

  /** The payment's limit check covers all it stores on the wallet. */
  lemma PaymentIsChecked(payment: Payment, journalId: Id, transactionId: Id, date: int, subject: SpendCaps.Subject)
    requires subject.account == WalletOf(payment) != PlatformOf(payment)
    requires subject.transactionType == CheckOf(payment).transactionType
    requires forall k :: 0 < k < |LegsOf(payment)| ==> LegsOf(payment)[k].account != subject.account
    ensures SpendCaps.ChecksItself(RequestOf(payment, journalId, transactionId, date), subject)
  {
    hide LegsOf, CheckOf, WalletOf, ToLines, Plug;
    EveryPaymentIsWalletFirst(payment);
    var legs, account := LegsOf(payment), subject.account;
    var request := RequestOf(payment, journalId, transactionId, date);
    var lines := request.lines;
    FirstLine(payment);
    forall k | 0 < k < |lines| ensures lines[k].account != account {
      if lines[k].account == account {
        LinesAreLegs(legs, PlatformOf(payment), CurrencyOfPayment(payment), account, k);
      }
    }
    OnlyFirstLine(lines, account);
    RoundWhole(legs[0].amount);
    assert SpendCaps.Covers(request, subject, 0);
  }

  lemma FirstLine(payment: Payment)
    requires |LegsOf(payment)| > 0
    ensures
      var lines := ToLines(WithPlug(LegsOf(payment), PlatformOf(payment), CurrencyOfPayment(payment)));
      |lines| > 0 && lines[0] == ToLine(LegsOf(payment)[0])
  {
    hide Plug, LegsOf;
  }

  lemma PaymentConserves(payment: Payment)
    ensures ConservesEachCurrency(ToLines(WithPlug(LegsOf(payment), PlatformOf(payment), CurrencyOfPayment(payment))))
  {
    hide ConservesEachCurrency, LegsOf, WithPlug;
    EveryPaymentIsWalletFirst(payment);
    PlugConserves(LegsOf(payment), PlatformOf(payment), CurrencyOfPayment(payment));
  }

  // ---- Runs of payments ------------------------------------------------------

  datatype Order = Order(payment: Payment, journalId: Id, transactionId: Id, date: int)

  function OrderRequest(o: Order): Request {
    RequestOf(o.payment, o.journalId, o.transactionId, o.date)
  }

  /** Every request of the run is a payment of one of the handlers. */
  ghost predicate RunsPayments(sys: System, orders: seq<Order>) {
    |sys.requests| == |orders| && forall i :: 0 <= i < |orders| ==> sys.requests[i] == OrderRequest(orders[i])
  }

  /** Over every interleaving of payments, a wallet that starts non-negative stays so. */
  lemma WalletsStaySolvent(sys: System, orders: seq<Order>, states: seq<State>, account: Id, currency: string)
    requires RunsPayments(sys, orders) && IsRun(sys, states)
    requires forall i :: 0 <= i < |orders| ==>
               PaysOrReceives(orders[i].payment, account) && CurrencyFits(orders[i].payment, account, currency)
    requires SingleCurrency(states[0].db.entries, account, currency) && 0 <= Balance(states[0].db.entries, account)
    ensures forall k :: 0 <= k < |states| ==> 0 <= Balance(states[k].db.entries, account)
  {
    assert |states| > 0;
    hide PaysOrReceives, CurrencyFits, Overdraft.PostingGuarded, IsRun, RequestOf, Balance, SingleCurrency;
    var start := states[0].db;
    forall i | 0 <= i < |sys.requests|
      ensures Overdraft.RequestGuarded(sys, start, sys.requests[i], account, currency, {})
    {
      var o := orders[i];
      PaymentIsGuarded(o.payment, o.journalId, o.transactionId, o.date, account, currency);
      IsPosting(o);
    }
    forall i, j | 0 <= i < |sys.requests| && 0 <= j < |sys.requests|
      ensures Overdraft.ReversalOfGuarded(sys, sys.requests[i], sys.requests[j], account, currency, {})
    {
      IsPosting(orders[i]);
    }
    Overdraft.NeverOverdrawn(sys, states, account, currency, {});
  }

  lemma IsPosting(o: Order)
    ensures OrderRequest(o).Posting?
    ensures OrderRequest(o).lines
         == ToLines(WithPlug(LegsOf(o.payment), PlatformOf(o.payment), CurrencyOfPayment(o.payment)))
  {
  }

  /** The journals of the run in which the account pays. */
  ghost predicate PaidBy(orders: seq<Order>, subject: SpendCaps.Subject) {
    forall i :: 0 <= i < |orders| && orders[i].journalId in subject.outgoing ==>
      && WalletOf(orders[i].payment) == subject.account != PlatformOf(orders[i].payment)
      && (forall k :: 0 < k < |LegsOf(orders[i].payment)| ==> LegsOf(orders[i].payment)[k].account != subject.account)
  }

  /** Over every interleaving of payments, the account's payments of a type keep to its cap. */
  lemma PaymentsKeepTheCap(sys: System, orders: seq<Order>, states: seq<State>, k: nat, subject: SpendCaps.Subject, cap: int)
    requires RunsPayments(sys, orders) && IsRun(sys, states) && k < |states| && PaidBy(orders, subject)
    requires SpendCaps.CapIs(sys, subject, cap) && SpendCaps.AmountsOk(states[0].db.entries)
    requires SpendCaps.CheckedTotal(states[0].db.entries, subject, states[0].now) <= cap
    ensures SpendCaps.CheckedTotal(states[k].db.entries, subject, states[k].now) <= cap
  {
    hide IsRun, SpendCaps.CapIs, SpendCaps.AmountsOk, SpendCaps.CheckedTotal, SpendCaps.ChecksItself, LegsOf, CheckOf;
    forall i | 0 <= i < |sys.requests| && sys.requests[i].journalId in subject.outgoing
      && ReferenceType(sys.requests[i]) == subject.transactionType
      ensures SpendCaps.ChecksItself(sys.requests[i], subject)
    {
      var o := orders[i];
      PaymentIsChecked(o.payment, o.journalId, o.transactionId, o.date, subject);
    }
    SpendCaps.CapIsKept(sys, states, k, subject, cap);
  }

  /** Over every interleaving of payments the books stay conserved in each currency as of every date. */
  lemma PaymentsConserve(sys: System, orders: seq<Order>, states: seq<State>, k: nat)
    requires RunsPayments(sys, orders) && IsRun(sys, states) && k < |states|
    requires Conservation.NetsToZero(states[0].db.entries)
    ensures forall currency, asOf :: Net(states[k].db.entries, currency, asOf) == 0
  {
    hide IsRun, ConservesEachCurrency, Conservation.NetsToZero, Conservation.RowsConserve, RequestOf, Net;
    forall i | 0 <= i < |sys.requests|
      ensures sys.requests[i].Posting? && ConservesEachCurrency(sys.requests[i].lines)
    {
      IsPosting(orders[i]);
      PaymentConserves(orders[i].payment);
    }
    Conservation.RunConserves(sys, states, k);
  }

  // ---- One payment, from the payload to the ledger ---------------------------

  /** The balance check looks at the wallet's own leg. */
  lemma WalletCanPayIff(payment: Payment, journalId: Id, transactionId: Id, date: int, entries: seq<Entry>)
    ensures Outcomes.CanPay(entries, RequestOf(payment, journalId, transactionId, date).lines, WalletOf(payment))
       <==> CheckOf(payment).amount <= DeriveBalance(entries, WalletOf(payment)) as real
  {
    hide LegsOf, CheckOf, WalletOf, ToLines, Plug, DeriveBalance;
    EveryPaymentIsWalletFirst(payment);
    FirstLine(payment);
    var lines := RequestOf(payment, journalId, transactionId, date).lines;
    assert IsFirstOn(lines, WalletOf(payment), 0);
    forall k | IsFirstOn(lines, WalletOf(payment), k) ensures k == 0 {
    }
  }

  lemma PaymentIsDueIff(sys: System, payment: Payment, journalId: Id, transactionId: Id, date: int, entries: seq<Entry>,
                        now: nat)
    ensures Outcomes.PostingDue(sys, entries, RequestOf(payment, journalId, transactionId, date), now) <==>
            && Accepted(RequestOf(payment, journalId, transactionId, date).lines)
            && CheckOf(payment).amount <= DeriveBalance(entries, WalletOf(payment)) as real
            && Outcomes.FitsDay(sys.limits, entries, CheckOf(payment), now)
            && Outcomes.FitsMonth(sys.limits, entries, CheckOf(payment), now)
  {
    hide Accepted, DeriveBalance, CheckOf, LegsOf, WalletOf, ToLines, WithPlug, Outcomes.FitsDay, Outcomes.FitsMonth,
      Outcomes.CanPay;
    var request := RequestOf(payment, journalId, transactionId, date);
    WalletCanPayIff(payment, journalId, transactionId, date, entries);
    assert request.checkBalanceOn[0] == WalletOf(payment) && request.limitChecks[0] == CheckOf(payment);
  }

  /**
   A payment that comes when the others are finished can be posted, and is posted
   if nothing interferes, exactly if its lines are accepted, the wallet covers
   amount and charges, and limits that are set leave room for them that day and
   month; the ledger then has the rows of its journal more, and otherwise none.
   */
  lemma FundedPaymentIsPosted(sys: System, s: State, i: nat, o: Order) returns (states: seq<State>, events: seq<Event>)
    requires Sound(sys, s) && i < |s.txs| && sys.requests[i] == OrderRequest(o)
    requires Outcomes.OthersFinished(s, i) && s.txs[i] == Fresh && Outcomes.AmountsOk(s.db.entries)
    ensures Outcomes.Alone(sys, states, events, i) && states[0] == s && Outcomes.Conflicts(events) == 0
    ensures Finished(states[|events|].txs[i])
    ensures
      var check, end := CheckOf(o.payment), states[|events|];
      var lines := ToLines(WithPlug(LegsOf(o.payment), PlatformOf(o.payment), CurrencyOfPayment(o.payment)));
      if Accepted(lines) && check.amount <= DeriveBalance(s.db.entries, WalletOf(o.payment)) as real
         && Outcomes.FitsDay(sys.limits, s.db.entries, check, s.now) && Outcomes.FitsMonth(sys.limits, s.db.entries, check, s.now)
      then end.txs[i].phase.Committed?
           && end.db == Database(s.db.entries + StoredAll(o.journalId, o.date, check.transactionType, o.transactionId, lines),
                                 s.db.reversals)
      else end.txs[i].phase.Failed? && end.db == s.db
  {
    hide Sound, Outcomes.OthersFinished, Outcomes.AmountsOk, Outcomes.PostingDue, Accepted, DeriveBalance, CheckOf, LegsOf,
      WalletOf, ToLines, WithPlug, Outcomes.FitsDay, Outcomes.FitsMonth, Outcomes.Alone, StoredAll;
    states, events := Outcomes.DueIsCommitted(sys, s, i);
    PaymentIsDueIff(sys, o.payment, o.journalId, o.transactionId, o.date, s.db.entries, s.now);
    Outcomes.AloneKeepsCount(sys, states, events, i);
  }

  /** So a system with one payment has a run, from its first state on, that ends with the payment posted. */
  lemma SinglePaymentIsPosted(sys: System, s: State, o: Order) returns (states: seq<State>)
    requires sys.requests == [OrderRequest(o)] && Initial(sys, s) && Outcomes.AmountsOk(s.db.entries)
    requires Accepted(ToLines(WithPlug(LegsOf(o.payment), PlatformOf(o.payment), CurrencyOfPayment(o.payment))))
    requires CheckOf(o.payment).amount <= DeriveBalance(s.db.entries, WalletOf(o.payment)) as real
    requires Outcomes.FitsDay(sys.limits, s.db.entries, CheckOf(o.payment), s.now)
    requires Outcomes.FitsMonth(sys.limits, s.db.entries, CheckOf(o.payment), s.now)
    ensures IsRun(sys, states) && states[0] == s
    ensures
      var lines := ToLines(WithPlug(LegsOf(o.payment), PlatformOf(o.payment), CurrencyOfPayment(o.payment)));
      var end := states[|states| - 1];
      && end.txs[0].phase.Committed?
      && end.db == Database(s.db.entries + StoredAll(o.journalId, o.date, CheckOf(o.payment).transactionType,
                                                     o.transactionId, lines),
                            s.db.reversals)
  {
    hide TxOk, LocksExclusive, RowsExclusive, Outcomes.AmountsOk, Accepted, DeriveBalance, CheckOf, LegsOf, WalletOf,
      ToLines, WithPlug, Outcomes.FitsDay, Outcomes.FitsMonth, StoredAll, Next;
    InitialIsSound(sys, s);
    var events;
    states, events := FundedPaymentIsPosted(sys, s, 0, o);
    forall k | 0 <= k < |states| - 1 ensures Follows(sys, states[k], states[k + 1]) {
      assert Next(sys, states[k], events[k], states[k + 1]);
    }
  }
}
