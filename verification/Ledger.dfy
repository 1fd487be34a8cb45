/**
 The ledger's rows and the queries on them (src/ledger/ledger.service.ts,
 src/ledger/balance.service.ts, src/ledger/transaction-limit.service.ts,
 src/common/types/money.type.ts). A query is a sum over the posted rows.
 */
module Ledger {
  import opened Money
  import opened Sums
  import opened Calendar

  type Id = string

  /** Attempts withRetryTransaction makes in all (database.service.ts:172). */
  const MAX_RETRIES: nat := 3

  datatype TransactionType =
    | CustomerDepositBank | CustomerDepositCard | CustomerWithdrawalBank | P2pTransfer
    | MerchantPaymentQr | MerchantPaymentOnline | BillPayment | InterestAccrual | InterestPayout
    | FeeDeductionMonthly | CashbackCredit | PromotionalCredit | LoanDisbursement | LoanEmiPayment
    | FxConversion | RefundFull | RefundPartial | Chargeback | RewardRedemption
    | AccountClosureSweep | NipTransfer | UssdTransfer

  datatype AccountType = Asset | Liability | Equity | Revenue | Expense | ContraAsset | ContraRevenue

  /** Accounts with a debit normal balance have sign 1. */
  function NormalBalanceSign(accountType: AccountType): int {
    match accountType
    case Asset => 1
    case Expense => 1
    case ContraRevenue => 1
    case _ => -1
  }

  datatype Account = Account(id: Id, code: string, accountType: AccountType, currency: string)

  /** A line of a journal as it is handed in: its amount is not rounded yet. */
  datatype Line = Line(account: Id, entryType: EntryType, amount: real, currency: string, narrative: string)

  /** The columns of a posted row that the queries look at. */
  datatype Entry = Entry(
    journalId: Id, account: Id, entryType: EntryType, amount: int, currency: string,
    effectiveDate: int, referenceType: TransactionType, referenceId: Id)

  // ---- Validation of a journal (ledger.service.ts steps 1 and 2) -------------

  function DebitTotal(lines: seq<Line>): real {
    if |lines| == 0 then 0.0
    else
      var last := lines[|lines| - 1];
      DebitTotal(lines[..|lines| - 1]) + (if last.entryType == Debit then last.amount else 0.0)
  }

  function CreditTotal(lines: seq<Line>): real {
    if |lines| == 0 then 0.0
    else
      var last := lines[|lines| - 1];
      CreditTotal(lines[..|lines| - 1]) + (if last.entryType == Credit then last.amount else 0.0)
  }

  predicate AllPositive(lines: seq<Line>) {
    forall k :: 0 <= k < |lines| ==> lines[k].amount > 0.0
  }

  predicate Balanced(lines: seq<Line>) {
    DebitTotal(lines) == CreditTotal(lines)
  }

  predicate Accepted(lines: seq<Line>) {
    AllPositive(lines) && Balanced(lines)
  }

  method AssertBalanced(lines: seq<Line>) returns (ok: bool)
    ensures ok <==> Balanced(lines)
  {
    var totalDebits, totalCredits := 0.0, 0.0;
    for k := 0 to |lines|
      invariant totalDebits == DebitTotal(lines[..k]) && totalCredits == CreditTotal(lines[..k])
    {
      assert lines[..k + 1][..k] == lines[..k];
      if lines[k].entryType == Debit {
        totalDebits := totalDebits + lines[k].amount;
      } else {
        totalCredits := totalCredits + lines[k].amount;
      }
    }
    assert lines[..|lines|] == lines;
    ok := totalDebits == totalCredits;
  }

  // ---- Balances --------------------------------------------------------------

  function Signed(entryType: EntryType, amount: int): int {
    if entryType == Debit then amount else -amount
  }

  function OnAccount(account: Id): Entry -> int {
    (e: Entry) => if e.account == account then Signed(e.entryType, e.amount) else 0
  }

  function OnAccountIn(account: Id, currency: string): Entry -> int {
    (e: Entry) => if e.account == account && e.currency == currency then Signed(e.entryType, e.amount) else 0
  }

  /** Debits minus credits on the account. */
  function Balance(entries: seq<Entry>, account: Id): int {
    Total(entries, OnAccount(account))
  }

  function BalanceIn(entries: seq<Entry>, account: Id, currency: string): int {
    Total(entries, OnAccountIn(account, currency))
  }

  function CurrencyOf(entries: seq<Entry>, account: Id): Option<string> {
    if |entries| == 0 then None
    else if entries[0].account == account then Some(entries[0].currency)
    else CurrencyOf(entries[1..], account)
  }

  /**
   deriveBalance: the query groups by currency and the first group is taken, so
   on an account with several currencies only one of them is seen.
   */
  function DeriveBalance(entries: seq<Entry>, account: Id): int {
    match CurrencyOf(entries, account)
    case None => 0
    case Some(currency) => BalanceIn(entries, account, currency)
  }

  /** Accounts are single-currency (prisma/schema.prisma:155); no check enforces it. */
  ghost predicate SingleCurrency(entries: seq<Entry>, account: Id, currency: string) {
    forall e :: e in entries && e.account == account ==> e.currency == currency
  }

  lemma {:induction false} NoCurrencyNoEntry(entries: seq<Entry>, account: Id)
    ensures CurrencyOf(entries, account) == None ==> forall e :: e in entries ==> e.account != account
    ensures CurrencyOf(entries, account).Some? ==>
              exists e :: e in entries && e.account == account && e.currency == CurrencyOf(entries, account).value
  {
    if |entries| > 0 {
      if entries[0].account == account {
        assert entries[0] in entries;
      } else {
        NoCurrencyNoEntry(entries[1..], account);
      }
    }
  }

  /** On a single-currency account the derived balance is the whole balance. */
  lemma DerivedIsBalance(entries: seq<Entry>, account: Id, currency: string)
    requires SingleCurrency(entries, account, currency)
    ensures DeriveBalance(entries, account) == Balance(entries, account)
  {
    NoCurrencyNoEntry(entries, account);
    match CurrencyOf(entries, account)
    case None =>
      TotalZero(entries, OnAccount(account));
    case Some(c) =>
      TotalEqual(entries, OnAccount(account), OnAccountIn(account, c));
  }

  // ---- Conservation within a currency ----------------------------------------

  function NetWeight(currency: string, asOf: int): Entry -> int {
    (e: Entry) => if e.currency == currency && e.effectiveDate <= asOf then Signed(e.entryType, e.amount) else 0
  }

  /** Debits minus credits over all accounts, in one currency, up to a date. */
  function Net(entries: seq<Entry>, currency: string, asOf: int): int {
    Total(entries, NetWeight(currency, asOf))
  }

  function LineWeight(currency: string): Line -> int {
    (l: Line) => if l.currency == currency then Signed(l.entryType, RoundHalfUp(l.amount)) else 0
  }

  /** What the journal's stored lines add up to in one currency. */
  function StoredNet(lines: seq<Line>, currency: string): int {
    Total(lines, LineWeight(currency))
  }

  ghost predicate ConservesEachCurrency(lines: seq<Line>) {
    forall currency :: StoredNet(lines, currency) == 0
  }

  ghost predicate WholeAmounts(lines: seq<Line>) {
    forall l :: l in lines ==> IsWhole(l.amount)
  }

  /** What storing the lines of one side adds to their total. */
  function RoundingError(lines: seq<Line>, side: EntryType): real {
    if |lines| == 0 then 0.0
    else
      var last := lines[|lines| - 1];
      RoundingError(lines[..|lines| - 1], side)
      + (if last.entryType == side then RoundHalfUp(last.amount) as real - last.amount else 0.0)
  }

  lemma {:induction false} StoredNetIs(lines: seq<Line>, currency: string)
    requires forall l :: l in lines ==> l.currency == currency
    ensures StoredNet(lines, currency) as real
         == DebitTotal(lines) - CreditTotal(lines) + RoundingError(lines, Debit) - RoundingError(lines, Credit)
  {
    if |lines| > 0 {
      hide RoundHalfUp;
      StoredNetIs(lines[..|lines| - 1], currency);
    }
  }

  lemma {:induction false} WholeHasNoError(lines: seq<Line>, side: EntryType)
    requires WholeAmounts(lines)
    ensures RoundingError(lines, side) == 0.0
  {
    if |lines| > 0 {
      WholeHasNoError(lines[..|lines| - 1], side);
      RoundWhole(lines[|lines| - 1].amount.Floor);
    }
  }

  /** A balanced journal in one currency is stored balanced exactly if the rounding errors of its two sides cancel. */
  lemma StoredBalancedIff(lines: seq<Line>, currency: string)
    requires Balanced(lines) && forall l :: l in lines ==> l.currency == currency
    ensures ConservesEachCurrency(lines) <==> RoundingError(lines, Debit) == RoundingError(lines, Credit)
  {
    hide RoundingError, Total;
    StoredNetIs(lines, currency);
    if StoredNet(lines, currency) == 0 {
      forall c ensures StoredNet(lines, c) == 0 {
        if c != currency {
          TotalZero(lines, LineWeight(c));
        }
      }
    }
  }

  /** With four-decimal amounts there is no error. */
  lemma StoredBalanced(lines: seq<Line>, currency: string)
    requires Balanced(lines) && WholeAmounts(lines)
    requires forall l :: l in lines ==> l.currency == currency
    ensures ConservesEachCurrency(lines)
  {
    WholeHasNoError(lines, Debit);
    WholeHasNoError(lines, Credit);
    StoredBalancedIff(lines, currency);
  }

  lemma OneMoreLine(lines: seq<Line>, line: Line, currency: string)
    ensures DebitTotal(lines + [line]) == DebitTotal(lines) + (if line.entryType == Debit then line.amount else 0.0)
    ensures CreditTotal(lines + [line]) == CreditTotal(lines) + (if line.entryType == Credit then line.amount else 0.0)
    ensures StoredNet(lines + [line], currency) == StoredNet(lines, currency) + LineWeight(currency)(line)
  {
    assert (lines + [line])[..|lines|] == lines;
  }

  /**
   assertBalanced compares amounts before they are rounded for storage: two
   debits of half a tick against one credit of a tick are accepted and are
   stored as two ticks against one.
   */
  lemma FineAmountsAreStoredUnbalanced(a: Id, b: Id, currency: string)
    ensures
      var lines := [Line(a, Debit, 0.5, currency, ""), Line(a, Debit, 0.5, currency, ""),
                    Line(b, Credit, 1.0, currency, "")];
      Accepted(lines) && StoredNet(lines, currency) == 1
  {
    var x, y, z := Line(a, Debit, 0.5, currency, ""), Line(a, Debit, 0.5, currency, ""),
                   Line(b, Credit, 1.0, currency, "");
    var lines := [x, y, z];
    var none: seq<Line> := [];
    assert lines == none + [x] + [y] + [z];
    OneMoreLine(none, x, currency);
    OneMoreLine(none + [x], y, currency);
    OneMoreLine(none + [x] + [y], z, currency);
    assert RoundHalfUp(0.5) == 1 && RoundHalfUp(1.0) == 1;
  }

  // ---- Spend limits (transaction-limit.service.ts) ---------------------------

  datatype LimitCheck = LimitCheck(account: Id, transactionType: TransactionType, amount: real)

  datatype Limit = Limit(isActive: bool, maxPerTx: Option<int>, maxPerDay: Option<int>, maxPerMonth: Option<int>)

  type Limits = map<(Id, TransactionType), Limit>

  function SpendWeight(account: Id, transactionType: TransactionType, since: int): Entry -> int {
    (e: Entry) =>
      if e.account == account && e.referenceType == transactionType && e.effectiveDate >= since
      then e.amount else 0
  }

  /** sumPostedAmount. */
  function PostedSince(entries: seq<Entry>, account: Id, transactionType: TransactionType, since: int): int {
    Total(entries, SpendWeight(account, transactionType, since))
  }

  function MaxFor(limit: Limit, window: Window): Option<int> {
    match window
    case Day => limit.maxPerDay
    case Month => limit.maxPerMonth
  }

  /** The part of assertWithinLimits that looks at the amount alone. */
  predicate TooLarge(limits: Limits, check: LimitCheck) {
    var key := (check.account, check.transactionType);
    key in limits && limits[key].isActive && limits[key].maxPerTx.Some?
    && check.amount > limits[key].maxPerTx.value as real
  }

  /** The part of assertWithinLimits that looks at one window, read at time `now`. */
  predicate WindowExceeded(limits: Limits, entries: seq<Entry>, check: LimitCheck, window: Window, now: nat) {
    var key := (check.account, check.transactionType);
    key in limits && limits[key].isActive && MaxFor(limits[key], window).Some?
    && PostedSince(entries, check.account, check.transactionType, StartOf(window, now)) as real + check.amount
       > MaxFor(limits[key], window).value as real
  }

  // ---- The balance check -----------------------------------------------------

  /** `lines.find((l) => l.accountId === accountId)`. */
  function FirstOn(lines: seq<Line>, account: Id): (r: Option<Line>)
    ensures r.Some? ==> exists k :: IsFirstOn(lines, account, k) && r.value == lines[k]
    ensures r.Some? ==> r.value in lines && r.value.account == account
    ensures r == None ==> forall l :: l in lines ==> l.account != account
  {
    if |lines| == 0 then None
    else if lines[0].account == account then
      assert IsFirstOn(lines, account, 0);
      Some(lines[0])
    else
      var r := FirstOn(lines[1..], account);
      assert r.Some? ==> exists k :: IsFirstOn(lines, account, k) && r.value == lines[k] by {
        if r.Some? {
          var k :| IsFirstOn(lines[1..], account, k) && r.value == lines[1..][k];
          assert IsFirstOn(lines, account, k + 1);
        }
      }
      r
  }

  predicate IsFirstOn(lines: seq<Line>, account: Id, k: int) {
    && 0 <= k < |lines| && lines[k].account == account
    && forall j :: 0 <= j < k ==> lines[j].account != account
  }

  predicate Insufficient(entries: seq<Entry>, lines: seq<Line>, account: Id) {
    match FirstOn(lines, account)
    case None => false
    case Some(line) => DeriveBalance(entries, account) as real < line.amount
  }

  // ---- Rows written for a journal --------------------------------------------

  function Stored(journalId: Id, effectiveDate: int, referenceType: TransactionType, referenceId: Id, line: Line): Entry {
    Entry(journalId, line.account, line.entryType, RoundHalfUp(line.amount), line.currency,
          effectiveDate, referenceType, referenceId)
  }

  function StoredAll(journalId: Id, effectiveDate: int, referenceType: TransactionType, referenceId: Id,
                     lines: seq<Line>): (entries: seq<Entry>)
    ensures |entries| == |lines|
    ensures forall k :: 0 <= k < |lines| ==>
              entries[k] == Stored(journalId, effectiveDate, referenceType, referenceId, lines[k])
  {
    seq(|lines|, k requires 0 <= k < |lines| =>
      Stored(journalId, effectiveDate, referenceType, referenceId, lines[k]))
  }

  /** What a stored journal adds to the net of a currency: what its lines net to, from its effective date on. */
  lemma StoredKeepsNet(journalId: Id, effectiveDate: int, referenceType: TransactionType, referenceId: Id,
                       lines: seq<Line>, currency: string, asOf: int)
    ensures Net(StoredAll(journalId, effectiveDate, referenceType, referenceId, lines), currency, asOf)
         == if effectiveDate <= asOf then StoredNet(lines, currency) else 0
  {
    var entries := StoredAll(journalId, effectiveDate, referenceType, referenceId, lines);
    if |lines| > 0 {
      var front := lines[..|lines| - 1];
      StoredKeepsNet(journalId, effectiveDate, referenceType, referenceId, front, currency, asOf);
      assert entries[..|entries| - 1]
          == StoredAll(journalId, effectiveDate, referenceType, referenceId, front);
    }
  }

  lemma OneMoreRow(journalId: Id, effectiveDate: int, referenceType: TransactionType, referenceId: Id,
                   lines: seq<Line>, line: Line, account: Id)
    ensures Balance(StoredAll(journalId, effectiveDate, referenceType, referenceId, lines + [line]), account)
         == Balance(StoredAll(journalId, effectiveDate, referenceType, referenceId, lines), account)
          + (if line.account == account then Signed(line.entryType, RoundHalfUp(line.amount)) else 0)
  {
    var rows := StoredAll(journalId, effectiveDate, referenceType, referenceId, lines + [line]);
    assert rows[..|lines|] == StoredAll(journalId, effectiveDate, referenceType, referenceId, lines);
  }
}
