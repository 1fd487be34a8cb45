/**
 The three reports (src/reporting/trial-balance.service.ts,
 balance-sheet.service.ts, income-statement.service.ts). Each query joins the
 chart of accounts with the posted entries of a period and yields one row per
 account (account codes are unique); row order is not modelled.
 */
module Reports {
  import opened Money
  import opened Sums
  import opened Ledger
  import Conservation
  import Engine

  // ---- Sums of one account ---------------------------------------------------

  /** `effective_date >= from AND effective_date <= to`; without `from` only the upper bound. */
  predicate InPeriod(e: Entry, from: Option<int>, to: int) {
    (from.Some? ==> from.value <= e.effectiveDate) && e.effectiveDate <= to
  }

  function DebitIn(from: Option<int>, to: int): Entry -> int {
    (e: Entry) => if InPeriod(e, from, to) && e.entryType == Debit then e.amount else 0
  }

  function CreditIn(from: Option<int>, to: int): Entry -> int {
    (e: Entry) => if InPeriod(e, from, to) && e.entryType == Credit then e.amount else 0
  }

  function SignedIn(from: Option<int>, to: int): Entry -> int {
    (e: Entry) => if InPeriod(e, from, to) then Signed(e.entryType, e.amount) else 0
  }

  function Only(account: Id, weight: Entry -> int): Entry -> int {
    (e: Entry) => if e.account == account then weight(e) else 0
  }

  /** The aggregate of one row. */
  function RowSum(entries: seq<Entry>, weight: Entry -> int): Account -> int {
    (a: Account) => Total(entries, Only(a.id, weight))
  }

  function DebitNet(entries: seq<Entry>, from: Option<int>, to: int, a: Account): int {
    Total(entries, Only(a.id, SignedIn(from, to)))
  }

  ghost predicate DistinctIds(chart: seq<Account>) {
    forall j, k :: 0 <= j < k < |chart| ==> chart[j].id != chart[k].id
  }

  predicate InChart(chart: seq<Account>, account: Id) {
    exists k :: 0 <= k < |chart| && chart[k].id == account
  }

  /** The foreign key from entries to accounts. */
  ghost predicate Covered(chart: seq<Account>, entries: seq<Entry>) {
    forall e :: e in entries ==> InChart(chart, e.account)
  }

  // ---- Summing by account is summing the ledger ------------------------------

  function Hit(e: Entry, weight: Entry -> int): Account -> int {
    (a: Account) => if a.id == e.account then weight(e) else 0
  }

  lemma {:induction false} HitOnce(chart: seq<Account>, e: Entry, weight: Entry -> int)
    requires DistinctIds(chart)
    ensures Total(chart, Hit(e, weight)) == if InChart(chart, e.account) then weight(e) else 0
  {
    if |chart| > 0 {
      var front, last := chart[..|chart| - 1], chart[|chart| - 1];
      HitOnce(front, e, weight);
      if InChart(front, e.account) {
        var k :| 0 <= k < |front| && front[k].id == e.account;
        assert chart[k].id == e.account && last.id != e.account;
      } else if InChart(chart, e.account) {
        assert forall k :: 0 <= k < |front| ==> chart[k] == front[k];
      }
    }
  }

  /** The rows of a report over the whole chart add up to the sum over the ledger. */
  lemma {:induction false} RowsAddUp(chart: seq<Account>, entries: seq<Entry>, weight: Entry -> int)
    requires DistinctIds(chart) && Covered(chart, entries)
    ensures Total(chart, RowSum(entries, weight)) == Total(entries, weight)
  {
    if |entries| == 0 {
      TotalZero(chart, RowSum(entries, weight));
    } else {
      var front, last := entries[..|entries| - 1], entries[|entries| - 1];
      RowsAddUp(chart, front, weight);
      HitOnce(chart, last, weight);
      TotalSplit(chart, RowSum(entries, weight), RowSum(front, weight), Hit(last, weight));
    }
  }

  // ---- Trial balance ---------------------------------------------------------

  datatype TrialLine = TrialLine(account: Account, totalDebits: int, totalCredits: int, netBalance: int)

  datatype TrialBalanceReport = TrialBalanceReport(
    lines: seq<TrialLine>, grandTotalDebits: int, grandTotalCredits: int, discrepancy: int, isBalanced: bool)

  function TrialLineOf(entries: seq<Entry>, asOf: int, a: Account): TrialLine {
    var raw := DebitNet(entries, None, asOf, a);
    TrialLine(a, RowSum(entries, DebitIn(None, asOf))(a), RowSum(entries, CreditIn(None, asOf))(a),
              raw * NormalBalanceSign(a.accountType))
  }

  function SideOf(account: Id, side: EntryType, asOf: int): Entry -> int {
    (e: Entry) => if e.account == account && e.entryType == side && e.effectiveDate <= asOf then e.amount else 0
  }

  /**
   The row of an account: what was debited and what was credited up to the date,
   and the balance on its normal side, debits less credits for assets, expenses
   and contra-revenue, credits less debits for the others.
   */
  ghost predicate IsTrialLine(entries: seq<Entry>, asOf: int, a: Account, line: TrialLine) {
    && line.account == a
    && line.totalDebits == Total(entries, SideOf(a.id, Debit, asOf))
    && line.totalCredits == Total(entries, SideOf(a.id, Credit, asOf))
    && line.netBalance == if a.accountType in {Asset, Expense, ContraRevenue}
                          then line.totalDebits - line.totalCredits else line.totalCredits - line.totalDebits
  }

  lemma TrialLineIs(entries: seq<Entry>, asOf: int, a: Account)
    ensures IsTrialLine(entries, asOf, a, TrialLineOf(entries, asOf, a))
  {
    TotalEqual(entries, SideOf(a.id, Debit, asOf), Only(a.id, DebitIn(None, asOf)));
    TotalEqual(entries, SideOf(a.id, Credit, asOf), Only(a.id, CreditIn(None, asOf)));
    TotalSplit(entries, Only(a.id, DebitIn(None, asOf)), Only(a.id, SignedIn(None, asOf)), Only(a.id, CreditIn(None, asOf)));
  }

  method TrialBalance(chart: seq<Account>, entries: seq<Entry>, asOf: int) returns (report: TrialBalanceReport)
    ensures |report.lines| == |chart|
    ensures forall k :: 0 <= k < |chart| ==> IsTrialLine(entries, asOf, chart[k], report.lines[k])
    ensures DistinctIds(chart) && Covered(chart, entries) ==>
              report.grandTotalDebits == Total(entries, DebitIn(None, asOf))
              && report.grandTotalCredits == Total(entries, CreditIn(None, asOf))
    ensures DistinctIds(chart) && Covered(chart, entries) ==>
              report.discrepancy == Total(entries, SignedIn(None, asOf))
    ensures report.isBalanced <==> report.discrepancy == 0
  {
    var grandTotalDebits, grandTotalCredits := 0, 0;
    var lines: seq<TrialLine> := [];
    for k := 0 to |chart|
      invariant |lines| == k
      invariant forall j :: 0 <= j < k ==> lines[j] == TrialLineOf(entries, asOf, chart[j])
      invariant grandTotalDebits == Total(chart[..k], RowSum(entries, DebitIn(None, asOf)))
      invariant grandTotalCredits == Total(chart[..k], RowSum(entries, CreditIn(None, asOf)))
    {
      var line := TrialLineOf(entries, asOf, chart[k]);
      grandTotalDebits := grandTotalDebits + line.totalDebits;
      grandTotalCredits := grandTotalCredits + line.totalCredits;
      lines := lines + [line];
      assert chart[..k + 1][..k] == chart[..k];
    }
    assert chart[..|chart|] == chart;
    var discrepancy := grandTotalDebits - grandTotalCredits;
    report := TrialBalanceReport(lines, grandTotalDebits, grandTotalCredits, discrepancy, discrepancy == 0);
    forall k | 0 <= k < |chart| ensures IsTrialLine(entries, asOf, chart[k], lines[k]) {
      TrialLineIs(entries, asOf, chart[k]);
    }
    if DistinctIds(chart) && Covered(chart, entries) {
      RowsAddUp(chart, entries, DebitIn(None, asOf));
      RowsAddUp(chart, entries, CreditIn(None, asOf));
      TotalSplit(entries, DebitIn(None, asOf), SignedIn(None, asOf), CreditIn(None, asOf));
    }
  }

  /** Rows of one currency, debits minus credits. */
  function RowNetIn(entries: seq<Entry>, asOf: int, currency: string): Account -> int {
    (a: Account) => if a.currency == currency then DebitNet(entries, None, asOf, a) else 0
  }

  /** Accounts are single-currency (prisma/schema.prisma:155). */
  ghost predicate CurrenciesMatch(chart: seq<Account>, entries: seq<Entry>) {
    forall k, e :: 0 <= k < |chart| && e in entries && e.account == chart[k].id ==> e.currency == chart[k].currency
  }

  /** The trial balance rows of a currency net to what the ledger nets to in it. */
  lemma TrialBalanceNetsPerCurrency(chart: seq<Account>, entries: seq<Entry>, asOf: int, currency: string)
    requires DistinctIds(chart) && Covered(chart, entries) && CurrenciesMatch(chart, entries)
    ensures Total(chart, RowNetIn(entries, asOf, currency)) == Net(entries, currency, asOf)
  {
    RowsAddUp(chart, entries, NetWeight(currency, asOf));
    forall a | a in chart
      ensures RowSum(entries, NetWeight(currency, asOf))(a) == RowNetIn(entries, asOf, currency)(a)
    {
      var k :| 0 <= k < |chart| && chart[k] == a;
      if a.currency == currency {
        TotalEqual(entries, Only(a.id, NetWeight(currency, asOf)), Only(a.id, SignedIn(None, asOf)));
      } else {
        TotalZero(entries, Only(a.id, NetWeight(currency, asOf)));
      }
    }
    TotalEqual(chart, RowSum(entries, NetWeight(currency, asOf)), RowNetIn(entries, asOf, currency));
  }

  function Others(entries: seq<Entry>, currency: string): (rest: seq<Entry>)
    ensures |rest| <= |entries|
    ensures |entries| > 0 && entries[|entries| - 1].currency == currency ==> |rest| < |entries|
  {
    if |entries| == 0 then []
    else
      var last := entries[|entries| - 1];
      Others(entries[..|entries| - 1], currency) + (if last.currency == currency then [] else [last])
  }

  lemma {:induction false} OthersNet(entries: seq<Entry>, currency: string, c: string, asOf: int)
    ensures Net(Others(entries, currency), c, asOf) == if c == currency then 0 else Net(entries, c, asOf)
    ensures Total(entries, SignedIn(None, asOf))
         == Net(entries, currency, asOf) + Total(Others(entries, currency), SignedIn(None, asOf))
  {
    if |entries| > 0 {
      var front, last := entries[..|entries| - 1], entries[|entries| - 1];
      OthersNet(front, currency, c, asOf);
      if last.currency != currency {
        TotalConcat(Others(front, currency), [last], NetWeight(c, asOf));
        TotalConcat(Others(front, currency), [last], SignedIn(None, asOf));
        TotalSingle(last, NetWeight(c, asOf));
        TotalSingle(last, SignedIn(None, asOf));
      } else {
        assert Others(entries, currency) == Others(front, currency);
      }
    }
  }

  /** A ledger conserved in every currency is in balance as a whole, so the trial balance reports it balanced. */
  lemma {:induction false} ConservedLedgerIsBalanced(entries: seq<Entry>, asOf: int)
    requires forall c :: Net(entries, c, asOf) == 0
    ensures Total(entries, SignedIn(None, asOf)) == 0
    decreases |entries|
  {
    if |entries| > 0 {
      var currency := entries[|entries| - 1].currency;
      var rest := Others(entries, currency);
      OthersNet(entries, currency, currency, asOf);
      forall c ensures Net(rest, c, asOf) == 0 {
        OthersNet(entries, currency, c, asOf);
      }
      ConservedLedgerIsBalanced(rest, asOf);
    }
  }

  /**
   After any run of the engine, and as of every date, the trial balance is
   balanced, as a whole and within each currency.
   */
  lemma TrialBalanceHoldsAfterAnyRun(sys: Engine.System, states: seq<Engine.State>, k: nat, chart: seq<Account>, asOf: int)
    requires Engine.IsRun(sys, states) && k < |states|
    requires Conservation.RequestsConserve(sys, states[0].db)
    requires Conservation.NetsToZero(states[0].db.entries)
    requires DistinctIds(chart) && Covered(chart, states[k].db.entries) && CurrenciesMatch(chart, states[k].db.entries)
    ensures Total(states[k].db.entries, SignedIn(None, asOf)) == 0
    ensures forall currency :: Total(chart, RowNetIn(states[k].db.entries, asOf, currency)) == 0
  {
    var entries := states[k].db.entries;
    Conservation.RunConserves(sys, states, k);
    ConservedLedgerIsBalanced(entries, asOf);
    forall currency ensures Total(chart, RowNetIn(entries, asOf, currency)) == 0 {
      TrialBalanceNetsPerCurrency(chart, entries, asOf, currency);
    }
  }

  // ---- Balance sheet ---------------------------------------------------------

  datatype ReportLine = ReportLine(account: Account, amount: int)

  datatype BalanceSheetReport = BalanceSheetReport(
    assets: seq<ReportLine>, liabilities: seq<ReportLine>, equity: seq<ReportLine>,
    totalAssets: int, totalLiabilities: int, totalEquity: int, isBalanced: bool, discrepancy: int)

  /** The tolerance of 0.0001. */
  const ONE_TICK: int := 1

  function SheetBalance(entries: seq<Entry>, asOf: int, a: Account): int {
    NormalBalanceSign(a.accountType) * DebitNet(entries, None, asOf, a)
  }

  function Abs(x: int): int {
    if x < 0 then -x else x
  }

  /** The rows whose account is of one of the given types, each with its amount. */
  function LinesOf(chart: seq<Account>, types: set<AccountType>, amount: Account -> int): (lines: seq<ReportLine>) {
    if |chart| == 0 then []
    else
      var last := chart[|chart| - 1];
      LinesOf(chart[..|chart| - 1], types, amount)
      + (if last.accountType in types then [ReportLine(last, amount(last))] else [])
  }

  function OfTypes(types: set<AccountType>, amount: Account -> int): Account -> int {
    (a: Account) => if a.accountType in types then amount(a) else 0
  }

  function SheetAmount(entries: seq<Entry>, asOf: int): Account -> int {
    (a: Account) => SheetBalance(entries, asOf, a)
  }

  method BalanceSheet(chart: seq<Account>, entries: seq<Entry>, asOf: int) returns (report: BalanceSheetReport)
    ensures report.assets == LinesOf(chart, {Asset, ContraAsset}, SheetAmount(entries, asOf))
    ensures report.liabilities == LinesOf(chart, {Liability}, SheetAmount(entries, asOf))
    ensures report.equity == LinesOf(chart, {Equity}, SheetAmount(entries, asOf))
    ensures report.totalAssets == Total(chart, OfTypes({Asset, ContraAsset}, SheetAmount(entries, asOf)))
    ensures report.totalLiabilities == Total(chart, OfTypes({Liability}, SheetAmount(entries, asOf)))
    ensures report.totalEquity == Total(chart, OfTypes({Equity}, SheetAmount(entries, asOf)))
    ensures report.discrepancy == SheetDiscrepancy(chart, entries, asOf)
    ensures report.isBalanced <==> -1 <= report.discrepancy <= 1
  {
    var totalAssets, totalLiabilities, totalEquity := 0, 0, 0;
    var assets: seq<ReportLine>, liabilities: seq<ReportLine>, equity: seq<ReportLine> := [], [], [];
    for k := 0 to |chart|
      invariant assets == LinesOf(chart[..k], {Asset, ContraAsset}, SheetAmount(entries, asOf))
      invariant liabilities == LinesOf(chart[..k], {Liability}, SheetAmount(entries, asOf))
      invariant equity == LinesOf(chart[..k], {Equity}, SheetAmount(entries, asOf))
      invariant totalAssets == Total(chart[..k], OfTypes({Asset, ContraAsset}, SheetAmount(entries, asOf)))
      invariant totalLiabilities == Total(chart[..k], OfTypes({Liability}, SheetAmount(entries, asOf)))
      invariant totalEquity == Total(chart[..k], OfTypes({Equity}, SheetAmount(entries, asOf)))
    {
      assert chart[..k + 1][..k] == chart[..k];
      var balance := SheetBalance(entries, asOf, chart[k]);
      var line := ReportLine(chart[k], balance);
      match chart[k].accountType {
        case Asset =>
          totalAssets := totalAssets + balance;
          assets := assets + [line];
        case ContraAsset =>
          totalAssets := totalAssets + balance;
          assets := assets + [line];
        case Liability =>
          totalLiabilities := totalLiabilities + balance;
          liabilities := liabilities + [line];
        case Equity =>
          totalEquity := totalEquity + balance;
          equity := equity + [line];
        case Revenue =>
        case Expense =>
        case ContraRevenue =>
      }
    }
    assert chart[..|chart|] == chart;
    var discrepancy := totalAssets - (totalLiabilities + totalEquity);
    report := BalanceSheetReport(assets, liabilities, equity, totalAssets, totalLiabilities, totalEquity,
                                 Abs(discrepancy) <= ONE_TICK, discrepancy);
  }

  function SheetDiscrepancy(chart: seq<Account>, entries: seq<Entry>, asOf: int): int {
    Total(chart, OfTypes({Asset, ContraAsset}, SheetAmount(entries, asOf)))
    - (Total(chart, OfTypes({Liability}, SheetAmount(entries, asOf)))
       + Total(chart, OfTypes({Equity}, SheetAmount(entries, asOf))))
  }

  // ---- Income statement ------------------------------------------------------

  datatype IncomeStatementReport = IncomeStatementReport(
    revenue: seq<ReportLine>, expenses: seq<ReportLine>, totalRevenue: int, totalExpenses: int, netIncome: int)

  /** The query's `net`, credits minus debits. */
  function CreditNet(entries: seq<Entry>, from: int, to: int): Account -> int {
    (a: Account) => -DebitNet(entries, Some(from), to, a)
  }

  function AbsNet(entries: seq<Entry>, from: int, to: int): Account -> int {
    (a: Account) => Abs(DebitNet(entries, Some(from), to, a))
  }

  method IncomeStatement(chart: seq<Account>, entries: seq<Entry>, from: int, to: int)
    returns (report: IncomeStatementReport)
    ensures report.revenue == LinesOf(chart, {Revenue}, AbsNet(entries, from, to))
    ensures report.expenses == LinesOf(chart, {Expense, ContraRevenue}, AbsNet(entries, from, to))
    ensures report.totalRevenue == Total(chart, OfTypes({Revenue}, CreditNet(entries, from, to)))
    ensures report.totalExpenses == Total(chart, OfTypes({Expense, ContraRevenue}, AbsNet(entries, from, to)))
    ensures report.netIncome == NetIncome(chart, entries, from, to)
  {
    var totalRevenue, totalExpenses := 0, 0;
    var revenue: seq<ReportLine>, expenses: seq<ReportLine> := [], [];
    for k := 0 to |chart|
      invariant revenue == LinesOf(chart[..k], {Revenue}, AbsNet(entries, from, to))
      invariant expenses == LinesOf(chart[..k], {Expense, ContraRevenue}, AbsNet(entries, from, to))
      invariant totalRevenue == Total(chart[..k], OfTypes({Revenue}, CreditNet(entries, from, to)))
      invariant totalExpenses == Total(chart[..k], OfTypes({Expense, ContraRevenue}, AbsNet(entries, from, to)))
    {
      assert chart[..k + 1][..k] == chart[..k];
      if chart[k].accountType in {Revenue, Expense, ContraRevenue} {
        var net := -DebitNet(entries, Some(from), to, chart[k]);
        var line := ReportLine(chart[k], Abs(net));
        if chart[k].accountType == Revenue {
          totalRevenue := totalRevenue + net;
          revenue := revenue + [line];
        } else {
          totalExpenses := totalExpenses + Abs(net);
          expenses := expenses + [line];
        }
      }
    }
    assert chart[..|chart|] == chart;
    report := IncomeStatementReport(revenue, expenses, totalRevenue, totalExpenses, totalRevenue - totalExpenses);
  }

  function NetIncome(chart: seq<Account>, entries: seq<Entry>, from: int, to: int): int {
    Total(chart, OfTypes({Revenue}, CreditNet(entries, from, to)))
    - Total(chart, OfTypes({Expense, ContraRevenue}, AbsNet(entries, from, to)))
  }

  /**
   Periods add up: what an account nets to in a period is what it nets to in the
   two parts of it; and from nothing but its rows up to a date less those before.
   */
  lemma PeriodsAddUp(entries: seq<Entry>, from: int, mid: int, to: int, a: Account)
    requires from <= mid <= to
    ensures DebitNet(entries, Some(from), to, a)
         == DebitNet(entries, Some(from), mid, a) + DebitNet(entries, Some(mid + 1), to, a)
    ensures DebitNet(entries, Some(from), to, a) == DebitNet(entries, None, to, a) - DebitNet(entries, None, from - 1, a)
  {
    TotalSplit(entries, Only(a.id, SignedIn(Some(from), to)), Only(a.id, SignedIn(Some(from), mid)),
               Only(a.id, SignedIn(Some(mid + 1), to)));
    TotalSplit(entries, Only(a.id, SignedIn(None, to)), Only(a.id, SignedIn(Some(from), to)),
               Only(a.id, SignedIn(None, from - 1)));
  }

  // ---- The reports agree -----------------------------------------------------

  /** `from` is at or before the first effective date. */
  ghost predicate FromTheBeginning(entries: seq<Entry>, from: int) {
    forall e :: e in entries ==> from <= e.effectiveDate
  }

  /** What an account contributes to the gap between the two reports. */
  function GapWeight(entries: seq<Entry>, asOf: int): Account -> int {
    (a: Account) =>
      var net := DebitNet(entries, None, asOf, a);
      match a.accountType
      case ContraAsset => -2 * net
      case Expense => Abs(net) - net
      case ContraRevenue => Abs(net) - net
      case _ => 0
  }

  lemma PeriodIsWhole(entries: seq<Entry>, from: int, asOf: int, a: Account)
    requires FromTheBeginning(entries, from)
    ensures DebitNet(entries, Some(from), asOf, a) == DebitNet(entries, None, asOf, a)
  {
    TotalEqual(entries, Only(a.id, SignedIn(Some(from), asOf)), Only(a.id, SignedIn(None, asOf)));
  }

  /** Account by account, sheet minus income minus gap is the debit net. */
  lemma {:induction false} GapByAccount(chart: seq<Account>, entries: seq<Entry>, from: int, asOf: int)
    requires FromTheBeginning(entries, from)
    ensures SheetDiscrepancy(chart, entries, asOf) - NetIncome(chart, entries, from, asOf)
         == Total(chart, GapWeight(entries, asOf)) + Total(chart, RowSum(entries, SignedIn(None, asOf)))
  {
    if |chart| > 0 {
      GapByAccount(chart[..|chart| - 1], entries, from, asOf);
      PeriodIsWhole(entries, from, asOf, chart[|chart| - 1]);
    }
  }

  /**
   On a balanced ledger the two reports differ by exactly twice the credit net of
   the contra-assets plus twice the credit net of the credit-net expense rows.
   */
  lemma ReportsDifferBy(chart: seq<Account>, entries: seq<Entry>, from: int, asOf: int)
    requires DistinctIds(chart) && Covered(chart, entries) && FromTheBeginning(entries, from)
    requires Total(entries, SignedIn(None, asOf)) == 0
    ensures SheetDiscrepancy(chart, entries, asOf)
         == NetIncome(chart, entries, from, asOf) + Total(chart, GapWeight(entries, asOf))
  {
    RowsAddUp(chart, entries, SignedIn(None, asOf));
    GapByAccount(chart, entries, from, asOf);
  }

  /**
   Without contra-asset accounts, the balance sheet's discrepancy is the net
   income since the beginning exactly if every expense and contra-revenue
   account is debit-net.
   */
  lemma ReportsAgreeIff(chart: seq<Account>, entries: seq<Entry>, from: int, asOf: int)
    requires DistinctIds(chart) && Covered(chart, entries) && FromTheBeginning(entries, from)
    requires Total(entries, SignedIn(None, asOf)) == 0
    requires forall a :: a in chart ==> a.accountType != ContraAsset
    ensures SheetDiscrepancy(chart, entries, asOf) == NetIncome(chart, entries, from, asOf)
       <==> forall a :: a in chart && a.accountType in {Expense, ContraRevenue} ==>
              DebitNet(entries, None, asOf, a) >= 0
  {
    hide SheetDiscrepancy, NetIncome, DebitNet, DistinctIds, Covered, FromTheBeginning;
    ReportsDifferBy(chart, entries, from, asOf);
    var gap := GapWeight(entries, asOf);
    forall a | a in chart
      ensures 0 <= gap(a)
      ensures gap(a) == 0 <==> a.accountType !in {Expense, ContraRevenue} || DebitNet(entries, None, asOf, a) >= 0
    {
    }
    if forall a :: a in chart ==> gap(a) == 0 {
      TotalZero(chart, gap);
    } else {
      var a :| a in chart && gap(a) != 0;
      var k :| 0 <= k < |chart| && chart[k] == a;
      TotalAtLeast(chart, gap, k);
    }
  }
}
