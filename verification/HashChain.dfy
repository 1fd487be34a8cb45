/**
 The hash chain and its verifier (src/ledger/hash-chain.service.ts).

 SHA-256 and the ISO text of a date are parameters; `Trusted` states what is
 assumed of them.
 */
module HashChain {
  import opened Money
  import opened Ledger

  /** sha is the hex digest of a text, iso the text of an effective date. */
  datatype Hashing = Hashing(sha: string -> string, iso: int -> string, genesis: string)

  /** A row of ledger_entries with the columns that take part in the chain. */
  datatype Row = Row(
    id: Id, entry: Entry, createdBy: string, narrative: string, postedAt: nat,
    hash: string, previousHash: string)

  predicate PipeFree(s: string) {
    '|' !in s
  }

  ghost predicate Trusted(h: Hashing) {
    && (forall x, y :: h.sha(x) == h.sha(y) ==> x == y)
    && (forall x :: h.sha(x) != h.genesis && PipeFree(h.sha(x)))
    && PipeFree(h.genesis)
    && (forall s, t :: h.iso(s) == h.iso(t) ==> s == t)
    && (forall t :: PipeFree(h.iso(t)))
  }

  // ---- Decimal text of an amount: toFixed(4) ---------------------------------

  function Digit(d: nat): char
    requires d < 10
  {
    '0' + d as char
  }

  function Digits(n: nat): (s: string)
    ensures |s| > 0
    ensures forall c :: c in s ==> '0' <= c <= '9'
  {
    if n < 10 then [Digit(n)] else Digits(n / 10) + [Digit(n % 10)]
  }

  function Fraction(f: nat): (s: string)
    requires f < 10000
    ensures |s| == 4
    ensures forall c :: c in s ==> '0' <= c <= '9'
  {
    var tens := f / 10;
    var hundreds := tens / 10;
    [Digit(hundreds / 10), Digit(hundreds % 10), Digit(tens % 10), Digit(f % 10)]
  }

  function Unsigned4(ticks: nat): string {
    Digits(ticks / 10000) + "." + Fraction(ticks % 10000)
  }

  function Fixed4(amount: int): string {
    if amount < 0 then "-" + Unsigned4(-amount) else Unsigned4(amount)
  }

  lemma {:induction false} DigitsInjective(m: nat, n: nat)
    requires Digits(m) == Digits(n)
    ensures m == n
  {
    var s, t := Digits(m), Digits(n);
    assert s[|s| - 1] == t[|t| - 1];
    if m >= 10 && n >= 10 {
      assert s[..|s| - 1] == Digits(m / 10) && t[..|t| - 1] == Digits(n / 10);
      DigitsInjective(m / 10, n / 10);
    }
  }

  lemma DigitInjective(d: nat, e: nat)
    requires d < 10 && e < 10 && Digit(d) == Digit(e)
    ensures d == e
  {
    assert Digit(d) as int == '0' as int + d && Digit(e) as int == '0' as int + e;
  }

  lemma FractionInjective(f: nat, g: nat)
    requires f < 10000 && g < 10000 && Fraction(f) == Fraction(g)
    ensures f == g
  {
    var s, t := Fraction(f), Fraction(g);
    assert s[0] == t[0] && s[1] == t[1] && s[2] == t[2] && s[3] == t[3];
    DigitInjective(f / 10 / 10 / 10, g / 10 / 10 / 10);
    DigitInjective(f / 10 / 10 % 10, g / 10 / 10 % 10);
    DigitInjective(f / 10 % 10, g / 10 % 10);
    DigitInjective(f % 10, g % 10);
  }

  lemma Unsigned4Injective(m: nat, n: nat)
    requires Unsigned4(m) == Unsigned4(n)
    ensures m == n
  {
    hide Digits, Fraction;
    var s, t := Unsigned4(m), Unsigned4(n);
    var cut := |s| - 5;
    assert Digits(m / 10000) == s[..cut] && Digits(n / 10000) == t[..cut];
    assert Fraction(m % 10000) == s[cut + 1..] && Fraction(n % 10000) == t[cut + 1..];
    DigitsInjective(m / 10000, n / 10000);
    FractionInjective(m % 10000, n % 10000);
  }

  lemma StartsWithADigit(m: nat)
    ensures |Unsigned4(m)| > 0 && '0' <= Unsigned4(m)[0] <= '9'
  {
    var digits := Digits(m / 10000);
    assert digits[0] in digits && Unsigned4(m)[0] == digits[0];
  }

  lemma Fixed4Injective(a: int, b: int)
    requires Fixed4(a) == Fixed4(b)
    ensures a == b
  {
    hide Unsigned4;
    StartsWithADigit(if a < 0 then -a else a);
    StartsWithADigit(if b < 0 then -b else b);
    if a < 0 {
      assert Unsigned4(-a) == Fixed4(a)[1..] && Unsigned4(-b) == Fixed4(b)[1..];
      Unsigned4Injective(-a, -b);
    } else {
      Unsigned4Injective(a, b);
    }
  }

  lemma Fixed4IsPlain(amount: int)
    ensures PipeFree(Fixed4(amount))
  {
  }

  // ---- Reading the text back -------------------------------------------------

  /** The number a string of digits writes. */
  function Read(s: string): int {
    if |s| == 0 then 0 else 10 * Read(s[..|s| - 1]) + (s[|s| - 1] as int - '0' as int)
  }

  lemma {:induction false} DigitsRead(n: nat)
    ensures Read(Digits(n)) == n
    ensures n > 0 ==> Digits(n)[0] != '0'
  {
    if n >= 10 {
      DigitsRead(n / 10);
      assert Digits(n)[..|Digits(n)| - 1] == Digits(n / 10);
    } else {
      assert Digits(n)[..0] == [];
    }
  }

  lemma FractionReads(s: string, f: nat)
    requires f < 10000
    ensures Read(s + Fraction(f)) == 10000 * Read(s) + f
  {
    var t := Fraction(f);
    OneMoreDigit(s, t[0]);
    OneMoreDigit(s + [t[0]], t[1]);
    OneMoreDigit(s + [t[0]] + [t[1]], t[2]);
    OneMoreDigit(s + [t[0]] + [t[1]] + [t[2]], t[3]);
    assert s + t == s + [t[0]] + [t[1]] + [t[2]] + [t[3]];
  }

  lemma OneMoreDigit(s: string, c: char)
    ensures Read(s + [c]) == 10 * Read(s) + (c as int - '0' as int)
  {
    assert (s + [c])[..|s|] == s;
  }

  /** The text of an amount is its sign, its whole part without leading zeros, a point and four decimals. */
  lemma Fixed4Reads(amount: int)
    ensures exists whole, decimals ::
              && Fixed4(amount) == (if amount < 0 then "-" else "") + whole + "." + decimals
              && |decimals| == 4 && |whole| > 0 && (forall c :: c in whole + decimals ==> '0' <= c <= '9')
              && (whole[0] == '0' ==> |whole| == 1)
              && Read(whole + decimals) == if amount < 0 then -amount else amount
  {
    hide Digits, Fraction, Read;
    var ticks: nat := if amount < 0 then -amount else amount;
    DigitsRead(ticks / 10000);
    FractionReads(Digits(ticks / 10000), ticks % 10000);
    ZeroIsOneDigit();
    SignedText(amount, ticks);
  }

  lemma SignedText(amount: int, ticks: nat)
    requires ticks == if amount < 0 then -amount else amount
    ensures Fixed4(amount) == (if amount < 0 then "-" else "") + Digits(ticks / 10000) + "." + Fraction(ticks % 10000)
  {
    hide Digits, Fraction;
    var whole, decimals := Digits(ticks / 10000), Fraction(ticks % 10000);
    assert "" + whole + "." + decimals == whole + "." + decimals;
    assert "-" + (whole + "." + decimals) == "-" + whole + "." + decimals;
  }

  lemma ZeroIsOneDigit()
    ensures Digits(0) == "0"
  {
  }

  // ---- The hash input --------------------------------------------------------

  function EntryTypeName(t: EntryType): string {
    if t == Debit then "DEBIT" else "CREDIT"
  }

  function TransactionTypeName(t: TransactionType): string {
    match t
    case CustomerDepositBank => "CUSTOMER_DEPOSIT_BANK"
    case CustomerDepositCard => "CUSTOMER_DEPOSIT_CARD"
    case CustomerWithdrawalBank => "CUSTOMER_WITHDRAWAL_BANK"
    case P2pTransfer => "P2P_TRANSFER"
    case MerchantPaymentQr => "MERCHANT_PAYMENT_QR"
    case MerchantPaymentOnline => "MERCHANT_PAYMENT_ONLINE"
    case BillPayment => "BILL_PAYMENT"
    case InterestAccrual => "INTEREST_ACCRUAL"
    case InterestPayout => "INTEREST_PAYOUT"
    case FeeDeductionMonthly => "FEE_DEDUCTION_MONTHLY"
    case CashbackCredit => "CASHBACK_CREDIT"
    case PromotionalCredit => "PROMOTIONAL_CREDIT"
    case LoanDisbursement => "LOAN_DISBURSEMENT"
    case LoanEmiPayment => "LOAN_EMI_PAYMENT"
    case FxConversion => "FX_CONVERSION"
    case RefundFull => "REFUND_FULL"
    case RefundPartial => "REFUND_PARTIAL"
    case Chargeback => "CHARGEBACK"
    case RewardRedemption => "REWARD_REDEMPTION"
    case AccountClosureSweep => "ACCOUNT_CLOSURE_SWEEP"
    case NipTransfer => "NIP_TRANSFER"
    case UssdTransfer => "USSD_TRANSFER"
  }

  lemma TypeNamesDiffer(a: TransactionType, b: TransactionType)
    requires TransactionTypeName(a) == TransactionTypeName(b)
    ensures a == b
  {
    var s, t := TransactionTypeName(a), TransactionTypeName(b);
    assert |s| == |t| && s[0] == t[0];
    if |s| == 21 {
      assert s[17] == t[17];
    }
  }

  lemma DepositNamesArePlain(t: TransactionType)
    requires t.CustomerDepositBank? || t.CustomerDepositCard? || t.CustomerWithdrawalBank?
          || t.P2pTransfer? || t.MerchantPaymentQr? || t.MerchantPaymentOnline?
    ensures PipeFree(TransactionTypeName(t))
  {
  }

  lemma AccrualNamesArePlain(t: TransactionType)
    requires t.BillPayment? || t.InterestAccrual? || t.InterestPayout?
          || t.FeeDeductionMonthly? || t.CashbackCredit? || t.PromotionalCredit?
    ensures PipeFree(TransactionTypeName(t))
  {
  }

  lemma LoanNamesArePlain(t: TransactionType)
    requires t.LoanDisbursement? || t.LoanEmiPayment? || t.FxConversion?
          || t.RefundFull? || t.RefundPartial?
    ensures PipeFree(TransactionTypeName(t))
  {
  }

  lemma OtherNamesArePlain(t: TransactionType)
    requires t.Chargeback? || t.RewardRedemption? || t.AccountClosureSweep?
          || t.NipTransfer? || t.UssdTransfer?
    ensures PipeFree(TransactionTypeName(t))
  {
  }

  lemma TypeNamesArePlain(t: TransactionType)
    ensures PipeFree(TransactionTypeName(t))
  {
    hide TransactionTypeName, PipeFree;
    match t
    case CustomerDepositBank => DepositNamesArePlain(t);
    case CustomerDepositCard => DepositNamesArePlain(t);
    case CustomerWithdrawalBank => DepositNamesArePlain(t);
    case P2pTransfer => DepositNamesArePlain(t);
    case MerchantPaymentQr => DepositNamesArePlain(t);
    case MerchantPaymentOnline => DepositNamesArePlain(t);
    case BillPayment => AccrualNamesArePlain(t);
    case InterestAccrual => AccrualNamesArePlain(t);
    case InterestPayout => AccrualNamesArePlain(t);
    case FeeDeductionMonthly => AccrualNamesArePlain(t);
    case CashbackCredit => AccrualNamesArePlain(t);
    case PromotionalCredit => AccrualNamesArePlain(t);
    case LoanDisbursement => LoanNamesArePlain(t);
    case LoanEmiPayment => LoanNamesArePlain(t);
    case FxConversion => LoanNamesArePlain(t);
    case RefundFull => LoanNamesArePlain(t);
    case RefundPartial => LoanNamesArePlain(t);
    case Chargeback => OtherNamesArePlain(t);
    case RewardRedemption => OtherNamesArePlain(t);
    case AccountClosureSweep => OtherNamesArePlain(t);
    case NipTransfer => OtherNamesArePlain(t);
    case UssdTransfer => OtherNamesArePlain(t);
  }

  /** The ten fields before the narrative. */
  function HeadFields(h: Hashing, row: Row): (fields: seq<string>)
    ensures |fields| == 10
  {
    [row.id, row.entry.journalId, row.entry.account, EntryTypeName(row.entry.entryType), Fixed4(row.entry.amount),
     row.entry.currency, h.iso(row.entry.effectiveDate), row.createdBy,
     TransactionTypeName(row.entry.referenceType), row.entry.referenceId]
  }

  function Join(parts: seq<string>): string
    requires |parts| > 0
  {
    if |parts| == 1 then parts[0] else parts[0] + "|" + Join(parts[1..])
  }

  function HashInput(h: Hashing, row: Row, previousHash: string): string {
    Join(HeadFields(h, row) + [row.narrative, previousHash])
  }

  /** computeHash. */
  function HashOf(h: Hashing, row: Row, previousHash: string): string {
    h.sha(HashInput(h, row, previousHash))
  }

  /** Only the narrative may contain the separator. */
  predicate PlainFields(row: Row) {
    && PipeFree(row.id) && PipeFree(row.entry.journalId) && PipeFree(row.entry.account)
    && PipeFree(row.entry.currency) && PipeFree(row.createdBy) && PipeFree(row.entry.referenceId)
  }

  /** The columns that are hashed, as one value. */
  function Hashed(row: Row): (Id, Entry, string, string) {
    (row.id, row.entry, row.createdBy, row.narrative)
  }

  /** The hash input field by field. */
  lemma InputReads(h: Hashing, row: Row, previousHash: string)
    ensures HashInput(h, row, previousHash)
         == row.id + "|" + (row.entry.journalId + "|" + (row.entry.account + "|" + (EntryTypeName(row.entry.entryType) + "|"
            + (Fixed4(row.entry.amount) + "|" + (row.entry.currency + "|" + (h.iso(row.entry.effectiveDate) + "|"
            + (row.createdBy + "|" + (TransactionTypeName(row.entry.referenceType) + "|" + (row.entry.referenceId + "|"
            + (row.narrative + "|" + previousHash))))))))))
  {
    hide TransactionTypeName, Fixed4, EntryTypeName, Join;
    var tail, e := [row.narrative, previousHash], row.entry;
    var date, kind := h.iso(e.effectiveDate), TransactionTypeName(e.referenceType);
    var five := [e.currency, date, row.createdBy, kind, e.referenceId];
    TwoJoined(row.narrative, previousHash);
    FiveThen(e.currency, date, row.createdBy, kind, e.referenceId, tail);
    FiveThen(row.id, e.journalId, e.account, EntryTypeName(e.entryType), Fixed4(e.amount), five + tail);
    assert HeadFields(h, row) + tail
        == [row.id, e.journalId, e.account, EntryTypeName(e.entryType), Fixed4(e.amount)] + (five + tail);
  }

  lemma TwoJoined(a: string, b: string)
    ensures Join([a, b]) == a + "|" + b
  {
    assert [a, b][1..] == [b];
  }

  lemma JoinFrom(fields: seq<string>, tail: seq<string>, k: nat)
    requires k < |fields| && |tail| > 0
    ensures Join(fields[k..] + tail) == fields[k] + "|" + Join(fields[k + 1..] + tail)
  {
    assert (fields[k..] + tail)[1..] == fields[k + 1..] + tail;
  }

  lemma FiveThen(a: string, b: string, c: string, d: string, e: string, more: seq<string>)
    requires |more| > 0
    ensures Join([a, b, c, d, e] + more) == a + "|" + (b + "|" + (c + "|" + (d + "|" + (e + "|" + Join(more)))))
  {
    hide Join;
    var fields := [a, b, c, d, e];
    JoinFrom(fields, more, 4);
    JoinFrom(fields, more, 3);
    JoinFrom(fields, more, 2);
    JoinFrom(fields, more, 1);
    JoinFrom(fields, more, 0);
    assert fields[5..] + more == more && fields[0..] == fields;
  }

  // ---- The input text determines the fields ----------------------------------

  /** Characters before the first separator. */
  function BeforePipe(s: string): nat {
    if |s| == 0 || s[0] == '|' then 0 else 1 + BeforePipe(s[1..])
  }

  /** Characters after the last separator. */
  function AfterPipe(s: string): nat {
    if |s| == 0 || s[|s| - 1] == '|' then 0 else 1 + AfterPipe(s[..|s| - 1])
  }

  lemma {:induction false} BeforePipeIs(a: string, x: string)
    requires PipeFree(a)
    ensures BeforePipe(a + "|" + x) == |a|
  {
    if |a| > 0 {
      BeforePipeIs(a[1..], x);
      assert (a + "|" + x)[1..] == a[1..] + "|" + x;
    }
  }

  lemma {:induction false} AfterPipeIs(x: string, a: string)
    requires PipeFree(a)
    ensures AfterPipe(x + "|" + a) == |a|
  {
    var s := x + "|" + a;
    if |a| > 0 {
      AfterPipeIs(x, a[..|a| - 1]);
      assert s[..|s| - 1] == x + "|" + a[..|a| - 1];
      assert s[|s| - 1] == a[|a| - 1];
    }
  }

  lemma FirstPipe(a: string, x: string, b: string, y: string)
    requires PipeFree(a) && PipeFree(b) && a + "|" + x == b + "|" + y
    ensures a == b && x == y
  {
    BeforePipeIs(a, x);
    BeforePipeIs(b, y);
    var s, t := a + "|" + x, b + "|" + y;
    assert a == s[..|a|] && b == t[..|b|];
    assert x == s[|a| + 1..] && y == t[|b| + 1..];
  }

  lemma LastPipe(x: string, a: string, y: string, b: string)
    requires PipeFree(a) && PipeFree(b) && x + "|" + a == y + "|" + b
    ensures a == b && x == y
  {
    AfterPipeIs(x, a);
    AfterPipeIs(y, b);
    var s, t := x + "|" + a, y + "|" + b;
    assert x == s[..|x|] && y == t[..|y|];
    assert a == s[|x| + 1..] && b == t[|y| + 1..];
  }

  lemma {:induction false} JoinDetermines(a: seq<string>, u: seq<string>, b: seq<string>, v: seq<string>)
    requires |a| == |b| && |u| > 0 && |v| > 0
    requires forall f :: f in a || f in b ==> PipeFree(f)
    requires Join(a + u) == Join(b + v)
    ensures a == b && Join(u) == Join(v)
  {
    if |a| == 0 {
      assert a + u == u && b + v == v;
    } else {
      assert (a + u)[1..] == a[1..] + u && (b + v)[1..] == b[1..] + v;
      assert a[0] in a && b[0] in b;
      FirstPipe(a[0], Join(a[1..] + u), b[0], Join(b[1..] + v));
      JoinDetermines(a[1..], u, b[1..], v);
      assert a == [a[0]] + a[1..] && b == [b[0]] + b[1..];
    }
  }

  lemma FieldsArePlain(h: Hashing, row: Row)
    requires Trusted(h) && PlainFields(row)
    ensures forall f :: f in HeadFields(h, row) ==> PipeFree(f)
  {
    Fixed4IsPlain(row.entry.amount);
    TypeNamesArePlain(row.entry.referenceType);
  }

  lemma FieldsDetermineRow(h: Hashing, a: Row, b: Row)
    requires Trusted(h) && HeadFields(h, a) == HeadFields(h, b) && a.narrative == b.narrative
    ensures Hashed(a) == Hashed(b)
  {
    var x, y := HeadFields(h, a), HeadFields(h, b);
    assert x[0] == y[0] && x[1] == y[1] && x[2] == y[2] && x[3] == y[3] && x[4] == y[4]
        && x[5] == y[5] && x[6] == y[6] && x[7] == y[7] && x[8] == y[8] && x[9] == y[9];
    Fixed4Injective(a.entry.amount, b.entry.amount);
    TypeNamesDiffer(a.entry.referenceType, b.entry.referenceType);
    assert |EntryTypeName(a.entry.entryType)| == |EntryTypeName(b.entry.entryType)|;
  }

  /** Two rows with the same hash agree on every hashed field and on the hash before them. */
  lemma HashDeterminesRow(h: Hashing, a: Row, p: string, b: Row, q: string)
    requires Trusted(h) && PlainFields(a) && PlainFields(b) && PipeFree(p) && PipeFree(q)
    requires HashOf(h, a, p) == HashOf(h, b, q)
    ensures Hashed(a) == Hashed(b) && p == q
  {
    FieldsArePlain(h, a);
    FieldsArePlain(h, b);
    assert HashInput(h, a, p) == HashInput(h, b, q);
    JoinDetermines(HeadFields(h, a), [a.narrative, p], HeadFields(h, b), [b.narrative, q]);
    assert [a.narrative, p][1..] == [p] && [b.narrative, q][1..] == [q];
    assert Join([a.narrative, p]) == a.narrative + "|" + p && Join([b.narrative, q]) == b.narrative + "|" + q;
    LastPipe(a.narrative, p, b.narrative, q);
    FieldsDetermineRow(h, a, b);
  }

  lemma InputIsJoin(h: Hashing, row: Row, createdBy: string, narrative: string, previousHash: string)
    ensures HashInput(h, row.(createdBy := createdBy, narrative := narrative), previousHash)
         == Join(HeadFields(h, row)[..7]
                 + [createdBy, TransactionTypeName(row.entry.referenceType), row.entry.referenceId, narrative, previousHash])
  {
    hide Join, TransactionTypeName, Fixed4, EntryTypeName;
    var changed := row.(createdBy := createdBy, narrative := narrative);
    assert HeadFields(h, changed) + [narrative, previousHash]
        == HeadFields(h, row)[..7]
           + [createdBy, TransactionTypeName(row.entry.referenceType), row.entry.referenceId, narrative, previousHash];
  }

  /** The part of the hash input from createdBy on, without the previous hash. */
  function InputTail(createdBy: string, kind: string, reference: string, narrative: string): string {
    createdBy + "|" + kind + "|" + reference + "|" + narrative
  }

  /** Of two inputs that differ in createdBy and narrative alone, only these parts can differ. */
  lemma SameInputIff(h: Hashing, row: Row, a: string, x: string, b: string, y: string, previousHash: string)
    ensures
      var t, r := TransactionTypeName(row.entry.referenceType), row.entry.referenceId;
      HashInput(h, row.(createdBy := a, narrative := x), previousHash)
        == HashInput(h, row.(createdBy := b, narrative := y), previousHash)
      <==> InputTail(a, t, r, x) == InputTail(b, t, r, y)
  {
    hide Join, TransactionTypeName, HashInput, HeadFields;
    var t, r := TransactionTypeName(row.entry.referenceType), row.entry.referenceId;
    var u, v := [a, t, r, x, previousHash], [b, t, r, y, previousHash];
    InputIsJoin(h, row, a, x, previousHash);
    InputIsJoin(h, row, b, y, previousHash);
    CommonHead(HeadFields(h, row)[..7], u, v);
    JoinFive(a, t, r, x, previousHash);
    JoinFive(b, t, r, y, previousHash);
    CommonEnd(InputTail(a, t, r, x), InputTail(b, t, r, y), "|" + previousHash);
    assert Join(u) == InputTail(a, t, r, x) + ("|" + previousHash);
    assert Join(v) == InputTail(b, t, r, y) + ("|" + previousHash);
  }

  lemma CommonEnd(s: string, t: string, end: string)
    ensures s + end == t + end <==> s == t
  {
    if s + end == t + end {
      assert |s + end| == |s| + |end| && |t + end| == |t| + |end|;
      assert s == (s + end)[..|s|] && t == (t + end)[..|s|];
    }
  }

  lemma {:induction false} CommonHead(common: seq<string>, u: seq<string>, v: seq<string>)
    requires |u| > 0 && |v| > 0
    ensures Join(common + u) == Join(common + v) <==> Join(u) == Join(v)
  {
    if |common| == 0 {
      assert common + u == u && common + v == v;
    } else {
      assert (common + u)[1..] == common[1..] + u && (common + v)[1..] == common[1..] + v;
      CommonHead(common[1..], u, v);
      var s, t := Join(common[1..] + u), Join(common[1..] + v);
      if common[0] + "|" + s == common[0] + "|" + t {
        assert s == (common[0] + "|" + s)[|common[0]| + 1..] && t == (common[0] + "|" + t)[|common[0]| + 1..];
      }
    }
  }

  /** If createdBy may contain the separator, two different rows can share one hash input. */
  lemma SeparatorInCreatedBy(h: Hashing, row: Row, actor: string, first: string, second: string, previousHash: string)
    ensures
      var t, r := TransactionTypeName(row.entry.referenceType), row.entry.referenceId;
      var a := row.(createdBy := actor, narrative := first + "|" + t + "|" + r + "|" + second);
      var b := row.(createdBy := actor + "|" + t + "|" + r + "|" + first, narrative := second);
      a.createdBy != b.createdBy && HashInput(h, a, previousHash) == HashInput(h, b, previousHash)
  {
    hide HashInput, TransactionTypeName;
    var t, r := TransactionTypeName(row.entry.referenceType), row.entry.referenceId;
    var longer, rest := actor + "|" + t + "|" + r + "|" + first, first + "|" + t + "|" + r + "|" + second;
    assert |actor| < |longer|;
    SameInputIff(h, row, actor, rest, longer, second, previousHash);
    assert InputTail(actor, t, r, rest) == InputTail(longer, t, r, second);
  }

  /** `longer` repeats the shorter creator with the type and reference behind it; the narrative makes up for the rest. */
  predicate Overlaps(shorter: string, x: string, longer: string, y: string, kind: string, reference: string) {
    var head := shorter + "|" + kind + "|" + reference;
    head <= longer && "|" + x == InputTail(longer[|head|..], kind, reference, y)
  }

  /**
   Exactly which pairs of creator and narrative share a hash input, the other
   fields being equal and free of separators: equal pairs, and pairs of which the
   longer creator overlaps the shorter one and its type and reference.
   */
  lemma SharedInputIff(h: Hashing, row: Row, a: string, x: string, b: string, y: string, previousHash: string)
    requires PipeFree(row.entry.referenceId) && row.entry.referenceId != TransactionTypeName(row.entry.referenceType)
    ensures
      var t, r := TransactionTypeName(row.entry.referenceType), row.entry.referenceId;
      HashInput(h, row.(createdBy := a, narrative := x), previousHash)
        == HashInput(h, row.(createdBy := b, narrative := y), previousHash)
      <==> (a == b && x == y) || (|a| < |b| && Overlaps(a, x, b, y, t, r)) || (|b| < |a| && Overlaps(b, y, a, x, t, r))
  {
    hide HashInput, InputTail, Overlaps, TransactionTypeName, PipeFree;
    var t, r := TransactionTypeName(row.entry.referenceType), row.entry.referenceId;
    SameInputIff(h, row, a, x, b, y, previousHash);
    TypeNamesArePlain(row.entry.referenceType);
    if |a| < |b| {
      TailsOverlapIff(a, x, b, y, t, r);
    } else if |b| < |a| {
      TailsOverlapIff(b, y, a, x, t, r);
    } else {
      TailsOfOneLength(a, x, b, y, t, r);
    }
  }

  lemma TailsOfOneLength(a: string, x: string, b: string, y: string, kind: string, reference: string)
    requires |a| == |b|
    ensures InputTail(a, kind, reference, x) == InputTail(b, kind, reference, y) <==> a == b && x == y
  {
    var s, t := InputTail(a, kind, reference, x), InputTail(b, kind, reference, y);
    var n := |a| + |kind| + |reference| + 3;
    assert a == s[..|a|] && b == t[..|a|] && x == s[n..] && y == t[n..];
  }

  lemma TailsOverlapIff(a: string, x: string, b: string, y: string, kind: string, reference: string)
    requires |a| < |b| && PipeFree(kind) && PipeFree(reference) && reference != kind
    ensures InputTail(a, kind, reference, x) == InputTail(b, kind, reference, y) <==> Overlaps(a, x, b, y, kind, reference)
  {
    hide InputTail, PipeFree;
    var head := a + "|" + kind + "|" + reference;
    TailStarts(a, x, kind, reference);
    if |b| < |head| {
      NoPartialOverlap(a, x, b, y, kind, reference);
    } else if head <= b {
      TailShifts(head, b[|head|..], y, kind, reference);
      assert b == head + b[|head|..];
      CommonStart(head, "|" + x, InputTail(b[|head|..], kind, reference, y));
    } else {
      TailStarts(b, y, kind, reference);
      DifferentStarts(head, "|" + x, b, InputTail("", kind, reference, y));
    }
  }

  lemma TailStarts(a: string, x: string, kind: string, reference: string)
    ensures InputTail(a, kind, reference, x) == a + "|" + kind + "|" + reference + ("|" + x)
    ensures InputTail(a, kind, reference, x) == a + InputTail("", kind, reference, x)
  {
    var s := a + "|" + kind + "|" + reference + "|" + x;
    assert s == a + "|" + kind + "|" + reference + ("|" + x);
    assert s == a + ("" + "|" + kind + "|" + reference + "|" + x);
  }

  lemma TailShifts(a: string, b: string, x: string, kind: string, reference: string)
    ensures InputTail(a + b, kind, reference, x) == a + InputTail(b, kind, reference, x)
  {
    assert a + b + "|" + kind + "|" + reference + "|" + x == a + (b + "|" + kind + "|" + reference + "|" + x);
  }

  lemma CommonStart(start: string, s: string, t: string)
    ensures start + s == start + t <==> s == t
  {
    if start + s == start + t {
      assert s == (start + s)[|start|..] && t == (start + t)[|start|..];
    }
  }

  lemma DifferentStarts(p: string, s: string, q: string, t: string)
    requires |p| <= |q| && !(p <= q)
    ensures p + s != q + t
  {
    assert (p + s)[..|p|] == p && (q + t)[..|p|] == q[..|p|];
  }

  /** The separator behind the longer creator cannot fall inside the type or the reference. */
  lemma NoPartialOverlap(a: string, x: string, b: string, y: string, kind: string, reference: string)
    requires |a| < |b| < |a| + |kind| + |reference| + 2
    requires PipeFree(kind) && PipeFree(reference) && reference != kind
    ensures InputTail(a, kind, reference, x) != InputTail(b, kind, reference, y)
  {
    var s, t := InputTail(a, kind, reference, x), InputTail(b, kind, reference, y);
    var d := |b| - |a|;
    assert t[|b|] == '|';
    if d <= |kind| {
      assert s[|b|] == kind[d - 1];
    } else if d == |kind| + 1 {
      assert s[|b|..] == "|" + reference + "|" + x && s[|b|..][1..] == reference + "|" + x;
      assert t[|b|..] == "|" + kind + "|" + (reference + "|" + y);
      assert t[|b|..][1..] == kind + "|" + (reference + "|" + y);
      if s == t {
        FirstPipe(reference, x, kind, reference + "|" + y);
      }
    } else {
      assert s[|b|] == reference[d - |kind| - 2];
    }
  }

  lemma JoinFive(a: string, b: string, c: string, d: string, e: string)
    ensures Join([a, b, c, d, e]) == a + "|" + b + "|" + c + "|" + d + "|" + e
  {
    assert [a, b, c, d, e][1..] == [b, c, d, e];
    assert [b, c, d, e][1..] == [c, d, e];
    assert [c, d, e][1..] == [d, e];
    assert [d, e][1..] == [e];
    calc {
      Join([a, b, c, d, e]);
      a + "|" + Join([b, c, d, e]);
      a + "|" + (b + "|" + Join([c, d, e]));
      a + "|" + (b + "|" + (c + "|" + Join([d, e])));
      a + "|" + (b + "|" + (c + "|" + (d + "|" + e)));
      a + "|" + b + "|" + c + "|" + d + "|" + e;
    }
  }

  // ---- Verification ----------------------------------------------------------

  function LastHash(h: Hashing, rows: seq<Row>): string {
    if |rows| == 0 then h.genesis else rows[|rows| - 1].hash
  }

  predicate Links(h: Hashing, rows: seq<Row>, k: nat)
    requires k < |rows|
  {
    && rows[k].previousHash == LastHash(h, rows[..k])
    && rows[k].hash == HashOf(h, rows[k], rows[k].previousHash)
  }

  ghost predicate ChainValid(h: Hashing, rows: seq<Row>) {
    forall k :: 0 <= k < |rows| ==> Links(h, rows, k)
  }

  datatype Verdict =
    | Intact(totalEntries: nat)
    | BrokenAt(totalEntries: nat, firstBreakAt: Id, brokenHash: string, expectedHash: string)

  /** The first row that breaks the chain is row k, and the report names it. */
  ghost predicate BreaksFirstAt(h: Hashing, rows: seq<Row>, k: nat, verdict: Verdict)
    requires k < |rows|
  {
    && ChainValid(h, rows[..k]) && !Links(h, rows, k)
    && (if rows[k].previousHash != LastHash(h, rows[..k])
        then verdict == BrokenAt(|rows|, rows[k].id, rows[k].previousHash, LastHash(h, rows[..k]))
        else verdict == BrokenAt(|rows|, rows[k].id, rows[k].hash, HashOf(h, rows[k], rows[k].previousHash)))
  }

  method VerifyChain(h: Hashing, rows: seq<Row>) returns (verdict: Verdict)
    ensures verdict.Intact? <==> ChainValid(h, rows)
    ensures verdict.Intact? ==> verdict == Intact(|rows|)
    ensures verdict.BrokenAt? ==> exists k: nat :: k < |rows| && BreaksFirstAt(h, rows, k, verdict)
  {
    var expectedPreviousHash := h.genesis;
    for k := 0 to |rows|
      invariant forall j :: 0 <= j < k ==> Links(h, rows, j)
      invariant expectedPreviousHash == LastHash(h, rows[..k])
    {
      var row := rows[k];
      ghost var front := rows[..k];
      assert ChainValid(h, front) by {
        forall j | 0 <= j < k ensures Links(h, front, j) {
          assert Links(h, rows, j) && front[..j] == rows[..j];
        }
      }
      if row.previousHash != expectedPreviousHash {
        verdict := BrokenAt(|rows|, row.id, row.previousHash, expectedPreviousHash);
        assert BreaksFirstAt(h, rows, k, verdict);
        return;
      }
      var recomputed := HashOf(h, row, row.previousHash);
      if recomputed != row.hash {
        verdict := BrokenAt(|rows|, row.id, row.hash, recomputed);
        assert BreaksFirstAt(h, rows, k, verdict);
        return;
      }
      expectedPreviousHash := row.hash;
    }
    verdict := Intact(|rows|);
  }

  lemma PrefixIsValid(h: Hashing, rows: seq<Row>, n: nat)
    requires ChainValid(h, rows) && n <= |rows|
    ensures ChainValid(h, rows[..n])
  {
    forall k | 0 <= k < n ensures Links(h, rows[..n], k) {
      assert Links(h, rows, k) && rows[..n][..k] == rows[..k];
    }
  }

  /** Extending a valid chain by a row that links keeps it valid. */
  lemma ExtendChain(h: Hashing, rows: seq<Row>, row: Row)
    requires ChainValid(h, rows)
    requires row.previousHash == LastHash(h, rows) && row.hash == HashOf(h, row, row.previousHash)
    ensures ChainValid(h, rows + [row])
  {
    forall k | 0 <= k < |rows| + 1 ensures Links(h, rows + [row], k) {
      if k < |rows| {
        assert Links(h, rows, k) && (rows + [row])[..k] == rows[..k];
      } else {
        assert (rows + [row])[..k] == rows;
      }
    }
  }

  // ---- Tamper evidence -------------------------------------------------------

  lemma HashIsPlain(h: Hashing, rows: seq<Row>)
    requires Trusted(h) && ChainValid(h, rows)
    ensures PipeFree(LastHash(h, rows))
    ensures LastHash(h, rows) == h.genesis <==> |rows| == 0
  {
    if |rows| > 0 {
      assert Links(h, rows, |rows| - 1);
    }
  }

  /**
   Two chains that both verify and end in the same hash have equal length and
   agree row by row on every hashed field: the last hash commits to all rows.
   */
  lemma {:induction false} TamperEvidence(h: Hashing, a: seq<Row>, b: seq<Row>)
    requires Trusted(h) && ChainValid(h, a) && ChainValid(h, b)
    requires forall row :: row in a || row in b ==> PlainFields(row)
    requires LastHash(h, a) == LastHash(h, b)
    ensures |a| == |b|
    ensures forall k :: 0 <= k < |a| ==> Hashed(a[k]) == Hashed(b[k]) && a[k].hash == b[k].hash
  {
    hide HashOf, Hashed, PipeFree;
    HashIsPlain(h, a);
    HashIsPlain(h, b);
    if |a| > 0 {
      var m, n := |a| - 1, |b| - 1;
      assert Links(h, a, m) && Links(h, b, n);
      assert a[m] in a && b[n] in b;
      PrefixIsValid(h, a, m);
      PrefixIsValid(h, b, n);
      HashIsPlain(h, a[..m]);
      HashIsPlain(h, b[..n]);
      HashDeterminesRow(h, a[m], a[m].previousHash, b[n], b[n].previousHash);
      TamperEvidence(h, a[..m], b[..n]);
      forall k | 0 <= k < |a| ensures Hashed(a[k]) == Hashed(b[k]) && a[k].hash == b[k].hash {
        if k < m {
          assert a[..m][k] == a[k] && b[..n][k] == b[k];
        }
      }
    }
  }
}
