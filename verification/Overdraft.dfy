/**
 No overdraft, over every interleaving (docs/architecture/ADR-002-concurrency-strategy.md,
 docs/incident-responses/incident-010-concurrent-double-spend.md).
 */
module Overdraft {
  import opened Money
  import opened Sums
  import opened LockKeys
  import opened Ledger
  import opened Reversals
  import opened Engine

  ghost predicate NoCredit(lines: seq<Line>, account: Id) {
    forall l :: l in lines && l.account == account ==> l.entryType == Debit
  }

  ghost predicate OneLine(lines: seq<Line>, account: Id) {
    forall j, k :: 0 <= j < k < |lines| ==> lines[j].account != account || lines[k].account != account
  }

  ghost predicate LinesIn(lines: seq<Line>, account: Id, currency: string) {
    forall l :: l in lines && l.account == account ==> l.currency == currency
  }

  ghost predicate OffLines(lines: seq<Line>, account: Id) {
    forall l :: l in lines ==> l.account != account
  }

  ghost predicate OffRows(rows: seq<Entry>, account: Id) {
    forall e :: e in rows ==> e.account != account
  }

  /** A posting that credits the account names it in checkBalanceOn and has one line on it. */
  ghost predicate PostingGuarded(request: Request, account: Id, currency: string)
    requires request.Posting?
  {
    && LinesIn(request.lines, account, currency)
    && (NoCredit(request.lines, account)
        || (account in request.checkBalanceOn && OneLine(request.lines, account)))
  }

  /** What a reversal or refund would post from these rows does not credit the account. */
  ghost predicate ReversalGuarded(sys: System, db: Database, request: Request, account: Id, currency: string)
    requires !request.Posting?
  {
    var plan := Planned(sys, db, request);
    plan.Ok? ==> NoCredit(plan.value.lines, account) && LinesIn(plan.value.lines, account, currency)
  }

  /** The rows that a posting stores. */
  function RowsOf(request: Request): Database
    requires request.Posting?
  {
    Database(StoredAll(request.journalId, request.effectiveDate, request.referenceType, request.referenceId,
                       request.lines), [])
  }

  /**
   What callers have to respect for the account. Postings that credit it are
   checked; reversals and refunds do not credit it, given the rows from before
   the run or those a posting of the run writes. A reversal that is itself
   reversed in the run is one of the `quiet` ones, which stay off the account.
   */
  ghost predicate AllGuarded(sys: System, start: Database, account: Id, currency: string, quiet: set<Id>) {
    && (forall i :: 0 <= i < |sys.requests| ==>
          RequestGuarded(sys, start, sys.requests[i], account, currency, quiet))
    && (forall i, j :: 0 <= i < |sys.requests| && 0 <= j < |sys.requests| ==>
          ReversalOfGuarded(sys, sys.requests[i], sys.requests[j], account, currency, quiet))
  }

  ghost predicate RequestGuarded(sys: System, start: Database, request: Request, account: Id, currency: string,
                                 quiet: set<Id>)
  {
    if request.Posting? then PostingGuarded(request, account, currency)
    else
      && ReversalGuarded(sys, start, request, account, currency)
      && (request.reversalId in quiet ==> OffRows(OriginalsOf(start.entries, request.original), account))
      && (request.PartialRefund? ==> PostedOnce(sys, start, request.original))
  }

  /** `request` reverses what `other` posts in the run. */
  ghost predicate ReversalOfGuarded(sys: System, request: Request, other: Request, account: Id, currency: string,
                                    quiet: set<Id>)
  {
    !request.Posting? && ReferenceId(other) == request.original ==>
      if other.Posting?
      then && ReversalGuarded(sys, RowsOf(other), request, account, currency)
           && (request.reversalId in quiet ==> OffLines(other.lines, account))
      else other.reversalId in quiet
  }

  // ---- The invariant ---------------------------------------------------------

  /** The posting has passed its balance check on the account and still holds its lock. */
  ghost predicate Cleared(request: Request, tx: Tx, account: Id) {
    && request.Posting? && PastLocking(tx)
    && (if tx.phase.CheckingBalance?
        then tx.phase.n <= |request.checkBalanceOn| && account in request.checkBalanceOn[..tx.phase.n]
        else account in request.checkBalanceOn)
  }

  ghost predicate Covered(entries: seq<Entry>, lines: seq<Line>, account: Id) {
    match FirstOn(lines, account)
    case None => true
    case Some(line) => line.amount <= Balance(entries, account) as real
  }

  /** What holds of one request: it can afford the line it was cleared for. */
  ghost predicate RequestOk(request: Request, tx: Tx, entries: seq<Entry>, account: Id, currency: string, quiet: set<Id>) {
    && (Cleared(request, tx, account) ==> Covered(entries, request.lines, account))
    && (!request.Posting? && InTransaction(tx) ==> PlanOk(request, tx.plan.lines, account, currency, quiet))
  }

  ghost predicate PlanOk(request: Request, lines: seq<Line>, account: Id, currency: string, quiet: set<Id>)
    requires !request.Posting?
  {
    && NoCredit(lines, account) && LinesIn(lines, account, currency)
    && (request.reversalId in quiet ==> OffLines(lines, account))
  }

  /** What the reversal would plan now is still safe. */
  ghost predicate ReversalOk(sys: System, db: Database, request: Request, account: Id, currency: string, quiet: set<Id>) {
    !request.Posting? ==>
      && ReversalGuarded(sys, db, request, account, currency)
      && (request.reversalId in quiet ==> OffRows(OriginalsOf(db.entries, request.original), account))
  }

  ghost predicate Solvent(sys: System, s: State, account: Id, currency: string, quiet: set<Id>) {
    && Sound(sys, s)
    && SingleCurrency(s.db.entries, account, currency)
    && 0 <= Balance(s.db.entries, account)
    && (forall i :: 0 <= i < |s.txs| ==> ReversalOk(sys, s.db, sys.requests[i], account, currency, quiet))
    && (forall i :: 0 <= i < |s.txs| ==>
          RequestOk(sys.requests[i], s.txs[i], s.db.entries, account, currency, quiet))
  }

  ghost predicate AllTracked(sys: System, start: Database, s: State) {
    forall i :: 0 <= i < |sys.requests| && !sys.requests[i].Posting? ==>
      Tracked(sys, start, s, sys.requests[i].original)
  }

  // ---- What a commit does to the balance -------------------------------------

  lemma {:induction false} DebitsOnlyAdd(request: Request, tx: Tx, lines: seq<Line>, account: Id)
    requires NoCredit(lines, account) && AllPositive(lines)
    ensures 0 <= Total(NewEntries(request, tx, lines), OnAccount(account))
  {
    var entries := NewEntries(request, tx, lines);
    forall e | e in entries ensures 0 <= OnAccount(account)(e) {
      var k :| 0 <= k < |entries| && entries[k] == e;
      assert lines[k] in lines;
    }
    TotalNonNegative(entries, OnAccount(account));
  }

  lemma NoLineNoChange(request: Request, tx: Tx, lines: seq<Line>, account: Id)
    requires forall k :: 0 <= k < |lines| ==> lines[k].account != account
    ensures Total(NewEntries(request, tx, lines), OnAccount(account)) == 0
  {
    var entries := NewEntries(request, tx, lines);
    forall e | e in entries ensures OnAccount(account)(e) == 0 {
      var k :| 0 <= k < |entries| && entries[k] == e;
    }
    TotalZero(entries, OnAccount(account));
  }

  lemma OneLineOfTail(lines: seq<Line>, account: Id)
    requires OneLine(lines, account) && |lines| > 0
    ensures OneLine(lines[1..], account)
    ensures lines[0].account == account ==> forall k :: 0 <= k < |lines[1..]| ==> lines[1..][k].account != account
  {
    forall j, k | 0 <= j < k < |lines[1..]|
      ensures lines[1..][j].account != account || lines[1..][k].account != account
    {
      assert lines[j + 1].account != account || lines[k + 1].account != account;
    }
  }

  lemma HeadAndTail(request: Request, tx: Tx, lines: seq<Line>, account: Id)
    requires |lines| > 0
    ensures Total(NewEntries(request, tx, lines), OnAccount(account))
         == OnAccount(account)(NewEntry(request, tx, lines[0])) + Total(NewEntries(request, tx, lines[1..]), OnAccount(account))
  {
    var entries := NewEntries(request, tx, lines);
    assert entries[1..] == NewEntries(request, tx, lines[1..]);
    TotalHead(entries, OnAccount(account));
  }

  /** A journal with one line on the account takes at most that line's rounded amount. */
  lemma {:induction false} OneLineTakesItsAmount(request: Request, tx: Tx, lines: seq<Line>, account: Id)
    requires OneLine(lines, account) && AllPositive(lines)
    ensures
      var delta := Total(NewEntries(request, tx, lines), OnAccount(account));
      match FirstOn(lines, account)
      case None => delta == 0
      case Some(line) => -RoundHalfUp(line.amount) <= delta
  {
    hide OneLine, NewEntries;
    if |lines| == 0 {
      NoLineNoChange(request, tx, lines, account);
    } else {
      HeadAndTail(request, tx, lines, account);
      OneLineOfTail(lines, account);
      if lines[0].account == account {
        NoLineNoChange(request, tx, lines[1..], account);
      } else {
        OneLineTakesItsAmount(request, tx, lines[1..], account);
      }
    }
  }

  /** The committing request: it keeps the account non-negative, and if it can credit it, it was cleared. */
  lemma CommitKeepsBalance(sys: System, start: Database, s: State, i: nat, account: Id, currency: string, quiet: set<Id>)
    requires Solvent(sys, s, account, currency, quiet) && AllGuarded(sys, start, account, currency, quiet)
    requires i < |s.txs| && s.txs[i].phase.Committing?
    ensures
      var entries' := s.db.entries + s.txs[i].inserted;
      && 0 <= Balance(entries', account)
      && (Balance(s.db.entries, account) <= Balance(entries', account) || Cleared(sys.requests[i], s.txs[i], account))
  {
    hide ReversalOk, ReversalGuarded, ReversalOfGuarded, OriginalsOf, PostedOnce;
    var request, tx := sys.requests[i], s.txs[i];
    var entries := s.db.entries;
    TotalConcat(entries, tx.inserted, OnAccount(account));
    assert TxOk(request, tx) && RequestOk(request, tx, entries, account, currency, quiet);
    assert RequestGuarded(sys, start, request, account, currency, quiet);
    if NoCredit(tx.plan.lines, account) {
      DebitsOnlyAdd(request, tx, tx.plan.lines, account);
    } else {
      OneLineTakesItsAmount(request, tx, tx.plan.lines, account);
      assert Cleared(request, tx, account);
      match FirstOn(request.lines, account)
      case None =>
      case Some(line) => RoundStaysBelow(line.amount, Balance(entries, account));
    }
  }

  lemma CommitKeepsCurrency(sys: System, start: Database, s: State, i: nat, account: Id, currency: string, quiet: set<Id>)
    requires Solvent(sys, s, account, currency, quiet) && AllGuarded(sys, start, account, currency, quiet)
    requires i < |s.txs| && s.txs[i].phase.Committing?
    ensures SingleCurrency(s.db.entries + s.txs[i].inserted, account, currency)
  {
    hide Balance, OriginalsOf, NoCredit, OneLine, Covered, Cleared, LocksExclusive, RowsExclusive, RoundHalfUp, Balanced,
      AllPositive, NewEntries, ReversalOk, ReversalGuarded, ReversalOfGuarded, PostedOnce;
    var request, tx := sys.requests[i], s.txs[i];
    assert TxOk(request, tx) && RequestOk(request, tx, s.db.entries, account, currency, quiet);
    assert RequestGuarded(sys, start, request, account, currency, quiet);
    RowsIn(request, tx, tx.plan.lines, account, currency);
  }

  // ---- Reversals of what the run itself posts --------------------------------

  lemma MirrorOfBoth(rows: seq<Entry>, more: seq<Entry>)
    ensures Mirror(rows + more) == Mirror(rows) + Mirror(more)
  {
  }

  lemma MirrorOff(rows: seq<Entry>, account: Id)
    requires OffRows(rows, account)
    ensures OffLines(Mirror(rows), account)
  {
    forall l | l in Mirror(rows) ensures l.account != account {
      var k :| 0 <= k < |rows| && Mirror(rows)[k] == l;
      assert rows[k] in rows;
    }
  }

  /** A plan stays on the accounts of the rows it is made from. */
  lemma PlanOff(sys: System, db: Database, request: Request, account: Id)
    requires !request.Posting? && OffRows(OriginalsOf(db.entries, request.original), account)
    ensures Planned(sys, db, request).Ok? ==> OffLines(Planned(sys, db, request).value.lines, account)
  {
    hide Mirror, RefundLines, FeeRefund, DeriveOriginalAmount;
    var rows := OriginalsOf(db.entries, request.original);
    if request.FullReversal? {
      MirrorOff(rows, account);
    } else if |rows| >= 2 {
      RefundOff(rows, request.refundAmount,
                FeeRefund(request.refundAmount, DeriveOriginalAmount(rows, sys.platformCash),
                          request.originalFee, request.policy), account);
    }
  }

  lemma RefundOff(originals: seq<Entry>, refundAmount: real, feeRefund: real, account: Id)
    requires |originals| >= 2 && OffRows(originals, account)
    ensures OffLines(RefundLines(originals, refundAmount, feeRefund), account)
  {
    hide RefundLines;
    RefundStaysOnTheOriginals(originals, refundAmount, feeRefund);
  }

  lemma OffIsGuarded(sys: System, db: Database, request: Request, account: Id, currency: string)
    requires !request.Posting? && OffRows(OriginalsOf(db.entries, request.original), account)
    ensures ReversalGuarded(sys, db, request, account, currency)
  {
    hide Planned;
    PlanOff(sys, db, request, account);
  }

  /** A full reversal of more rows mirrors both parts. */
  lemma MirrorGuarded(sys: System, db: Database, more: Database, db': Database, request: Request,
                      account: Id, currency: string)
    requires request.FullReversal?
    requires ReversalGuarded(sys, db, request, account, currency)
    requires ReversalGuarded(sys, more, request, account, currency)
    requires OriginalsOf(db'.entries, request.original)
          == OriginalsOf(db.entries, request.original) + OriginalsOf(more.entries, request.original)
    ensures ReversalGuarded(sys, db', request, account, currency)
  {
    hide OriginalsOf, Mirror, DeriveOriginalAmount;
    var a, b := OriginalsOf(db.entries, request.original), OriginalsOf(more.entries, request.original);
    MirrorOfBoth(a, b);
    assert a == [] ==> a + b == b;
    assert b == [] ==> a + b == a;
  }

  /** What a posting inserts is what it was known to store. */
  lemma InsertedIsKnown(request: Request, tx: Tx)
    requires request.Posting? && TxOk(request, tx) && tx.phase.Committing?
    ensures tx.inserted == RowsOf(request).entries
  {
  }

  lemma InsertedOff(request: Request, tx: Tx, account: Id)
    requires TxOk(request, tx) && tx.phase.Committing? && OffLines(tx.plan.lines, account)
    ensures OffRows(tx.inserted, account)
  {
    forall e | e in tx.inserted ensures e.account != account {
      var k :| 0 <= k < |tx.inserted| && tx.inserted[k] == e;
      assert tx.plan.lines[k] in tx.plan.lines;
    }
  }

  /** A commit keeps every reversal safe, whether or not it posts what the reversal is about. */
  lemma CommitKeepsReversals(sys: System, start: Database, s: State, i: nat, r: nat,
                             account: Id, currency: string, quiet: set<Id>)
    requires Solvent(sys, s, account, currency, quiet) && AllGuarded(sys, start, account, currency, quiet)
    requires AllTracked(sys, start, s)
    requires i < |s.txs| && s.txs[i].phase.Committing? && r < |s.txs|
    ensures ReversalOk(sys, AdvanceDb(s.db, s.txs[i]), sys.requests[r], account, currency, quiet)
  {
    hide OriginalsOf, Planned, TxOk, LocksExclusive, RowsExclusive, ReversalGuarded, SingleCurrency, Balance, PostedOnce,
      OffRows, OffLines, RowsOf, Cleared, Covered, Tracked;
    var request, other, tx := sys.requests[r], sys.requests[i], s.txs[i];
    if !request.Posting? {
      var original := request.original;
      var db' := AdvanceDb(s.db, tx);
      assert ReversalOk(sys, s.db, request, account, currency, quiet);
      CommitAddsOriginals(sys, s, i, original);
      if ReferenceId(other) != original {
        assert OriginalsOf(s.db.entries, original) + [] == OriginalsOf(s.db.entries, original);
        SameOriginalsSameGuard(sys, s.db, db', request, account, currency);
      } else {
        assert TxOk(other, tx);
        AddedIsGuarded(sys, start, s, i, r, account, currency, quiet);
        var added := Database(tx.inserted, []);
        InsertedAreOriginals(other, tx);
        if request.FullReversal? {
          MirrorGuarded(sys, s.db, added, db', request, account, currency);
        } else {
          assert RequestGuarded(sys, start, request, account, currency, quiet);
          OriginalsSettle(sys, start, s, i, original);
          SameOriginalsSameGuard(sys, added, db', request, account, currency);
        }
        OffBoth(OriginalsOf(s.db.entries, original), tx.inserted, account);
      }
    }
  }

  lemma OffBoth(rows: seq<Entry>, more: seq<Entry>, account: Id)
    ensures OffRows(rows, account) && OffRows(more, account) ==> OffRows(rows + more, account)
  {
  }

  lemma InsertedAreOriginals(request: Request, tx: Tx)
    requires TxOk(request, tx) && tx.phase.Committing?
    ensures OriginalsOf(tx.inserted, ReferenceId(request)) == tx.inserted
  {
    InsertedUnder(request, tx);
    AllOrNone(tx.inserted, ReferenceId(request), ReferenceId(request));
  }

  lemma SameOriginalsSameGuard(sys: System, db: Database, db': Database, request: Request, account: Id, currency: string)
    requires !request.Posting?
    requires OriginalsOf(db.entries, request.original) == OriginalsOf(db'.entries, request.original)
    ensures ReversalGuarded(sys, db, request, account, currency) == ReversalGuarded(sys, db', request, account, currency)
  {
    hide Planned;
    PlannedByOriginals(sys, db, db', request);
  }

  /** The rows a request adds under a reversed id are safe to reverse. */
  lemma AddedIsGuarded(sys: System, start: Database, s: State, i: nat, r: nat,
                       account: Id, currency: string, quiet: set<Id>)
    requires Solvent(sys, s, account, currency, quiet) && AllGuarded(sys, start, account, currency, quiet)
    requires i < |s.txs| && s.txs[i].phase.Committing? && r < |s.txs| && !sys.requests[r].Posting?
    requires ReferenceId(sys.requests[i]) == sys.requests[r].original
    ensures ReversalGuarded(sys, Database(s.txs[i].inserted, []), sys.requests[r], account, currency)
    ensures sys.requests[r].reversalId in quiet ==> OffRows(s.txs[i].inserted, account)
  {
    hide OriginalsOf, Planned, LocksExclusive, RowsExclusive, ReversalGuarded, SingleCurrency, Balance, PostedOnce,
      OffRows, OffLines, RowsOf, Cleared, Covered, ReversalOk;
    var request, other, tx := sys.requests[r], sys.requests[i], s.txs[i];
    assert TxOk(other, tx) && RequestOk(other, tx, s.db.entries, account, currency, quiet);
    assert ReversalOfGuarded(sys, request, other, account, currency, quiet);
    if other.Posting? {
      InsertedIsKnown(other, tx);
      PlainDatabase(other);
      if request.reversalId in quiet {
        InsertedOff(other, tx, account);
      }
    } else {
      InsertedOff(other, tx, account);
      InsertedAreOriginals(other, tx);
      OffIsGuarded(sys, Database(tx.inserted, []), request, account, currency);
    }
  }

  lemma PlainDatabase(request: Request)
    requires request.Posting?
    ensures RowsOf(request) == Database(RowsOf(request).entries, [])
  {
  }

  lemma RowsIn(request: Request, tx: Tx, lines: seq<Line>, account: Id, currency: string)
    requires LinesIn(lines, account, currency)
    ensures SingleCurrency(NewEntries(request, tx, lines), account, currency)
  {
    var entries := NewEntries(request, tx, lines);
    forall e | e in entries && e.account == account ensures e.currency == currency {
      var k :| 0 <= k < |entries| && entries[k] == e;
      assert lines[k] in lines;
    }
  }

  // ---- Steps -----------------------------------------------------------------

  /** Only the balance check clears a request, and it reads the balance it clears. */
  lemma StepClears(sys: System, s: State, i: nat, row: nat, account: Id, currency: string)
    requires Sound(sys, s) && i < |s.txs| && sys.requests[i].Posting?
    requires SingleCurrency(s.db.entries, account, currency)
    requires Cleared(sys.requests[i], AdvanceTx(sys, s.db, s.now, sys.requests[i], s.txs[i], row), account)
    ensures Cleared(sys.requests[i], s.txs[i], account) || Covered(s.db.entries, sys.requests[i].lines, account)
  {
    hide Begin, KeysToLock, TooLarge, WindowExceeded, AlreadyReversed, FullyReversed,
      DeriveOriginalAmount, OriginalsOf, OverLimit, Duplicate, NewReversal, NewEntry, DeriveBalance, Balance, FirstOn;
    var request, tx := sys.requests[i], s.txs[i];
    BeginLeavesTheLocks(sys, s.db, request, tx);
    assert TxOk(request, tx);
    if tx.phase.CheckingBalance? && tx.phase.n < |request.checkBalanceOn| {
      var n := tx.phase.n;
      assert request.checkBalanceOn[..n + 1] == request.checkBalanceOn[..n] + [request.checkBalanceOn[n]];
      DerivedIsBalance(s.db.entries, account, currency);
    } else if tx.phase.CheckingBalance? {
      assert request.checkBalanceOn[..tx.phase.n] == request.checkBalanceOn;
    }
  }

  /** A reversal's lines are planned once, before its transaction, from the original's rows. */
  lemma PlansAreGuarded(sys: System, s: State, i: nat, row: nat, account: Id, currency: string, quiet: set<Id>)
    requires Solvent(sys, s, account, currency, quiet)
    requires i < |s.txs| && !sys.requests[i].Posting?
    ensures RequestOk(sys.requests[i], AdvanceTx(sys, s.db, s.now, sys.requests[i], s.txs[i], row),
                      s.db.entries, account, currency, quiet)
  {
    hide AdvanceTx, Planned, OriginalsOf, Covered, OffRows, OffLines;
    var request, tx := sys.requests[i], s.txs[i];
    assert RequestOk(request, tx, s.db.entries, account, currency, quiet);
    if tx.phase.Starting? {
      assert ReversalOk(sys, s.db, request, account, currency, quiet);
      BeginPlans(sys, s.db, request, tx);
      AdvanceFromStart(sys, s.db, s.now, request, tx, row);
      if request.reversalId in quiet {
        PlanOff(sys, s.db, request, account);
      }
    } else {
      PlanIsKept(sys, s.db, s.now, request, tx, row);
    }
  }

  lemma RefundStaysOnTheOriginals(originals: seq<Entry>, refundAmount: real, feeRefund: real)
    requires |originals| >= 2
    ensures forall l :: l in RefundLines(originals, refundAmount, feeRefund) ==>
              exists e :: e in originals && e.account == l.account
  {
    hide IndexOfLargest, RoundHalfUp, FirstCreditNotOn;
    var k := IndexOfLargest(originals);
    var rest := originals[..k] + originals[k + 1..];
    var m := IndexOfLargest(rest);
    var wallet, merchant := originals[k], rest[m];
    assert merchant == originals[if m < k then m else m + 1];
    assert wallet in originals && merchant in originals;
    CreditIsAnOriginal(originals, wallet.account);
    var fee := FirstCreditNotOn(originals, wallet.account);
    forall l | l in RefundLines(originals, refundAmount, feeRefund)
      ensures exists e :: e in originals && e.account == l.account
    {
      assert l.account == merchant.account || l.account == wallet.account || (fee.Some? && l.account == fee.value.account);
    }
  }

  lemma {:induction false} CreditIsAnOriginal(originals: seq<Entry>, wallet: Id)
    ensures FirstCreditNotOn(originals, wallet).Some? ==> FirstCreditNotOn(originals, wallet).value in originals
  {
    if |originals| > 0 && FirstCreditNotOn(originals, wallet) != Some(originals[0]) {
      CreditIsAnOriginal(originals[1..], wallet);
    }
  }

  /** Whoever else is cleared on the account is not the one that commits a credit on it. */
  lemma OnlyOneCleared(sys: System, s: State, i: nat, j: nat, account: Id)
    requires Sound(sys, s) && i < |s.txs| && j < |s.txs|
    requires Cleared(sys.requests[i], s.txs[i], account) && Cleared(sys.requests[j], s.txs[j], account)
    ensures i == j
  {
    assert account in LockIds(sys.requests[i]) && account in LockIds(sys.requests[j]);
    LockedTogether(sys, s, i, j, account);
  }

  lemma AdvanceKeepsSolvent(sys: System, start: Database, s: State, i: nat, row: nat, account: Id, currency: string,
      quiet: set<Id>)
    requires Solvent(sys, s, account, currency, quiet)
    requires AllGuarded(sys, start, account, currency, quiet)
    requires AllTracked(sys, start, s)
    requires i < |s.txs| && Enabled(sys, s, i) && Sound(sys, AdvanceState(sys, s, i, row))
    ensures Solvent(sys, AdvanceState(sys, s, i, row), account, currency, quiet)
  {
    hide AdvanceTx, TxOk, LocksExclusive, RowsExclusive, AllGuarded, SingleCurrency, Balance, OriginalsOf, Covered,
      Cleared, ReversalOk, AllTracked;
    var s' := AdvanceState(sys, s, i, row);
    assert |s.txs| == |sys.requests|;
    if s.txs[i].phase.Committing? {
      CommitKeepsBalance(sys, start, s, i, account, currency, quiet);
      CommitKeepsCurrency(sys, start, s, i, account, currency, quiet);
    }
    forall j | 0 <= j < |s.txs| ensures ReversalOk(sys, s'.db, sys.requests[j], account, currency, quiet) {
      assert ReversalOk(sys, s.db, sys.requests[j], account, currency, quiet);
      if s.txs[i].phase.Committing? {
        CommitKeepsReversals(sys, start, s, i, j, account, currency, quiet);
      }
    }
    forall j | 0 <= j < |s.txs|
      ensures RequestOk(sys.requests[j], s'.txs[j], s'.db.entries, account, currency, quiet)
    {
      assert RequestOk(sys.requests[j], s.txs[j], s.db.entries, account, currency, quiet);
      if j == i {
        MoverStaysOk(sys, start, s, i, row, account, currency, quiet);
      } else {
        OthersStayOk(sys, start, s, i, j, account, currency, quiet);
      }
    }
  }

  lemma MoverStaysOk(sys: System, start: Database, s: State, i: nat, row: nat, account: Id, currency: string,
      quiet: set<Id>)
    requires Solvent(sys, s, account, currency, quiet) && AllGuarded(sys, start, account, currency, quiet)
    requires i < |s.txs|
    ensures
      var s' := AdvanceState(sys, s, i, row);
      RequestOk(sys.requests[i], s'.txs[i], s'.db.entries, account, currency, quiet)
  {
    hide ReversalOk, AllGuarded, Balance, SingleCurrency, OriginalsOf, Covered, PlanOk;
    var request, tx := sys.requests[i], s.txs[i];
    if tx.phase.Committing? {
      assert Finished(AdvanceTx(sys, s.db, s.now, request, tx, row));
    } else if request.Posting? {
      hide AdvanceTx;
      assert RequestOk(request, tx, s.db.entries, account, currency, quiet);
      if Cleared(request, AdvanceTx(sys, s.db, s.now, request, tx, row), account) {
        StepClears(sys, s, i, row, account, currency);
      }
    } else {
      PlansAreGuarded(sys, s, i, row, account, currency, quiet);
    }
  }

  lemma OthersStayOk(sys: System, start: Database, s: State, i: nat, j: nat, account: Id, currency: string,
      quiet: set<Id>)
    requires Solvent(sys, s, account, currency, quiet) && AllGuarded(sys, start, account, currency, quiet)
    requires i < |s.txs| && j < |s.txs| && i != j
    ensures RequestOk(sys.requests[j], s.txs[j], AdvanceDb(s.db, s.txs[i]).entries, account, currency, quiet)
  {
    hide AllGuarded, SingleCurrency, Balance, OriginalsOf, Cleared, FirstOn, TxOk, LocksExclusive, ReversalOk;
    assert RequestOk(sys.requests[j], s.txs[j], s.db.entries, account, currency, quiet);
    if s.txs[i].phase.Committing? && Cleared(sys.requests[j], s.txs[j], account) {
      CommitKeepsBalance(sys, start, s, i, account, currency, quiet);
      if Cleared(sys.requests[i], s.txs[i], account) {
        OnlyOneCleared(sys, s, i, j, account);
      }
    }
  }

  lemma NextKeepsSolvent(sys: System, start: Database, s: State, e: Event, s': State, account: Id, currency: string,
      quiet: set<Id>)
    requires Solvent(sys, s, account, currency, quiet)
    requires AllGuarded(sys, start, account, currency, quiet)
    requires AllTracked(sys, start, s) && Next(sys, s, e, s')
    ensures Solvent(sys, s', account, currency, quiet)
  {
    hide TxOk, LocksExclusive, RowsExclusive, AllGuarded, SingleCurrency, Balance, OriginalsOf, Covered, AdvanceState,
      ReversalOk, AllTracked;
    assert |s.txs| == |sys.requests|;
    NextIsSound(sys, s, e, s');
    match e
    case Advance(i, row) => AdvanceKeepsSolvent(sys, start, s, i, row, account, currency, quiet);
    case Conflict(i) => assert RequestOk(sys.requests[i], s.txs[i], s.db.entries, account, currency, quiet);
    case Abort(i) => assert RequestOk(sys.requests[i], s.txs[i], s.db.entries, account, currency, quiet);
    case Tick(_) =>
  }

  lemma AllRunsTrack(sys: System, states: seq<State>, k: nat)
    requires IsRun(sys, states) && k < |states|
    ensures AllTracked(sys, states[0].db, states[k])
  {
    hide Tracked, IsRun;
    forall i | 0 <= i < |sys.requests| && !sys.requests[i].Posting?
      ensures Tracked(sys, states[0].db, states[k], sys.requests[i].original)
    {
      RunTracks(sys, states, k, sys.requests[i].original);
    }
  }

  lemma InitiallySolvent(sys: System, s: State, account: Id, currency: string, quiet: set<Id>)
    requires Initial(sys, s) && Sound(sys, s) && AllGuarded(sys, s.db, account, currency, quiet)
    requires SingleCurrency(s.db.entries, account, currency) && 0 <= Balance(s.db.entries, account)
    ensures Solvent(sys, s, account, currency, quiet)
  {
    hide SingleCurrency, Balance, OriginalsOf, ReversalGuarded, PostedOnce, PostingGuarded, ReversalOfGuarded, Sound;
    SoundCounts(sys, s);
    forall i | 0 <= i < |s.txs|
      ensures ReversalOk(sys, s.db, sys.requests[i], account, currency, quiet)
      ensures RequestOk(sys.requests[i], s.txs[i], s.db.entries, account, currency, quiet)
    {
      assert RequestGuarded(sys, s.db, sys.requests[i], account, currency, quiet);
      assert s.txs[i] == Fresh;
    }
  }

  lemma {:induction false} RunIsSolvent(sys: System, states: seq<State>, k: nat, account: Id, currency: string,
      quiet: set<Id>)
    requires IsRun(sys, states) && k < |states|
    requires AllGuarded(sys, states[0].db, account, currency, quiet)
    requires SingleCurrency(states[0].db.entries, account, currency) && 0 <= Balance(states[0].db.entries, account)
    ensures Solvent(sys, states[k], account, currency, quiet)
  {
    hide OriginalsOf, Tracked;
    if k == 0 {
      InitialIsSound(sys, states[0]);
      InitiallySolvent(sys, states[0], account, currency, quiet);
    } else {
      AllRunsTrack(sys, states, k - 1);
      RunIsSolvent(sys, states, k - 1, account, currency, quiet);
      assert Follows(sys, states[k - 1], states[k - 1 + 1]);
      var e :| Next(sys, states[k - 1], e, states[k]);
      NextKeepsSolvent(sys, states[0].db, states[k - 1], e, states[k], account, currency, quiet);
    }
  }

  /**
   An account that starts non-negative is non-negative in every committed state
   of every run, and what deriveBalance reports is that balance.
   */
  lemma NeverOverdrawn(sys: System, states: seq<State>, account: Id, currency: string,
      quiet: set<Id>)
    requires IsRun(sys, states)
    requires AllGuarded(sys, states[0].db, account, currency, quiet)
    requires SingleCurrency(states[0].db.entries, account, currency) && 0 <= Balance(states[0].db.entries, account)
    ensures forall k :: 0 <= k < |states| ==>
              0 <= Balance(states[k].db.entries, account) == DeriveBalance(states[k].db.entries, account)
  {
    forall k | 0 <= k < |states|
      ensures 0 <= Balance(states[k].db.entries, account) == DeriveBalance(states[k].db.entries, account)
    {
      RunIsSolvent(sys, states, k, account, currency, quiet);
      DerivedIsBalance(states[k].db.entries, account, currency);
    }
  }

  // ---- When the check is enough ----------------------------------------------

  function Ceiling(x: real): (n: int)
    ensures x <= n as real < x + 1.0
  {
    -((-x).Floor)
  }

  /** What the stored journal takes from the account, debits counted against credits. */
  function Taken(lines: seq<Line>, account: Id): int {
    -Balance(StoredAll("", 0, P2pTransfer, "", lines), account)
  }

  /** If the check lets the journal through on this ledger, the account is not overdrawn by it. */
  ghost predicate StaysSolvent(entries: seq<Entry>, lines: seq<Line>, account: Id) {
    !Insufficient(entries, lines, account) ==>
      0 <= Balance(entries + StoredAll("", 0, P2pTransfer, "", lines), account)
  }

  /** The check passes exactly on balances of at least the first line's amount, rounded up. */
  lemma CheckReads(entries: seq<Entry>, lines: seq<Line>, account: Id, currency: string)
    requires SingleCurrency(entries, account, currency) && FirstOn(lines, account).Some?
    ensures !Insufficient(entries, lines, account) <==>
            Ceiling(FirstOn(lines, account).value.amount) <= Balance(entries, account)
  {
    hide Balance, DeriveBalance, FirstOn, SingleCurrency;
    DerivedIsBalance(entries, account, currency);
  }

  lemma PoorestLedger(account: Id, currency: string, balance: nat) returns (entries: seq<Entry>)
    ensures SingleCurrency(entries, account, currency) && Balance(entries, account) == balance
  {
    var e := Entry("", account, Debit, balance, currency, 0, P2pTransfer, "");
    TotalSingle(e, OnAccount(account));
    entries := [e];
  }

  /**
   The balance check looks only at the first line on the account. It protects
   the account on every single-currency ledger exactly if the journal takes from
   it, in stored amounts, at most the first line's amount rounded up.
   */
  lemma CheckSufficesIff(lines: seq<Line>, account: Id, currency: string)
    requires AllPositive(lines) && FirstOn(lines, account).Some?
    ensures (forall entries :: SingleCurrency(entries, account, currency) ==> StaysSolvent(entries, lines, account))
       <==> Taken(lines, account) <= Ceiling(FirstOn(lines, account).value.amount)
  {
    hide FirstOn, StoredAll, Insufficient, SingleCurrency, Ceiling;
    var rows := StoredAll("", 0, P2pTransfer, "", lines);
    var least := Ceiling(FirstOn(lines, account).value.amount);
    assert FirstOn(lines, account).value.amount > 0.0;
    forall entries | SingleCurrency(entries, account, currency)
      ensures Balance(entries + rows, account) == Balance(entries, account) - Taken(lines, account)
      ensures !Insufficient(entries, lines, account) <==> least <= Balance(entries, account)
    {
      TotalConcat(entries, rows, OnAccount(account));
      CheckReads(entries, lines, account, currency);
    }
    if Taken(lines, account) > least {
      var poorest := PoorestLedger(account, currency, least);
      assert !StaysSolvent(poorest, lines, account);
    }
  }

  /**
   The balance check looks only at the first line on an account, so a journal
   with two lines on it can overdraw it: one tick is there, six are taken.
   */
  lemma TwoLinesDefeatTheCheck(entries: seq<Entry>, account: Id, other: Id, currency: string)
    requires account != other && SingleCurrency(entries, account, currency) && Balance(entries, account) == 1
    ensures
      var lines := [Line(account, Credit, 1.0, currency, ""), Line(account, Credit, 5.0, currency, ""),
                    Line(other, Debit, 6.0, currency, "")];
      && Accepted(lines) && !Insufficient(entries, lines, account)
      && Balance(entries + StoredAll("", 0, P2pTransfer, "", lines), account) == -5
  {
    var x, y, z := Line(account, Credit, 1.0, currency, ""), Line(account, Credit, 5.0, currency, ""),
                   Line(other, Debit, 6.0, currency, "");
    var lines, none: seq<Line> := [x, y, z], [];
    assert lines == none + [x] + [y] + [z];
    OneMoreLine(none, x, currency);
    OneMoreLine(none + [x], y, currency);
    OneMoreLine(none + [x] + [y], z, currency);
    DerivedIsBalance(entries, account, currency);
    assert Accepted(lines) && !Insufficient(entries, lines, account);
    hide *;
    SixTicksAreTaken(x, y, z, account);
    TotalConcat(entries, StoredAll("", 0, P2pTransfer, "", lines), OnAccount(account));
    assert Balance(entries + StoredAll("", 0, P2pTransfer, "", lines), account)
        == Balance(entries, account) + Balance(StoredAll("", 0, P2pTransfer, "", lines), account);
  }

  lemma SixTicksAreTaken(x: Line, y: Line, z: Line, account: Id)
    requires x.account == account && y.account == account && z.account != account
    requires x.entryType == Credit && y.entryType == Credit && x.amount == 1.0 && y.amount == 5.0
    ensures Balance(StoredAll("", 0, P2pTransfer, "", [x, y, z]), account) == -6
  {
    hide RoundHalfUp, StoredAll;
    var none: seq<Line> := [];
    RoundWhole(1);
    RoundWhole(5);
    OneMoreRow("", 0, P2pTransfer, "", none, x, account);
    OneMoreRow("", 0, P2pTransfer, "", none + [x], y, account);
    OneMoreRow("", 0, P2pTransfer, "", none + [x] + [y], z, account);
    assert none + [x] + [y] + [z] == [x, y, z];
  }
}
