/**
 What the engine does with one request when no other one moves
 (src/ledger/ledger.service.ts:85-230, src/reversals/reversals.service.ts:96-435,
 src/database/database.service.ts:165-204): exactly which requests are
 committed, and what the ledger is then. Time may pass on the way, and up to two
 attempts may end in a conflict.
 */
module Outcomes {
  import opened Money
  import opened Sums
  import opened Calendar
  import opened LockKeys
  import opened Ledger
  import opened Reversals
  import opened Undo
  import opened Engine
  import Deadlock

  // ---- Runs in which one request moves ---------------------------------------

  predicate OwnEvent(e: Event, i: nat) {
    match e
    case Advance(j, _) => j == i
    case Conflict(j) => j == i
    case Abort(_) => false
    case Tick(_) => true
  }

  ghost predicate Alone(sys: System, states: seq<State>, events: seq<Event>, i: nat) {
    && |states| == |events| + 1
    && (forall k :: 0 <= k < |states| ==> |states[k].txs| == |sys.requests|)
    && (forall k :: 0 <= k < |events| ==> OwnEvent(events[k], i) && Next(sys, states[k], events[k], states[k + 1]))
  }

  function Conflicts(events: seq<Event>): nat {
    if |events| == 0 then 0
    else Conflicts(events[..|events| - 1]) + (if events[|events| - 1].Conflict? then 1 else 0)
  }

  // ---- What a posting has to meet --------------------------------------------

  /** The first line on the account is covered by the derived balance; without a line there is nothing to cover. */
  ghost predicate CanPay(entries: seq<Entry>, lines: seq<Line>, account: Id) {
    forall k :: IsFirstOn(lines, account, k) ==> lines[k].amount <= DeriveBalance(entries, account) as real
  }

  function SpentOn(account: Id, transactionType: TransactionType, from: int): Entry -> int {
    (e: Entry) =>
      if e.account == account && e.referenceType == transactionType && from <= e.effectiveDate then e.amount else 0
  }

  /** With what was posted on the account since the window started, the amount is within the maximum, if there is one. */
  ghost predicate FitsWindow(entries: seq<Entry>, check: LimitCheck, window: Window, maximum: Option<int>, now: nat) {
    maximum.Some? ==> forall from :: Starts(window, from, now) ==>
      Total(entries, SpentOn(check.account, check.transactionType, from)) as real + check.amount <= maximum.value as real
  }

  ghost predicate FitsDay(limits: Limits, entries: seq<Entry>, check: LimitCheck, now: nat) {
    var key := (check.account, check.transactionType);
    key in limits && limits[key].isActive ==>
      && (limits[key].maxPerTx.Some? ==> check.amount <= limits[key].maxPerTx.value as real)
      && FitsWindow(entries, check, Day, limits[key].maxPerDay, now)
  }

  ghost predicate FitsMonth(limits: Limits, entries: seq<Entry>, check: LimitCheck, now: nat) {
    var key := (check.account, check.transactionType);
    key in limits && limits[key].isActive ==> FitsWindow(entries, check, Month, limits[key].maxPerMonth, now)
  }

  ghost predicate Funded(entries: seq<Entry>, request: Request, n: int)
    requires request.Posting?
  {
    forall m :: 0 <= m < n && m < |request.checkBalanceOn| ==> CanPay(entries, request.lines, request.checkBalanceOn[m])
  }

  ghost predicate WithinLimits(limits: Limits, entries: seq<Entry>, request: Request, n: int, now: nat)
    requires request.Posting?
  {
    forall m :: 0 <= m < n && m < |request.limitChecks| ==>
      FitsDay(limits, entries, request.limitChecks[m], now) && FitsMonth(limits, entries, request.limitChecks[m], now)
  }

  /** Everything the source demands of a posting, at one instant. */
  ghost predicate PostingDue(sys: System, entries: seq<Entry>, request: Request, now: nat)
    requires request.Posting?
  {
    && Accepted(request.lines)
    && Funded(entries, request, |request.checkBalanceOn|)
    && WithinLimits(sys.limits, entries, request, |request.limitChecks|, now)
  }

  // ---- What a reversal has to meet -------------------------------------------

  ghost predicate IsReplay(reversals: seq<Reversal>, request: Request)
    requires !request.Posting?
  {
    exists r :: r in reversals && r.original == request.original && r.idempotencyKey == request.idempotencyKey
  }

  /** A full reversal is due if its mirror can be posted and nothing of the transaction was reversed before. */
  ghost predicate ReversalDue(db: Database, original: Id) {
    var originals := OriginalsOf(db.entries, original);
    && originals != []
    && (forall e :: e in originals ==> e.amount > 0) && Total(originals, SignedAmount()) == 0
    && (forall r :: r in db.reversals ==> r.original != original)
  }

  /** A refund is due if it fits under the amount with what was refunded, no full reversal is stored, and it can be posted. */
  ghost predicate RefundDue(sys: System, db: Database, request: Request)
    requires request.PartialRefund?
  {
    var originals := OriginalsOf(db.entries, request.original);
    var amount := DeriveOriginalAmount(originals, sys.platformCash);
    && |originals| >= 2 && request.refundAmount <= amount as real
    && (forall r :: r in db.reversals && r.original == request.original && r.feePolicy == FullFee ==> r.amount != amount)
    && Total(db.reversals, AmountOf(request.original)) as real + request.refundAmount <= amount as real
    && exists fee :: FeeGivenBack(request.policy, request.refundAmount, amount, request.originalFee, fee)
         && RefundIsPostable(originals, request.refundAmount, fee)
  }

  ghost predicate Due(sys: System, db: Database, request: Request, now: nat) {
    match request
    case Posting(_, _, _, _, _, _, _) => PostingDue(sys, db.entries, request, now)
    case FullReversal(_, original, _, _) => ReversalDue(db, original)
    case PartialRefund(_, _, _, _, _, _, _) => RefundDue(sys, db, request)
  }

  // ---- What is stored when a request commits ---------------------------------

  ghost predicate Stores(sys: System, before: Database, request: Request, date: int, after: Database) {
    match request
    case Posting(journalId, referenceType, referenceId, effectiveDate, lines, _, _) =>
      after == Database(before.entries + StoredAll(journalId, effectiveDate, referenceType, referenceId, lines),
                        before.reversals)
    case FullReversal(journalId, original, reversalId, idempotencyKey) =>
      var originals := OriginalsOf(before.entries, original);
      after == Database(before.entries + StoredMirror(originals, journalId, date, reversalId),
                        before.reversals + [Reversal(original, reversalId, DeriveOriginalAmount(originals, sys.platformCash),
                                                     FullFee, 0, idempotencyKey)])
    case PartialRefund(journalId, original, reversalId, idempotencyKey, refundAmount, policy, originalFee) =>
      var originals := OriginalsOf(before.entries, original);
      exists lines, fee ::
        && FeeGivenBack(policy, refundAmount, DeriveOriginalAmount(originals, sys.platformCash), originalFee, fee)
        && IsRefundJournal(originals, refundAmount, fee, lines)
        && after == Database(before.entries + StoredAll(journalId, date, RefundPartial, reversalId, lines),
                             before.reversals + [Reversal(original, reversalId, RoundHalfUp(refundAmount), policy,
                                                          RoundHalfUp(fee), idempotencyKey)])
  }

  /** Rows of a journal dated by the clock are dated at some moment of the request. */
  ghost predicate StoresBetween(sys: System, before: Database, request: Request, from: nat, until: nat, after: Database) {
    exists date: int :: from <= date <= until && Stores(sys, before, request, date, after)
  }

  // ---- The checking statements, one by one -----------------------------------

  lemma CanPayIff(entries: seq<Entry>, lines: seq<Line>, account: Id)
    ensures CanPay(entries, lines, account) <==> !Insufficient(entries, lines, account)
  {
    hide DeriveBalance, FirstOn;
    if FirstOn(lines, account).Some? {
      var k :| IsFirstOn(lines, account, k) && FirstOn(lines, account).value == lines[k];
      assert forall j :: IsFirstOn(lines, account, j) ==> j == k;
    }
  }

  lemma FitsWindowIff(limits: Limits, entries: seq<Entry>, check: LimitCheck, window: Window, now: nat)
    requires
      var key := (check.account, check.transactionType);
      key in limits && limits[key].isActive
    ensures
      var limit := limits[(check.account, check.transactionType)];
      FitsWindow(entries, check, window, if window.Day? then limit.maxPerDay else limit.maxPerMonth, now)
      <==> !WindowExceeded(limits, entries, check, window, now)
  {
    hide StartOf, Starts;
    var start := StartOf(window, now);
    WindowStartsIff(window, start, now);
    TotalEqual(entries, SpentOn(check.account, check.transactionType, start),
               SpendWeight(check.account, check.transactionType, start));
    forall from | Starts(window, from, now) ensures from == start {
      WindowStartsIff(window, from, now);
    }
  }

  lemma FitsDayIff(limits: Limits, entries: seq<Entry>, check: LimitCheck, now: nat)
    ensures FitsDay(limits, entries, check, now)
       <==> !TooLarge(limits, check) && !WindowExceeded(limits, entries, check, Day, now)
    ensures FitsMonth(limits, entries, check, now) <==> !WindowExceeded(limits, entries, check, Month, now)
  {
    hide StartOf, FitsWindow, PostedSince;
    var key := (check.account, check.transactionType);
    if key in limits && limits[key].isActive {
      FitsWindowIff(limits, entries, check, Day, now);
      FitsWindowIff(limits, entries, check, Month, now);
    }
  }

  /** A limit check that passes passes at every later time too. */
  lemma FitsLater(limits: Limits, entries: seq<Entry>, check: LimitCheck, now: nat, later: nat)
    requires now <= later && forall e :: e in entries ==> 0 <= e.amount
    ensures FitsDay(limits, entries, check, now) ==> FitsDay(limits, entries, check, later)
    ensures FitsMonth(limits, entries, check, now) ==> FitsMonth(limits, entries, check, later)
  {
    hide StartOf, FitsDay, FitsMonth;
    FitsDayIff(limits, entries, check, now);
    FitsDayIff(limits, entries, check, later);
    PostedLater(entries, check, Day, now, later);
    PostedLater(entries, check, Month, now, later);
  }

  lemma PostedLater(entries: seq<Entry>, check: LimitCheck, window: Window, now: nat, later: nat)
    requires now <= later && forall e :: e in entries ==> 0 <= e.amount
    ensures PostedSince(entries, check.account, check.transactionType, StartOf(window, later))
         <= PostedSince(entries, check.account, check.transactionType, StartOf(window, now))
  {
    hide StartOf;
    WindowsMoveForward(window, now, later);
    TotalLe(entries, SpendWeight(check.account, check.transactionType, StartOf(window, later)),
            SpendWeight(check.account, check.transactionType, StartOf(window, now)));
  }

  /** Each checking statement of a posting sends it to Failed exactly if what it checks does not hold. */
  lemma PostingFailsIff(sys: System, db: Database, now: nat, request: Request, tx: Tx, row: nat)
    requires request.Posting? && TxOk(request, tx) && !tx.phase.Failed?
    ensures AdvanceTx(sys, db, now, request, tx, row).phase.Failed? <==>
            match tx.phase
            case Starting => !Accepted(request.lines)
            case CheckingBalance(n) =>
              n < |request.checkBalanceOn| && !CanPay(db.entries, request.lines, request.checkBalanceOn[n])
            case CheckingDay(n) =>
              n < |request.limitChecks| && !FitsDay(sys.limits, db.entries, request.limitChecks[n], now)
            case CheckingMonth(n) => !FitsMonth(sys.limits, db.entries, request.limitChecks[n], now)
            case _ => false
  {
    hide KeysToLock, Insufficient, TooLarge, WindowExceeded, AlreadyReversed, FullyReversed, DeriveOriginalAmount,
      OriginalsOf, OverLimit, Duplicate, NewReversal, NewEntry, NewEntries, Accepted, CanPay, FitsDay, FitsMonth;
    if tx.phase.CheckingBalance? && tx.phase.n < |request.checkBalanceOn| {
      CanPayIff(db.entries, request.lines, request.checkBalanceOn[tx.phase.n]);
    } else if (tx.phase.CheckingDay? || tx.phase.CheckingMonth?) && tx.phase.n < |request.limitChecks| {
      FitsDayIff(sys.limits, db.entries, request.limitChecks[tx.phase.n], now);
    }
  }

  // ---- How far a request has come --------------------------------------------

  ghost predicate PostingStage(sys: System, entries: seq<Entry>, request: Request, tx: Tx, start: nat, now: nat, conflicts: nat)
    requires request.Posting?
  {
    match tx.phase
    case Starting => true
    case Locking(_) => Accepted(request.lines)
    case CheckingBalance(n) => Accepted(request.lines) && Funded(entries, request, n)
    case CheckingDay(n) =>
      && Accepted(request.lines) && Funded(entries, request, |request.checkBalanceOn|)
      && WithinLimits(sys.limits, entries, request, n, now)
    case CheckingMonth(n) =>
      && Accepted(request.lines) && Funded(entries, request, |request.checkBalanceOn|)
      && WithinLimits(sys.limits, entries, request, n, now)
      && n < |request.limitChecks| && FitsDay(sys.limits, entries, request.limitChecks[n], now)
    case CheckingReversals => false
    case CheckingCap => false
    case Recording => false
    case Replayed => false
    case Failed => conflicts >= 3 || !PostingDue(sys, entries, request, start)
    case _ => PostingDue(sys, entries, request, now)
  }

  lemma StageLater(sys: System, entries: seq<Entry>, request: Request, tx: Tx, start: nat, now: nat, later: nat,
                   conflicts: nat)
    requires request.Posting? && now <= later && forall e :: e in entries ==> 0 <= e.amount
    requires PostingStage(sys, entries, request, tx, start, now, conflicts)
    ensures PostingStage(sys, entries, request, tx, start, later, conflicts)
  {
    hide FitsDay, FitsMonth, CanPay, Accepted;
    forall m | 0 <= m < |request.limitChecks| {
      FitsLater(sys.limits, entries, request.limitChecks[m], now, later);
    }
  }

  /** The statement that fails a posting shows that it was not due from the start. */
  lemma NotDue(sys: System, entries: seq<Entry>, request: Request, start: nat, now: nat, m: nat)
    requires request.Posting? && start <= now && forall e :: e in entries ==> 0 <= e.amount
    requires
      || !Accepted(request.lines)
      || (m < |request.checkBalanceOn| && !CanPay(entries, request.lines, request.checkBalanceOn[m]))
      || (m < |request.limitChecks| && !FitsDay(sys.limits, entries, request.limitChecks[m], now))
      || (m < |request.limitChecks| && !FitsMonth(sys.limits, entries, request.limitChecks[m], now))
    ensures !PostingDue(sys, entries, request, start)
  {
    hide FitsDay, FitsMonth, CanPay, Accepted;
    if m < |request.limitChecks| {
      FitsLater(sys.limits, entries, request.limitChecks[m], start, now);
    }
  }

  /** The order of a posting's statements, for those that do not fail. */
  lemma PostingProgram(sys: System, db: Database, now: nat, request: Request, tx: Tx, row: nat)
    requires request.Posting? && TxOk(request, tx) && !Finished(tx)
    ensures
      var phase := AdvanceTx(sys, db, now, request, tx, row).phase;
      phase.Failed? ||
      match tx.phase
      case Starting => phase.Locking?
      case Locking(_) => phase.Locking? || phase == CheckingBalance(0)
      case CheckingBalance(n) =>
        if n < |request.checkBalanceOn| then phase == CheckingBalance(n + 1) else phase == CheckingDay(0)
      case CheckingDay(n) => if n < |request.limitChecks| then phase == CheckingMonth(n) else phase == ReadingHead
      case CheckingMonth(n) => phase == CheckingDay(n + 1)
      case _ => phase.AwaitingRow? || phase.Inserting? || phase.Committing? || phase.Committed?
  {
    hide KeysToLock, Insufficient, TooLarge, WindowExceeded, AlreadyReversed, FullyReversed, DeriveOriginalAmount,
      OriginalsOf, OverLimit, Duplicate, NewReversal, NewEntry, NewEntries, Accepted;
  }

  lemma PostingMovesOn(sys: System, db: Database, start: nat, now: nat, request: Request, tx: Tx, row: nat, conflicts: nat)
    requires request.Posting? && TxOk(request, tx) && start <= now && forall e :: e in db.entries ==> 0 <= e.amount
    requires !Finished(tx) && PostingStage(sys, db.entries, request, tx, start, now, conflicts)
    ensures PostingStage(sys, db.entries, request, AdvanceTx(sys, db, now, request, tx, row), start, now, conflicts)
  {
    hide AdvanceTx, Accepted, CanPay, FitsDay, FitsMonth, NewEntries, NewReversal, Keys;
    var tx' := AdvanceTx(sys, db, now, request, tx, row);
    PostingFailsIff(sys, db, now, request, tx, row);
    PostingProgram(sys, db, now, request, tx, row);
    if tx'.phase.Failed? {
      NotDue(sys, db.entries, request, start, now,
             if tx.phase.CheckingBalance? || tx.phase.CheckingDay? || tx.phase.CheckingMonth? then tx.phase.n else 0);
    }
  }

  // ---- The statements of a reversal ------------------------------------------

  ghost predicate NoFullReversal(sys: System, db: Database, original: Id) {
    forall r :: r in db.reversals && r.original == original && r.feePolicy == FullFee ==>
      r.amount != DeriveOriginalAmount(OriginalsOf(db.entries, original), sys.platformCash)
  }

  /** A full reversal that could be planned is due exactly if it passes its guard and its journal is accepted. */
  lemma ReversalDueIff(sys: System, db: Database, request: Request)
    requires request.FullReversal?
    ensures Planned(sys, db, request).Err? ==> !ReversalDue(db, request.original)
    ensures Planned(sys, db, request).Ok? ==>
              (ReversalDue(db, request.original) <==>
               !AlreadyReversed(db.reversals, request.original) && Accepted(Planned(sys, db, request).value.lines))
  {
    hide OriginalsOf, DeriveOriginalAmount, Accepted, Mirror;
    MirrorAcceptedIff(OriginalsOf(db.entries, request.original));
  }

  /** So is a partial refund. */
  lemma RefundDueIff(sys: System, db: Database, request: Request)
    requires request.PartialRefund?
    ensures Planned(sys, db, request).Err? ==> !RefundDue(sys, db, request)
    ensures Planned(sys, db, request).Ok? ==>
              var plan := Planned(sys, db, request).value;
              && plan.originalAmount
                   == DeriveOriginalAmount(OriginalsOf(db.entries, request.original), sys.platformCash)
              && (RefundDue(sys, db, request) <==>
                    && NoFullReversal(sys, db, request.original)
                    && !OverLimit(db.reversals, request.original, request.refundAmount, plan.originalAmount)
                    && Accepted(plan.lines))
  {
    hide OriginalsOf, DeriveOriginalAmount, Accepted, RefundLines, RefundIsPostable, IsRefundJournal, Total, RoundHalfUp;
    var originals := OriginalsOf(db.entries, request.original);
    RefundPlanIs(db.entries, request.original, sys.platformCash, request.refundAmount, request.policy, request.originalFee);
    var plan := Planned(sys, db, request);
    if plan.Ok? {
      RefundIsPostedIff(originals, request.refundAmount, plan.value.feeRefund);
      assert plan.value.lines == RefundLines(originals, request.refundAmount, plan.value.feeRefund);
    }
  }

  /** Before the transaction begins: not a replay, and planned on the rows there were. */
  ghost predicate Begun(sys: System, before: Database, request: Request, tx: Tx)
    requires !request.Posting?
  {
    !IsReplay(before.reversals, request) && Planned(sys, before, request) == Ok(tx.plan)
  }

  ghost predicate ReversalStage(sys: System, before: Database, request: Request, tx: Tx, start: nat, now: nat, conflicts: nat)
    requires !request.Posting?
  {
    match tx.phase
    case Starting => true
    case Locking(_) => Begun(sys, before, request, tx)
    case CheckingReversals => Begun(sys, before, request, tx)
    case CheckingCap =>
      Begun(sys, before, request, tx) && request.PartialRefund? && NoFullReversal(sys, before, request.original)
    case CheckingBalance(_) => false
    case CheckingDay(_) => false
    case CheckingMonth(_) => false
    case Replayed => IsReplay(before.reversals, request)
    case Failed => !IsReplay(before.reversals, request) && (conflicts >= 3 || !Due(sys, before, request, start))
    case _ => Begun(sys, before, request, tx) && Due(sys, before, request, start) && start <= tx.effectiveDate <= now
  }

  /** Each statement of a reversal sends it to Failed exactly if what it looks at does not allow it. */
  lemma ReversalFailsIff(sys: System, db: Database, now: nat, request: Request, tx: Tx, row: nat)
    requires !request.Posting? && TxOk(request, tx) && !tx.phase.Failed?
    ensures AdvanceTx(sys, db, now, request, tx, row).phase.Failed? <==>
            match tx.phase
            case Starting => !IsReplay(db.reversals, request) && Planned(sys, db, request).Err?
            case CheckingReversals =>
              if request.FullReversal?
              then (exists r :: r in db.reversals && r.original == request.original) || !Accepted(tx.plan.lines)
              else !NoFullReversal(sys, db, request.original)
            case CheckingCap =>
              || Total(db.reversals, AmountOf(request.original)) as real + request.refundAmount > tx.plan.originalAmount as real
              || !Accepted(tx.plan.lines)
            case Recording => IsReplay(db.reversals, request)
            case _ => false
  {
    hide KeysToLock, Insufficient, TooLarge, WindowExceeded, DeriveOriginalAmount, OriginalsOf, NewReversal, NewEntry,
      NewEntries, Accepted, Mirror, RefundLines, FeeRefund, Total;
  }

  lemma ReversalMovesOn(sys: System, db: Database, start: nat, now: nat, request: Request, tx: Tx, row: nat, conflicts: nat)
    requires !request.Posting? && TxOk(request, tx) && start <= now
    requires !Finished(tx) && ReversalStage(sys, db, request, tx, start, now, conflicts)
    ensures ReversalStage(sys, db, request, AdvanceTx(sys, db, now, request, tx, row), start, now, conflicts)
  {
    hide AdvanceTx, Begun, ReversalDue, RefundDue, NoFullReversal, AlreadyReversed, OverLimit, Accepted, Planned,
      OriginalsOf, DeriveOriginalAmount, TxOk;
    if request.FullReversal? {
      ReversalDueIff(sys, db, request);
    } else {
      RefundDueIff(sys, db, request);
    }
    if tx.phase.Starting? {
      BeginsOrReplays(sys, db, start, now, request, tx, row, conflicts);
    } else if tx.phase.CheckingReversals? || tx.phase.CheckingCap? {
      BegunIs(sys, db, request, tx);
      GuardMovesOn(sys, db, start, now, request, tx, row, conflicts);
    } else {
      StatementMovesOn(sys, db, start, now, request, tx, row, conflicts);
    }
  }

  lemma BegunIs(sys: System, db: Database, request: Request, tx: Tx)
    requires !request.Posting? && Begun(sys, db, request, tx)
    ensures Planned(sys, db, request) == Ok(tx.plan)
  {
  }

  lemma GuardMovesOn(sys: System, db: Database, start: nat, now: nat, request: Request, tx: Tx, row: nat, conflicts: nat)
    requires !request.Posting? && TxOk(request, tx) && start <= now && (tx.phase.CheckingReversals? || tx.phase.CheckingCap?)
    requires ReversalStage(sys, db, request, tx, start, now, conflicts)
    requires request.FullReversal? ==>
               (ReversalDue(db, request.original) <==>
                !AlreadyReversed(db.reversals, request.original) && Accepted(tx.plan.lines))
    requires request.PartialRefund? ==>
               (RefundDue(sys, db, request) <==>
                && NoFullReversal(sys, db, request.original)
                && !OverLimit(db.reversals, request.original, request.refundAmount, tx.plan.originalAmount)
                && Accepted(tx.plan.lines))
    ensures ReversalStage(sys, db, request, AdvanceTx(sys, db, now, request, tx, row), start, now, conflicts)
  {
    hide Begin, KeysToLock, Insufficient, TooLarge, WindowExceeded, DeriveOriginalAmount, OriginalsOf,
      NewReversal, NewEntry, NewEntries, Accepted, ReversalDue, RefundDue, Planned, IsReplay, Total;
  }

  predicate Writing(tx: Tx) {
    match tx.phase
    case ReadingHead => true
    case AwaitingRow(_) => true
    case Inserting(_) => true
    case Recording => true
    case Committing => true
    case Committed => true
    case _ => false
  }

  /** Outside the guards a statement only moves on along the program, unless recording finds a replay. */
  lemma NextStatement(sys: System, db: Database, now: nat, request: Request, tx: Tx, row: nat)
    requires !request.Posting? && TxOk(request, tx) && !Finished(tx)
    requires tx.phase.Locking? || Writing(tx)
    ensures
      var tx' := AdvanceTx(sys, db, now, request, tx, row);
      && tx'.plan == tx.plan && tx'.effectiveDate == tx.effectiveDate
      && (tx.phase.Locking? ==> tx'.phase.Locking? || tx'.phase.CheckingReversals?)
      && (Writing(tx) ==> Writing(tx') || (tx'.phase.Failed? && tx.phase.Recording?))
  {
    hide Begin, KeysToLock, Insufficient, TooLarge, WindowExceeded, FullyReversed, AlreadyReversed, OverLimit,
      DeriveOriginalAmount, OriginalsOf, NewReversal, NewEntry, NewEntries, Accepted, Duplicate;
  }

  lemma StatementMovesOn(sys: System, db: Database, start: nat, now: nat, request: Request, tx: Tx, row: nat, conflicts: nat)
    requires !request.Posting? && TxOk(request, tx) && start <= now && !Finished(tx)
    requires !tx.phase.Starting? && !tx.phase.CheckingReversals? && !tx.phase.CheckingCap?
    requires ReversalStage(sys, db, request, tx, start, now, conflicts)
    ensures ReversalStage(sys, db, request, AdvanceTx(sys, db, now, request, tx, row), start, now, conflicts)
  {
    hide AdvanceTx, TxOk, Due, Planned, IsReplay, NoFullReversal, Accepted;
    ReversalFailsIff(sys, db, now, request, tx, row);
    NextStatement(sys, db, now, request, tx, row);
  }

  lemma BeginsOrReplays(sys: System, db: Database, start: nat, now: nat, request: Request, tx: Tx, row: nat, conflicts: nat)
    requires !request.Posting? && tx.phase.Starting?
    requires Planned(sys, db, request).Err? ==> !Due(sys, db, request, start)
    ensures ReversalStage(sys, db, request, AdvanceTx(sys, db, now, request, tx, row), start, now, conflicts)
  {
    hide OriginalsOf, DeriveOriginalAmount, Mirror, RefundLines, FeeRefund, Due;
  }

  // ---- Along the run ---------------------------------------------------------

  ghost predicate Stage(sys: System, before: Database, request: Request, tx: Tx, start: nat, now: nat, conflicts: nat) {
    if request.Posting? then PostingStage(sys, before.entries, request, tx, start, now, conflicts)
    else ReversalStage(sys, before, request, tx, start, now, conflicts)
  }

  /** Where request `i` is, `conflicts` conflicts after state `s0`, in which it had not begun. */
  ghost predicate UnderWay(sys: System, s0: State, s: State, i: nat, conflicts: nat)
    requires i < |s.txs| && |s.txs| == |sys.requests|
  {
    var request, tx := sys.requests[i], s.txs[i];
    && Sound(sys, s) && s0.now <= s.now
    && Stage(sys, s0.db, request, tx, s0.now, s.now, conflicts)
    && (!Finished(tx) ==> tx.attempt == conflicts + 1)
    && (tx.phase.Failed? || conflicts < 3)
    && (if tx.phase.Committed? then StoresBetween(sys, s0.db, request, s0.now, s.now, s.db) else s.db == s0.db)
  }

  lemma StageMovesOn(sys: System, db: Database, start: nat, now: nat, request: Request, tx: Tx, row: nat, conflicts: nat)
    requires TxOk(request, tx) && start <= now && !Finished(tx) && forall e :: e in db.entries ==> 0 <= e.amount
    requires Stage(sys, db, request, tx, start, now, conflicts)
    ensures Stage(sys, db, request, AdvanceTx(sys, db, now, request, tx, row), start, now, conflicts)
  {
    hide AdvanceTx, TxOk, PostingStage, ReversalStage;
    if request.Posting? {
      PostingMovesOn(sys, db, start, now, request, tx, row, conflicts);
    } else {
      ReversalMovesOn(sys, db, start, now, request, tx, row, conflicts);
    }
  }

  /** What a commit stores is what the request calls for. */
  lemma CommitStores(sys: System, before: Database, request: Request, tx: Tx, start: nat, now: nat, conflicts: nat)
    requires TxOk(request, tx) && tx.phase.Committing? && Stage(sys, before, request, tx, start, now, conflicts)
    requires start <= now
    ensures StoresBetween(sys, before, request, start, now, AdvanceDb(before, tx))
  {
    hide Due, Accepted, OriginalsOf, DeriveOriginalAmount, Mirror, RefundLines, PostingDue;
    if request.FullReversal? {
      assert Stores(sys, before, request, tx.effectiveDate, AdvanceDb(before, tx));
    } else if request.PartialRefund? {
      RefundStores(sys, before, request, tx);
    } else {
      assert before.reversals + [] == before.reversals;
      assert Stores(sys, before, request, start, AdvanceDb(before, tx));
    }
  }

  lemma RefundStores(sys: System, before: Database, request: Request, tx: Tx)
    requires request.PartialRefund? && TxOk(request, tx) && tx.phase.Committing? && Begun(sys, before, request, tx)
    ensures Stores(sys, before, request, tx.effectiveDate, AdvanceDb(before, tx))
  {
    hide OriginalsOf, DeriveOriginalAmount, IsRefundJournal, FeeGivenBack, RefundLines, IsReplay, RoundHalfUp, Accepted;
    RefundPlanIs(before.entries, request.original, sys.platformCash, request.refundAmount, request.policy,
                 request.originalFee);
    var originals := OriginalsOf(before.entries, request.original);
    assert tx.plan.refundAmount == request.refundAmount;
    assert IsRefundJournal(originals, request.refundAmount, tx.plan.feeRefund, tx.plan.lines);
  }

  lemma StageRetried(sys: System, before: Database, request: Request, tx: Tx, start: nat, now: nat, conflicts: nat)
    requires Stage(sys, before, request, tx, start, now, conflicts) && InTransaction(tx) && tx.attempt == conflicts + 1
    ensures Stage(sys, before, request, Retry(tx), start, now, conflicts + 1)
    ensures Retry(tx).phase.Failed? <==> conflicts + 1 >= 3
    ensures !Retry(tx).phase.Committed? && (!Finished(Retry(tx)) ==> Retry(tx).attempt == conflicts + 2)
  {
    hide PostingDue, Due, Planned, IsReplay, Accepted, Funded;
    if request.Posting? {
      DueIsAccepted(sys, before.entries, request, now);
    }
  }

  lemma DueIsAccepted(sys: System, entries: seq<Entry>, request: Request, now: nat)
    requires request.Posting?
    ensures PostingDue(sys, entries, request, now) ==> Accepted(request.lines)
  {
  }

  ghost predicate AmountsOk(entries: seq<Entry>) {
    forall e :: e in entries ==> 0 <= e.amount
  }

  lemma AdvanceUnderWay(sys: System, s0: State, s: State, i: nat, row: nat, s': State, conflicts: nat)
    requires |s.txs| == |sys.requests| && i < |s.txs| && UnderWay(sys, s0, s, i, conflicts) && AmountsOk(s0.db.entries)
    requires Next(sys, s, Advance(i, row), s')
    ensures UnderWay(sys, s0, s', i, conflicts)
  {
    hide AdvanceTx, TxOk, LocksExclusive, RowsExclusive, Stage, StoresBetween;
    var request, tx := sys.requests[i], s.txs[i];
    NextIsSound(sys, s, Advance(i, row), s');
    NotFinished(sys, s, i);
    StageMovesOn(sys, s0.db, s0.now, s.now, request, tx, row, conflicts);
    OneStatement(sys, s.db, s.now, request, tx, row);
    if tx.phase.Committing? {
      CommitStores(sys, s0.db, request, tx, s0.now, s.now, conflicts);
    }
  }

  lemma NotFinished(sys: System, s: State, i: nat)
    requires |s.txs| == |sys.requests| && i < |s.txs| && Enabled(sys, s, i)
    ensures !Finished(s.txs[i])
  {
  }

  lemma OneStatement(sys: System, db: Database, now: nat, request: Request, tx: Tx, row: nat)
    requires TxOk(request, tx) && !Finished(tx)
    ensures
      var tx' := AdvanceTx(sys, db, now, request, tx, row);
      && tx'.attempt == tx.attempt && (tx'.phase.Committed? <==> tx.phase.Committing?)
  {
    hide KeysToLock, Insufficient, TooLarge, WindowExceeded, AlreadyReversed, FullyReversed,
      DeriveOriginalAmount, OriginalsOf, OverLimit, Duplicate, NewReversal, NewEntry, Accepted, PlanReversal, PlanRefund;
  }

  lemma ConflictUnderWay(sys: System, s0: State, s: State, i: nat, s': State, conflicts: nat)
    requires |s.txs| == |sys.requests| && i < |s.txs| && UnderWay(sys, s0, s, i, conflicts)
    requires Next(sys, s, Conflict(i), s')
    ensures UnderWay(sys, s0, s', i, conflicts + 1)
  {
    hide TxOk, LocksExclusive, RowsExclusive, Stage, StoresBetween, Retry;
    NextIsSound(sys, s, Conflict(i), s');
    StageRetried(sys, s0.db, sys.requests[i], s.txs[i], s0.now, s.now, conflicts);
  }

  lemma TickUnderWay(sys: System, s0: State, s: State, i: nat, now: nat, s': State, conflicts: nat)
    requires |s.txs| == |sys.requests| && i < |s.txs| && UnderWay(sys, s0, s, i, conflicts) && AmountsOk(s0.db.entries)
    requires Next(sys, s, Tick(now), s')
    ensures UnderWay(sys, s0, s', i, conflicts)
  {
    hide TxOk, LocksExclusive, RowsExclusive, PostingStage, Due, Begun, IsReplay, Stores;
    var request := sys.requests[i];
    NextIsSound(sys, s, Tick(now), s');
    if request.Posting? {
      StageLater(sys, s0.db.entries, request, s.txs[i], s0.now, s.now, now, conflicts);
    }
  }

  lemma {:induction false} AloneUnderWay(sys: System, states: seq<State>, events: seq<Event>, i: nat)
    requires Alone(sys, states, events, i) && i < |sys.requests|
    requires Sound(sys, states[0]) && states[0].txs[i] == Fresh && AmountsOk(states[0].db.entries)
    ensures UnderWay(sys, states[0], states[|events|], i, Conflicts(events))
    decreases |events|
  {
    hide UnderWay, AmountsOk, Sound, Next;
    if |events| == 0 {
      FreshIsUnderWay(sys, states[0], i);
    } else {
      var n := |events| - 1;
      var front := events[..n];
      assert Alone(sys, states[..n + 1], front, i);
      AloneUnderWay(sys, states[..n + 1], front, i);
      var s, s' := states[n], states[n + 1];
      assert OwnEvent(events[n], i) && Next(sys, s, events[n], s');
      match events[n]
      case Advance(_, row) => AdvanceUnderWay(sys, states[0], s, i, row, s', Conflicts(front));
      case Conflict(_) => ConflictUnderWay(sys, states[0], s, i, s', Conflicts(front));
      case Tick(now) => TickUnderWay(sys, states[0], s, i, now, s', Conflicts(front));
      case Abort(_) =>
    }
  }

  lemma FreshIsUnderWay(sys: System, s: State, i: nat)
    requires Sound(sys, s) && i < |s.txs| && s.txs[i] == Fresh
    ensures UnderWay(sys, s, s, i, 0)
  {
    hide TxOk, LocksExclusive, RowsExclusive;
  }

  /**
   How a request ends that began with its run and met fewer than three conflicts,
   while no other request moved: a replay changes nothing; a request that was due
   when it began is committed and stores exactly its rows and its record; one that
   is not due even at the end has failed and changed nothing. For a reversal, or
   if no time passes, that is exactly when it is due.
   */
  lemma AloneOutcome(sys: System, states: seq<State>, events: seq<Event>, i: nat)
    requires Alone(sys, states, events, i) && i < |sys.requests|
    requires Sound(sys, states[0]) && states[0].txs[i] == Fresh && AmountsOk(states[0].db.entries)
    requires Finished(states[|events|].txs[i]) && Conflicts(events) < 3
    ensures
      var s0, s, request := states[0], states[|events|], sys.requests[i];
      var phase := s.txs[i].phase;
      && (phase.Replayed? <==> !request.Posting? && IsReplay(s0.db.reversals, request))
      && (!phase.Replayed? && Due(sys, s0.db, request, s0.now) ==> phase.Committed?)
      && (!phase.Replayed? && !Due(sys, s0.db, request, s.now) ==> phase.Failed?)
      && (phase.Committed? ==> StoresBetween(sys, s0.db, request, s0.now, s.now, s.db))
      && (!phase.Committed? ==> s.db == s0.db)
  {
    hide *;
    AloneUnderWay(sys, states, events, i);
    AloneKeepsCount(sys, states, events, i);
    EndsAsItShould(sys, states[0], states[|events|], i, Conflicts(events));
  }

  lemma AloneKeepsCount(sys: System, states: seq<State>, events: seq<Event>, i: nat)
    requires Alone(sys, states, events, i)
    ensures |states| == |events| + 1 && |states[|events|].txs| == |sys.requests|
  {
  }

  lemma EndsAsItShould(sys: System, s0: State, s: State, i: nat, conflicts: nat)
    requires |s.txs| == |sys.requests| && i < |s.txs| && UnderWay(sys, s0, s, i, conflicts)
    requires Finished(s.txs[i]) && conflicts < 3
    ensures
      var request, phase := sys.requests[i], s.txs[i].phase;
      && (phase.Replayed? <==> !request.Posting? && IsReplay(s0.db.reversals, request))
      && (!phase.Replayed? && Due(sys, s0.db, request, s0.now) ==> phase.Committed?)
      && (!phase.Replayed? && !Due(sys, s0.db, request, s.now) ==> phase.Failed?)
      && (phase.Committed? ==> StoresBetween(sys, s0.db, request, s0.now, s.now, s.db))
      && (!phase.Committed? ==> s.db == s0.db)
  {
    hide Sound, StoresBetween, PostingDue, ReversalDue, RefundDue, Planned, IsReplay;
  }

  /** After a third conflict the request has failed and changed nothing, due or not. */
  lemma ThreeConflictsFail(sys: System, states: seq<State>, events: seq<Event>, i: nat)
    requires Alone(sys, states, events, i) && i < |sys.requests|
    requires Sound(sys, states[0]) && states[0].txs[i] == Fresh && AmountsOk(states[0].db.entries)
    requires Conflicts(events) >= 3
    ensures states[|events|].txs[i].phase.Failed? && states[|events|].db == states[0].db
  {
    hide Alone, Sound, AmountsOk, Stage, StoresBetween;
    AloneUnderWay(sys, states, events, i);
  }

  // ---- There is such a run ---------------------------------------------------

  ghost predicate OthersFinished(s: State, i: nat) {
    forall j :: 0 <= j < |s.txs| && j != i ==> Finished(s.txs[j])
  }

  /** With the others finished nothing blocks the request. */
  lemma NothingBlocks(sys: System, s: State, i: nat)
    requires Sound(sys, s) && i < |s.txs| && OthersFinished(s, i) && !Finished(s.txs[i])
    ensures Enabled(sys, s, i)
  {
    hide Keys;
    forall j, key | 0 <= j < |s.txs| && j != i ensures !Holds(sys.requests[j], s.txs[j], key) {
      assert Finished(s.txs[j]);
    }
    forall j, row | 0 <= j < |s.txs| && j != i ensures s.txs[j].row != Some(row) {
      assert Finished(s.txs[j]) && TxOk(sys.requests[j], s.txs[j]);
    }
  }

  /** From every sound state in which the others are finished the request can finish without conflicts, at once. */
  lemma {:induction false} FinishAlone(sys: System, s: State, i: nat) returns (states: seq<State>, events: seq<Event>)
    requires Sound(sys, s) && i < |s.txs| && OthersFinished(s, i)
    ensures Alone(sys, states, events, i) && states[0] == s
    ensures Finished(states[|events|].txs[i]) && Conflicts(events) == 0 && states[|events|].now == s.now
    decreases if s.txs[i].phase.Starting? then 1 else 0, Deadlock.StatementsLeft(sys.requests[i], s.txs[i])
  {
    hide AdvanceTx, AdvanceDb, TxOk, LocksExclusive, RowsExclusive, Finished, Enabled, Deadlock.StatementsLeft;
    if Finished(s.txs[i]) {
      states, events := [s], [];
    } else {
      NothingBlocks(sys, s, i);
      var e, s' := Advance(i, 0), AdvanceState(sys, s, i, 0);
      assert Next(sys, s, e, s');
      NextIsSound(sys, s, e, s');
      Deadlock.AdvanceUsesAStatement(sys, s.db, s.now, sys.requests[i], s.txs[i], 0);
      var states', events' := FinishAlone(sys, s', i);
      states, events := [s] + states', [e] + events';
      assert forall k :: 0 < k < |events| ==> states[k] == states'[k - 1] && states[k + 1] == states'[k] && events[k] == events'[k - 1];
      ConflictsAfter(e, events');
    }
  }

  lemma {:induction false} ConflictsAfter(e: Event, events: seq<Event>)
    ensures Conflicts([e] + events) == (if e.Conflict? then 1 else 0) + Conflicts(events)
  {
    if |events| > 0 {
      ConflictsAfter(e, events[..|events| - 1]);
      assert ([e] + events)[..|events|] == [e] + events[..|events| - 1];
    }
  }

  /**
   From every sound state in which the others are finished and the request has
   not begun there is a run on which it is committed, with exactly its rows and
   its record added, if and only if it is due and no replay.
   */
  lemma DueIsCommitted(sys: System, s: State, i: nat) returns (states: seq<State>, events: seq<Event>)
    requires Sound(sys, s) && i < |s.txs| && OthersFinished(s, i) && s.txs[i] == Fresh && AmountsOk(s.db.entries)
    ensures Alone(sys, states, events, i) && states[0] == s && Conflicts(events) == 0
    ensures
      var end, request := states[|events|], sys.requests[i];
      && Finished(end.txs[i])
      && (end.txs[i].phase.Replayed? <==> !request.Posting? && IsReplay(s.db.reversals, request))
      && (end.txs[i].phase.Committed? <==>
          (request.Posting? || !IsReplay(s.db.reversals, request)) && Due(sys, s.db, request, s.now))
      && (if end.txs[i].phase.Committed? then StoresBetween(sys, s.db, request, s.now, s.now, end.db) else end.db == s.db)
  {
    hide Sound, OthersFinished, AmountsOk, Due, IsReplay, StoresBetween;
    states, events := FinishAlone(sys, s, i);
    AloneOutcome(sys, states, events, i);
  }
}
