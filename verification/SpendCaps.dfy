/**
 Daily and monthly spend caps, over every interleaving and while the clock
 crosses day and month boundaries (src/ledger/transaction-limit.service.ts,
 src/ledger/ledger.service.ts:143-152).
 */
module SpendCaps {
  import opened Money
  import opened Sums
  import opened Calendar
  import opened LockKeys
  import opened Ledger
  import opened Reversals
  import opened Engine

  /** The account and transaction type whose cap is looked at, and the journals that count as spending. */
  datatype Subject = Subject(account: Id, transactionType: TransactionType, window: Window, outgoing: set<Id>)

  function CheckedWeight(subject: Subject, since: int): Entry -> int {
    (e: Entry) =>
      if e.journalId in subject.outgoing && e.account == subject.account
         && e.referenceType == subject.transactionType && e.effectiveDate >= since
      then e.amount else 0
  }

  /** Stored amounts of limit-checked journals in the window that is open at time `now`. */
  function CheckedTotal(entries: seq<Entry>, subject: Subject, now: nat): int {
    Total(entries, CheckedWeight(subject, StartOf(subject.window, now)))
  }

  function LineOn(account: Id): Line -> int {
    (l: Line) => if l.account == account then RoundHalfUp(l.amount) else 0
  }

  /** Some check of the posting covers everything it stores on the account. */
  ghost predicate ChecksItself(request: Request, subject: Subject) {
    && request.Posting?
    && exists k :: 0 <= k < |request.limitChecks| && Covers(request, subject, k)
  }

  ghost predicate Covers(request: Request, subject: Subject, k: int) {
    && request.Posting? && 0 <= k < |request.limitChecks|
    && request.limitChecks[k].account == subject.account
    && request.limitChecks[k].transactionType == subject.transactionType
    && Total(request.lines, LineOn(subject.account)) as real <= request.limitChecks[k].amount
  }

  /** Every posting of the subject's type that counts as spending is limit-checked. */
  ghost predicate SpendingIsChecked(sys: System, subject: Subject) {
    forall i :: 0 <= i < |sys.requests| && sys.requests[i].journalId in subject.outgoing
      && ReferenceType(sys.requests[i]) == subject.transactionType
      ==> ChecksItself(sys.requests[i], subject)
  }

  ghost predicate CapIs(sys: System, subject: Subject, cap: int) {
    var key := (subject.account, subject.transactionType);
    && key in sys.limits && sys.limits[key].isActive
    && Some(cap) == match subject.window
                    case Day => sys.limits[key].maxPerDay
                    case Month => sys.limits[key].maxPerMonth
  }

  // ---- The invariant ---------------------------------------------------------

  /** Check `k` of the posting has passed for the subject's window. */
  ghost predicate Passed(request: Request, tx: Tx, window: Window, k: int) {
    && request.Posting? && PastLocking(tx) && 0 <= k < |request.limitChecks|
    && match tx.phase
       case CheckingBalance(_) => false
       case CheckingDay(n) => k < n
       case CheckingMonth(n) => k < n || (window == Day && k == n)
       case _ => true
  }

  ghost predicate HasRoom(request: Request, tx: Tx, entries: seq<Entry>, now: nat, subject: Subject, cap: int) {
    forall k :: Passed(request, tx, subject.window, k) && Covers(request, subject, k) ==>
      CheckedTotal(entries, subject, now) as real + request.limitChecks[k].amount <= cap as real
  }

  ghost predicate AmountsOk(entries: seq<Entry>) {
    forall e :: e in entries ==> 0 <= e.amount
  }

  ghost predicate Within(sys: System, s: State, subject: Subject, cap: int) {
    && Sound(sys, s)
    && AmountsOk(s.db.entries)
    && CheckedTotal(s.db.entries, subject, s.now) <= cap
    && (forall i :: 0 <= i < |s.txs| ==> HasRoom(sys.requests[i], s.txs[i], s.db.entries, s.now, subject, cap))
  }

  // ---- Totals ----------------------------------------------------------------

  /** Unchecked entries of the type only make the total that the check reads larger. */
  lemma CheckedIsPartOfPosted(entries: seq<Entry>, subject: Subject, now: nat)
    requires AmountsOk(entries)
    ensures CheckedTotal(entries, subject, now)
         <= PostedSince(entries, subject.account, subject.transactionType, StartOf(subject.window, now))
  {
    var since := StartOf(subject.window, now);
    TotalLe(entries, CheckedWeight(subject, since), SpendWeight(subject.account, subject.transactionType, since));
  }

  /** As time passes rows only leave the window. */
  lemma TimeOnlyFreesRoom(entries: seq<Entry>, subject: Subject, earlier: nat, later: nat)
    requires AmountsOk(entries) && earlier <= later
    ensures CheckedTotal(entries, subject, later) <= CheckedTotal(entries, subject, earlier)
  {
    WindowsMoveForward(subject.window, earlier, later);
    var late, early := CheckedWeight(subject, StartOf(subject.window, later)), CheckedWeight(subject, StartOf(subject.window, earlier));
    forall e | e in entries ensures late(e) <= early(e) {
      assert 0 <= e.amount;
    }
    TotalLe(entries, late, early);
  }

  lemma {:induction false} JournalSpends(request: Request, tx: Tx, lines: seq<Line>, subject: Subject, now: nat)
    requires AllPositive(lines)
    ensures 0 <= CheckedTotal(NewEntries(request, tx, lines), subject, now) <= Total(lines, LineOn(subject.account))
    ensures request.journalId !in subject.outgoing || ReferenceType(request) != subject.transactionType ==>
              CheckedTotal(NewEntries(request, tx, lines), subject, now) == 0
  {
    if |lines| > 0 {
      var front := lines[..|lines| - 1];
      var entries := NewEntries(request, tx, lines);
      assert entries[..|lines| - 1] == NewEntries(request, tx, front);
      JournalSpends(request, tx, front, subject, now);
      var line, entry := lines[|lines| - 1], entries[|lines| - 1];
      assert line.amount > 0.0 && entry == NewEntry(request, tx, line);
      var weight := CheckedWeight(subject, StartOf(subject.window, now));
      assert Total(entries, weight) == Total(entries[..|lines| - 1], weight) + weight(entry);
      assert 0 <= weight(entry) <= LineOn(subject.account)(line);
    }
  }

  // ---- Steps -----------------------------------------------------------------

  /** A check that passes leaves room for its amount under the cap. */
  lemma StepMakesRoom(sys: System, s: State, i: nat, row: nat, subject: Subject, cap: int)
    requires Within(sys, s, subject, cap) && CapIs(sys, subject, cap) && i < |s.txs|
    ensures HasRoom(sys.requests[i], AdvanceTx(sys, s.db, s.now, sys.requests[i], s.txs[i], row),
                    s.db.entries, s.now, subject, cap)
  {
    var request, tx := sys.requests[i], s.txs[i];
    var tx' := AdvanceTx(sys, s.db, s.now, request, tx, row);
    assert HasRoom(request, tx, s.db.entries, s.now, subject, cap);
    forall k | Passed(request, tx', subject.window, k) && Covers(request, subject, k)
      ensures CheckedTotal(s.db.entries, subject, s.now) as real + request.limitChecks[k].amount <= cap as real
    {
      if !Passed(request, tx, subject.window, k) {
        NewlyPassed(sys, s.db, s.now, request, tx, row, subject.window, k);
        CheckedIsPartOfPosted(s.db.entries, subject, s.now);
      }
    }
  }

  /** The only step that newly passes check `k` is the one that evaluates it. */
  lemma NewlyPassed(sys: System, db: Database, now: nat, request: Request, tx: Tx, row: nat, window: Window, k: int)
    requires TxOk(request, tx)
    requires Passed(request, AdvanceTx(sys, db, now, request, tx, row), window, k) && !Passed(request, tx, window, k)
    ensures !WindowExceeded(sys.limits, db.entries, request.limitChecks[k], window, now)
  {
    hide Begin, KeysToLock, Insufficient, TooLarge, WindowExceeded, AlreadyReversed, FullyReversed,
      DeriveOriginalAmount, OriginalsOf, OverLimit, Duplicate, NewReversal, NewEntry, Accepted;
    BeginLeavesTheLocks(sys, db, request, tx);
  }

  lemma CheckedIsLocked(request: Request, subject: Subject, k: int)
    requires Covers(request, subject, k)
    ensures subject.account in LockIds(request)
  {
    assert LimitAccounts(request.limitChecks)[k] == subject.account;
    assert subject.account in LimitAccounts(request.limitChecks);
    assert subject.account in request.checkBalanceOn + LimitAccounts(request.limitChecks);
  }

  /** What a commit adds to the total: at most what its lines put on the account, and nothing if it is not spending. */
  lemma CommitSpends(sys: System, s: State, i: nat, subject: Subject)
    requires Sound(sys, s) && i < |s.txs| && s.txs[i].phase.Committing?
    ensures
      var request, tx := sys.requests[i], s.txs[i];
      && CheckedTotal(s.db.entries + tx.inserted, subject, s.now)
           == CheckedTotal(s.db.entries, subject, s.now) + CheckedTotal(tx.inserted, subject, s.now)
      && 0 <= CheckedTotal(tx.inserted, subject, s.now)
      && (request.journalId !in subject.outgoing || ReferenceType(request) != subject.transactionType ==>
            CheckedTotal(tx.inserted, subject, s.now) == 0)
      && (request.Posting? ==> CheckedTotal(tx.inserted, subject, s.now) <= Total(request.lines, LineOn(subject.account)))
  {
    hide LocksExclusive, RowsExclusive, StartOf, Balanced, Keys;
    var request, tx := sys.requests[i], s.txs[i];
    assert TxOk(request, tx);
    TotalConcat(s.db.entries, tx.inserted, CheckedWeight(subject, StartOf(subject.window, s.now)));
    JournalSpends(request, tx, tx.plan.lines, subject, s.now);
  }

  /** The committing request had room for all it stores; nobody else's room is touched. */
  lemma CommitStaysWithin(sys: System, s: State, i: nat, j: nat, subject: Subject, cap: int)
    requires Within(sys, s, subject, cap) && SpendingIsChecked(sys, subject)
    requires i < |s.txs| && s.txs[i].phase.Committing? && j < |s.txs|
    ensures CheckedTotal(s.db.entries + s.txs[i].inserted, subject, s.now) <= cap
    ensures j != i ==>
              HasRoom(sys.requests[j], s.txs[j], s.db.entries + s.txs[i].inserted, s.now, subject, cap)
  {
    hide TxOk, LocksExclusive, RowsExclusive, AmountsOk, LockIds, Keys, CheckedTotal;
    var request, tx := sys.requests[i], s.txs[i];
    CommitSpends(sys, s, i, subject);
    if CheckedTotal(tx.inserted, subject, s.now) > 0 {
      assert ChecksItself(request, subject);
      var k :| 0 <= k < |request.limitChecks| && Covers(request, subject, k);
      assert Passed(request, tx, subject.window, k);
      assert HasRoom(request, tx, s.db.entries, s.now, subject, cap);
      CheckedIsLocked(request, subject, k);
      if j != i {
        forall m | Passed(sys.requests[j], s.txs[j], subject.window, m) && Covers(sys.requests[j], subject, m)
          ensures false
        {
          CheckedIsLocked(sys.requests[j], subject, m);
          LockedTogether(sys, s, i, j, subject.account);
        }
      }
    } else {
      assert HasRoom(sys.requests[j], s.txs[j], s.db.entries, s.now, subject, cap);
    }
  }

  lemma CommitKeepsAmounts(sys: System, s: State, i: nat)
    requires Sound(sys, s) && AmountsOk(s.db.entries) && i < |s.txs| && s.txs[i].phase.Committing?
    ensures AmountsOk(s.db.entries + s.txs[i].inserted)
  {
    var tx := s.txs[i];
    assert TxOk(sys.requests[i], tx);
    forall e | e in tx.inserted ensures 0 <= e.amount {
      var k :| 0 <= k < |tx.inserted| && tx.inserted[k] == e;
      assert tx.plan.lines[k].amount > 0.0;
    }
  }

  lemma AdvanceStaysWithin(sys: System, s: State, i: nat, row: nat, subject: Subject, cap: int)
    requires Within(sys, s, subject, cap) && SpendingIsChecked(sys, subject) && CapIs(sys, subject, cap)
    requires i < |s.txs| && Sound(sys, AdvanceState(sys, s, i, row))
    ensures Within(sys, AdvanceState(sys, s, i, row), subject, cap)
  {
    hide AdvanceTx, TxOk, LocksExclusive, RowsExclusive, AmountsOk, HasRoom, SpendingIsChecked, CapIs, CheckedTotal;
    var s' := AdvanceState(sys, s, i, row);
    if s.txs[i].phase.Committing? {
      CommitKeepsAmounts(sys, s, i);
      forall j | 0 <= j < |s.txs|
        ensures HasRoom(sys.requests[j], s'.txs[j], s'.db.entries, s'.now, subject, cap)
      {
        CommitStaysWithin(sys, s, i, j, subject, cap);
        FinishedNeedsNoRoom(sys, s, i, row, subject, cap);
      }
      CommitStaysWithin(sys, s, i, i, subject, cap);
    } else {
      StepMakesRoom(sys, s, i, row, subject, cap);
    }
  }

  lemma FinishedNeedsNoRoom(sys: System, s: State, i: nat, row: nat, subject: Subject, cap: int)
    requires |s.txs| == |sys.requests| && i < |s.txs| && s.txs[i].phase.Committing?
    ensures forall entries :: HasRoom(sys.requests[i], AdvanceTx(sys, s.db, s.now, sys.requests[i], s.txs[i], row),
                                      entries, s.now, subject, cap)
  {
    assert Finished(AdvanceTx(sys, s.db, s.now, sys.requests[i], s.txs[i], row));
  }

  lemma TickStaysWithin(sys: System, s: State, now: nat, subject: Subject, cap: int)
    requires Within(sys, s, subject, cap) && s.now <= now && Sound(sys, s.(now := now))
    ensures Within(sys, s.(now := now), subject, cap)
  {
    TimeOnlyFreesRoom(s.db.entries, subject, s.now, now);
    forall i | 0 <= i < |s.txs| ensures HasRoom(sys.requests[i], s.txs[i], s.db.entries, now, subject, cap) {
      assert HasRoom(sys.requests[i], s.txs[i], s.db.entries, s.now, subject, cap);
    }
  }

  lemma NextStaysWithin(sys: System, s: State, e: Event, s': State, subject: Subject, cap: int)
    requires Within(sys, s, subject, cap) && SpendingIsChecked(sys, subject) && CapIs(sys, subject, cap)
    requires Next(sys, s, e, s')
    ensures Within(sys, s', subject, cap)
  {
    hide TxOk, LocksExclusive, RowsExclusive, AmountsOk, SpendingIsChecked, CapIs, CheckedTotal, AdvanceState;
    NextIsSound(sys, s, e, s');
    match e
    case Advance(i, row) => AdvanceStaysWithin(sys, s, i, row, subject, cap);
    case Conflict(i) => assert !PastLocking(s'.txs[i]);
    case Abort(i) => assert !PastLocking(s'.txs[i]);
    case Tick(now) => TickStaysWithin(sys, s, now, subject, cap);
  }

  /**
   At every moment of every run the limit-checked amounts in the window that is
   open at that moment total at most the cap, whatever else is posted.
   */
  lemma {:induction false} CapIsKept(sys: System, states: seq<State>, k: nat, subject: Subject, cap: int)
    requires IsRun(sys, states) && k < |states|
    requires SpendingIsChecked(sys, subject) && CapIs(sys, subject, cap)
    requires AmountsOk(states[0].db.entries) && CheckedTotal(states[0].db.entries, subject, states[0].now) <= cap
    ensures Within(sys, states[k], subject, cap)
    ensures CheckedTotal(states[k].db.entries, subject, states[k].now) <= cap
  {
    if k == 0 {
      InitialIsSound(sys, states[0]);
    } else {
      CapIsKept(sys, states, k - 1, subject, cap);
      assert Follows(sys, states[k - 1], states[k - 1 + 1]);
      var e :| Next(sys, states[k - 1], e, states[k]);
      NextStaysWithin(sys, states[k - 1], e, states[k], subject, cap);
    }
  }

  /**
   On the calendar: in every state of every run, from the midnight that starts
   the day (or the month) of that moment on, the limit-checked amounts total at
   most the cap. Only the totals of the first state are taken as given.
   */
  lemma CapHoldsOnTheCalendar(sys: System, states: seq<State>, k: nat, subject: Subject, cap: int, from: int)
    requires IsRun(sys, states) && k < |states|
    requires SpendingIsChecked(sys, subject) && CapIs(sys, subject, cap)
    requires AmountsOk(states[0].db.entries)
    requires forall start :: Starts(subject.window, start, states[0].now) ==>
               Total(states[0].db.entries, CheckedWeight(subject, start)) <= cap
    requires Starts(subject.window, from, states[k].now)
    ensures Total(states[k].db.entries, CheckedWeight(subject, from)) <= cap
  {
    hide IsRun, SpendingIsChecked, CapIs, AmountsOk, StartOf, Starts;
    WindowStartsIff(subject.window, StartOf(subject.window, states[0].now), states[0].now);
    WindowStartsIff(subject.window, from, states[k].now);
    CapIsKept(sys, states, k, subject, cap);
  }
}
