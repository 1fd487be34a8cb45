/**
 The posting engine as a state machine: any number of postings, full reversals
 and partial refunds run as database transactions whose statements interleave
 freely (src/ledger/ledger.service.ts:118-216, src/reversals/reversals.service.ts:96-435,
 src/database/database.service.ts:165-245).

 Isolation is ReadCommitted: a statement sees every commit made before it and
 nothing uncommitted of others. A commit publishes all rows at once and drops
 the transaction's locks; so does a rollback, which publishes nothing.
 */
module Engine {
  import opened Money
  import opened Sums
  import opened Calendar
  import opened LockKeys
  import opened Ledger
  import opened Reversals

  datatype Request =
    | Posting(
        journalId: Id, referenceType: TransactionType, referenceId: Id, effectiveDate: int,
        lines: seq<Line>, checkBalanceOn: seq<Id>, limitChecks: seq<LimitCheck>)
    | FullReversal(journalId: Id, original: Id, reversalId: Id, idempotencyKey: string)
    | PartialRefund(
        journalId: Id, original: Id, reversalId: Id, idempotencyKey: string,
        refundAmount: real, policy: FeePolicy, originalFee: real)

  datatype System = System(requests: seq<Request>, limits: Limits, platformCash: Option<Id>)

  datatype Database = Database(entries: seq<Entry>, reversals: seq<Reversal>)

  /** Where a request stands; `n` counts the statements of a loop already done. */
  datatype Phase =
    | Starting
    | Locking(n: nat)
    | CheckingBalance(n: nat)
    | CheckingDay(n: nat)
    | CheckingMonth(n: nat)
    | CheckingReversals
    | CheckingCap
    | ReadingHead
    | AwaitingRow(wanted: nat)
    | Inserting(n: nat)
    | Recording
    | Committing
    | Committed
    | Failed
    | Replayed

  datatype Tx = Tx(
    phase: Phase, attempt: nat, plan: Plan, effectiveDate: int, row: Option<nat>,
    inserted: seq<Entry>, recorded: seq<Reversal>)

  datatype State = State(db: Database, txs: seq<Tx>, now: nat)

  // ---- What a request locks and what it posts under --------------------------

  function LimitAccounts(checks: seq<LimitCheck>): (ids: seq<Id>)
    ensures |ids| == |checks|
    ensures forall k :: 0 <= k < |checks| ==> ids[k] == checks[k].account
  {
    seq(|checks|, k requires 0 <= k < |checks| => checks[k].account)
  }

  function LockIds(request: Request): seq<Id> {
    match request
    case Posting(_, _, _, _, _, checkBalanceOn, limitChecks) =>
      Distinct(checkBalanceOn + LimitAccounts(limitChecks))
    case _ => [request.original]
  }

  function Keys(request: Request): seq<nat> {
    KeysToLock(LockIds(request))
  }

  function ReferenceType(request: Request): TransactionType {
    match request
    case Posting(_, referenceType, _, _, _, _, _) => referenceType
    case FullReversal(_, _, _, _) => RefundFull
    case PartialRefund(_, _, _, _, _, _, _) => RefundPartial
  }

  function ReferenceId(request: Request): Id {
    if request.Posting? then request.referenceId else request.reversalId
  }

  function NewEntry(request: Request, tx: Tx, line: Line): Entry {
    Stored(request.journalId, tx.effectiveDate, ReferenceType(request), ReferenceId(request), line)
  }

  function NewEntries(request: Request, tx: Tx, lines: seq<Line>): (entries: seq<Entry>)
    ensures |entries| == |lines|
    ensures forall k :: 0 <= k < |lines| ==> entries[k] == NewEntry(request, tx, lines[k])
  {
    StoredAll(request.journalId, tx.effectiveDate, ReferenceType(request), ReferenceId(request), lines)
  }

  function NewReversal(request: Request, tx: Tx): Reversal
    requires !request.Posting?
  {
    match request
    case FullReversal(_, original, reversalId, idempotencyKey) =>
      Reversal(original, reversalId, tx.plan.originalAmount, FullFee, 0, idempotencyKey)
    case PartialRefund(_, original, reversalId, idempotencyKey, refundAmount, policy, _) =>
      Reversal(original, reversalId, RoundHalfUp(refundAmount), policy, RoundHalfUp(tx.plan.feeRefund), idempotencyKey)
  }

  // ---- One statement of one request ------------------------------------------

  const EmptyPlan := Plan([], 0, 0.0, 0.0)

  const Fresh := Tx(Starting, 1, EmptyPlan, 0, None, [], [])

  predicate Finished(tx: Tx) {
    tx.phase.Committed? || tx.phase.Failed? || tx.phase.Replayed?
  }

  predicate InTransaction(tx: Tx) {
    !Finished(tx) && !tx.phase.Starting?
  }

  /** The part of the transaction that holds every key it asked for. */
  predicate PastLocking(tx: Tx) {
    InTransaction(tx) && !tx.phase.Locking?
  }

  function HeldCount(request: Request, tx: Tx): (n: nat)
    ensures n <= |Keys(request)|
  {
    if tx.phase.Locking? && tx.phase.n <= |Keys(request)| then tx.phase.n
    else if PastLocking(tx) then |Keys(request)|
    else 0
  }

  predicate Holds(request: Request, tx: Tx, key: nat) {
    exists k :: 0 <= k < HeldCount(request, tx) && Keys(request)[k] == key
  }

  function Fail(tx: Tx): Tx {
    tx.(phase := Failed, row := None, inserted := [], recorded := [])
  }

  /** Everything before BEGIN: validation of a posting, the reads that plan a reversal. */
  function Begin(sys: System, db: Database, request: Request, tx: Tx): Tx {
    match request
    case Posting(_, _, _, effectiveDate, lines, _, _) =>
      if Accepted(lines)
      then tx.(phase := Locking(0), plan := Plan(lines, 0, 0.0, 0.0), effectiveDate := effectiveDate)
      else Fail(tx)
    case FullReversal(_, original, _, idempotencyKey) =>
      if Duplicate(db.reversals, original, idempotencyKey) then tx.(phase := Replayed)
      else (match PlanReversal(db.entries, original, sys.platformCash)
            case Ok(plan) => tx.(phase := Locking(0), plan := plan)
            case Err(_) => Fail(tx))
    case PartialRefund(_, original, _, idempotencyKey, refundAmount, policy, originalFee) =>
      if Duplicate(db.reversals, original, idempotencyKey) then tx.(phase := Replayed)
      else (match PlanRefund(db.entries, original, sys.platformCash, refundAmount, policy, originalFee)
            case Ok(plan) => tx.(phase := Locking(0), plan := plan)
            case Err(_) => Fail(tx))
  }

  /** Entering postJournalEntry inside a reversal's transaction. */
  function EnterPosting(tx: Tx, now: nat): Tx {
    if Accepted(tx.plan.lines) then tx.(phase := ReadingHead, effectiveDate := now) else Fail(tx)
  }

  /** The request's own next state; `row` is the row the head query picks. */
  function AdvanceTx(sys: System, db: Database, now: nat, request: Request, tx: Tx, row: nat): Tx {
    match tx.phase
    case Starting => Begin(sys, db, request, tx)
    case Locking(n) =>
      if n < |Keys(request)| then tx.(phase := Locking(n + 1))
      else if request.Posting? then tx.(phase := CheckingBalance(0))
      else tx.(phase := CheckingReversals)
    case CheckingBalance(n) =>
      if !request.Posting? then tx
      else if n >= |request.checkBalanceOn| then tx.(phase := CheckingDay(0))
      else if Insufficient(db.entries, request.lines, request.checkBalanceOn[n]) then Fail(tx)
      else tx.(phase := CheckingBalance(n + 1))
    case CheckingDay(n) =>
      if !request.Posting? then tx
      else if n >= |request.limitChecks| then tx.(phase := ReadingHead)
      else if TooLarge(sys.limits, request.limitChecks[n])
           || WindowExceeded(sys.limits, db.entries, request.limitChecks[n], Day, now) then Fail(tx)
      else tx.(phase := CheckingMonth(n))
    case CheckingMonth(n) =>
      if !request.Posting? || n >= |request.limitChecks| then tx
      else if WindowExceeded(sys.limits, db.entries, request.limitChecks[n], Month, now) then Fail(tx)
      else tx.(phase := CheckingDay(n + 1))
    case CheckingReversals =>
      if request.Posting? then tx
      else if request.FullReversal? then
        if AlreadyReversed(db.reversals, request.original) then Fail(tx) else EnterPosting(tx, now)
      else if FullyReversed(db.reversals, request.original,
                            DeriveOriginalAmount(OriginalsOf(db.entries, request.original), sys.platformCash))
      then Fail(tx)
      else tx.(phase := CheckingCap)
    case CheckingCap =>
      if !request.PartialRefund? then tx
      else if OverLimit(db.reversals, request.original, request.refundAmount, tx.plan.originalAmount) then Fail(tx)
      else EnterPosting(tx, now)
    case ReadingHead =>
      if |db.entries| == 0 then tx.(phase := Inserting(0)) else tx.(phase := AwaitingRow(row))
    case AwaitingRow(wanted) => tx.(phase := Inserting(0), row := Some(wanted))
    case Inserting(n) =>
      if n < |tx.plan.lines|
      then tx.(phase := Inserting(n + 1), inserted := tx.inserted + [NewEntry(request, tx, tx.plan.lines[n])])
      else if request.Posting? then tx.(phase := Committing)
      else tx.(phase := Recording)
    case Recording =>
      if request.Posting? then tx
      else if Duplicate(db.reversals, request.original, request.idempotencyKey) then Fail(tx)
      else tx.(phase := Committing, recorded := [NewReversal(request, tx)])
    case Committing => tx.(phase := Committed, row := None)
    case Committed => tx
    case Failed => tx
    case Replayed => tx
  }

  function AdvanceDb(db: Database, tx: Tx): Database {
    if tx.phase.Committing?
    then Database(db.entries + tx.inserted, db.reversals + tx.recorded)
    else db
  }

  /** withRetryTransaction after a conflict error: roll back, then start over or give up. */
  function Retry(tx: Tx): Tx {
    if tx.attempt < MAX_RETRIES
    then tx.(phase := Locking(0), attempt := tx.attempt + 1, row := None, inserted := [], recorded := [])
    else Fail(tx)
  }

  // ---- Steps of the whole system ---------------------------------------------

  datatype Event = Advance(i: nat, row: nat) | Conflict(i: nat) | Abort(i: nat) | Tick(now: nat)

  /** pg_advisory_xact_lock is re-entrant: only other transactions can block it. */
  ghost predicate KeyFree(sys: System, s: State, i: nat, key: nat)
    requires |s.txs| == |sys.requests|
  {
    forall j :: 0 <= j < |s.txs| && j != i ==> !Holds(sys.requests[j], s.txs[j], key)
  }

  ghost predicate RowFree(s: State, i: nat, row: nat) {
    forall j :: 0 <= j < |s.txs| && j != i ==> s.txs[j].row != Some(row)
  }

  ghost predicate Enabled(sys: System, s: State, i: nat)
    requires |s.txs| == |sys.requests| && i < |s.txs|
  {
    match s.txs[i].phase
    case Locking(n) => n < |Keys(sys.requests[i])| ==> KeyFree(sys, s, i, Keys(sys.requests[i])[n])
    case AwaitingRow(wanted) => RowFree(s, i, wanted)
    case _ => !Finished(s.txs[i])
  }

  function AdvanceState(sys: System, s: State, i: nat, row: nat): State
    requires |s.txs| == |sys.requests| && i < |s.txs|
  {
    s.(db := AdvanceDb(s.db, s.txs[i]),
       txs := s.txs[i := AdvanceTx(sys, s.db, s.now, sys.requests[i], s.txs[i], row)])
  }

  ghost predicate Next(sys: System, s: State, e: Event, s': State)
    requires |s.txs| == |sys.requests|
  {
    match e
    case Advance(i, row) =>
      && i < |s.txs| && Enabled(sys, s, i)
      && (s.txs[i].phase.ReadingHead? && |s.db.entries| > 0 ==> row < |s.db.entries|)
      && s' == AdvanceState(sys, s, i, row)
    case Conflict(i) => i < |s.txs| && InTransaction(s.txs[i]) && s' == s.(txs := s.txs[i := Retry(s.txs[i])])
    case Abort(i) => i < |s.txs| && InTransaction(s.txs[i]) && s' == s.(txs := s.txs[i := Fail(s.txs[i])])
    case Tick(now) => s.now <= now && s' == s.(now := now)
  }

  ghost predicate Follows(sys: System, s: State, s': State)
    requires |s.txs| == |sys.requests|
  {
    exists e :: Next(sys, s, e, s')
  }

  ghost predicate Initial(sys: System, s: State) {
    |s.txs| == |sys.requests| && forall i :: 0 <= i < |s.txs| ==> s.txs[i] == Fresh
  }

  ghost predicate IsRun(sys: System, states: seq<State>) {
    && |states| > 0
    && Initial(sys, states[0])
    && (forall k :: 0 <= k < |states| ==> |states[k].txs| == |sys.requests|)
    && (forall k :: 0 <= k < |states| - 1 ==> Follows(sys, states[k], states[k + 1]))
  }

  // ---- What every step keeps -------------------------------------------------

  ghost predicate Unwritten(tx: Tx) {
    tx.row == None && tx.inserted == [] && tx.recorded == []
  }

  ghost predicate PlanReady(request: Request, tx: Tx) {
    request.Posting? ==>
      tx.plan.lines == request.lines && tx.effectiveDate == request.effectiveDate && Accepted(request.lines)
  }

  ghost predicate TxOk(request: Request, tx: Tx) {
    match tx.phase
    case Starting => Unwritten(tx)
    case Locking(n) => Unwritten(tx) && PlanReady(request, tx) && n <= |Keys(request)|
    case CheckingBalance(n) =>
      Unwritten(tx) && PlanReady(request, tx) && request.Posting? && n <= |request.checkBalanceOn|
    case CheckingDay(n) =>
      Unwritten(tx) && PlanReady(request, tx) && request.Posting? && n <= |request.limitChecks|
    case CheckingMonth(n) =>
      Unwritten(tx) && PlanReady(request, tx) && request.Posting? && n < |request.limitChecks|
    case CheckingReversals => Unwritten(tx) && !request.Posting?
    case CheckingCap => Unwritten(tx) && request.PartialRefund?
    case ReadingHead => Unwritten(tx) && PlanReady(request, tx) && Accepted(tx.plan.lines)
    case AwaitingRow(_) => Unwritten(tx) && PlanReady(request, tx) && Accepted(tx.plan.lines)
    case Inserting(n) =>
      && PlanReady(request, tx) && Accepted(tx.plan.lines) && tx.recorded == []
      && n <= |tx.plan.lines| && tx.inserted == NewEntries(request, tx, tx.plan.lines[..n])
    case Recording =>
      && !request.Posting? && Accepted(tx.plan.lines) && tx.recorded == []
      && tx.inserted == NewEntries(request, tx, tx.plan.lines)
    case Committing =>
      && PlanReady(request, tx) && Accepted(tx.plan.lines)
      && tx.recorded == (if request.Posting? then [] else [NewReversal(request, tx)])
      && tx.inserted == NewEntries(request, tx, tx.plan.lines)
    case _ => tx.row == None
  }

  ghost predicate LocksExclusive(sys: System, s: State)
    requires |s.txs| == |sys.requests|
  {
    forall i, j, key ::
      0 <= i < |s.txs| && 0 <= j < |s.txs|
      && Holds(sys.requests[i], s.txs[i], key) && Holds(sys.requests[j], s.txs[j], key)
      ==> i == j
  }

  ghost predicate RowsExclusive(s: State) {
    forall i, j ::
      0 <= i < |s.txs| && 0 <= j < |s.txs| && s.txs[i].row.Some? && s.txs[i].row == s.txs[j].row
      ==> i == j
  }

  /** Well-formedness of every reachable state. */
  ghost predicate Sound(sys: System, s: State) {
    && |s.txs| == |sys.requests|
    && (forall i :: 0 <= i < |s.txs| ==> TxOk(sys.requests[i], s.txs[i]))
    && LocksExclusive(sys, s)
    && RowsExclusive(s)
  }

  lemma InitialIsSound(sys: System, s: State)
    requires Initial(sys, s)
    ensures Sound(sys, s)
  {
    hide Keys;
    forall i | 0 <= i < |s.txs|
      ensures TxOk(sys.requests[i], s.txs[i]) && HeldCount(sys.requests[i], s.txs[i]) == 0
    {
      assert s.txs[i] == Fresh;
    }
  }

  lemma BeginKeepsTxOk(sys: System, db: Database, request: Request, tx: Tx)
    requires tx.phase.Starting? && TxOk(request, tx)
    ensures TxOk(request, Begin(sys, db, request, tx))
    ensures Unwritten(Begin(sys, db, request, tx))
    ensures HeldCount(request, Begin(sys, db, request, tx)) == 0
  {
    hide KeysToLock, PlanReversal, PlanRefund, Duplicate, Accepted;
  }

  lemma AdvanceKeepsTxOk(sys: System, db: Database, now: nat, request: Request, tx: Tx, row: nat)
    requires TxOk(request, tx)
    ensures TxOk(request, AdvanceTx(sys, db, now, request, tx, row))
  {
    if tx.phase.Starting? {
      BeginKeepsTxOk(sys, db, request, tx);
    } else if tx.phase.Inserting? {
      InsertKeepsTxOk(sys, db, now, request, tx, row);
    } else if tx.phase.ReadingHead? || tx.phase.AwaitingRow? {
      HeadKeepsTxOk(sys, db, now, request, tx, row);
    } else if tx.phase.Recording? || tx.phase.Committing? {
      RecordKeepsTxOk(sys, db, now, request, tx, row);
    } else {
      CheckKeepsTxOk(sys, db, now, request, tx, row);
    }
  }

  lemma InsertKeepsTxOk(sys: System, db: Database, now: nat, request: Request, tx: Tx, row: nat)
    requires TxOk(request, tx) && tx.phase.Inserting?
    ensures TxOk(request, AdvanceTx(sys, db, now, request, tx, row))
  {
    hide Keys, Accepted, NewReversal;
    var n, tx' := tx.phase.n, AdvanceTx(sys, db, now, request, tx, row);
    if n < |tx.plan.lines| {
      assert tx'.inserted == NewEntries(request, tx', tx.plan.lines[..n + 1]);
    } else {
      assert tx.plan.lines[..n] == tx.plan.lines;
    }
  }

  lemma HeadKeepsTxOk(sys: System, db: Database, now: nat, request: Request, tx: Tx, row: nat)
    requires TxOk(request, tx) && (tx.phase.ReadingHead? || tx.phase.AwaitingRow?)
    ensures TxOk(request, AdvanceTx(sys, db, now, request, tx, row))
  {
    hide Keys, Accepted;
    assert tx.plan.lines[..0] == [];
  }

  lemma RecordKeepsTxOk(sys: System, db: Database, now: nat, request: Request, tx: Tx, row: nat)
    requires TxOk(request, tx) && (tx.phase.Recording? || tx.phase.Committing?)
    ensures TxOk(request, AdvanceTx(sys, db, now, request, tx, row))
  {
    hide Keys, Accepted, Duplicate, RoundHalfUp;
    var tx' := AdvanceTx(sys, db, now, request, tx, row);
    assert NewEntries(request, tx', tx.plan.lines) == NewEntries(request, tx, tx.plan.lines);
  }

  lemma CheckKeepsTxOk(sys: System, db: Database, now: nat, request: Request, tx: Tx, row: nat)
    requires TxOk(request, tx)
    requires !tx.phase.Starting? && !tx.phase.Inserting? && !tx.phase.ReadingHead? && !tx.phase.AwaitingRow?
    requires !tx.phase.Recording? && !tx.phase.Committing?
    ensures TxOk(request, AdvanceTx(sys, db, now, request, tx, row))
  {
    hide Begin, Keys, Insufficient, TooLarge, WindowExceeded, AlreadyReversed, FullyReversed,
      DeriveOriginalAmount, OriginalsOf, OverLimit, Duplicate, Accepted, NewEntries, NewEntry, NewReversal;
  }

  /** A step takes at most one more key, the one it waited for. */
  lemma HeldAfterAdvance(sys: System, db: Database, now: nat, request: Request, tx: Tx, row: nat)
    requires TxOk(request, tx)
    ensures
      var n, n' := HeldCount(request, tx), HeldCount(request, AdvanceTx(sys, db, now, request, tx, row));
      n' <= n || (tx.phase == Locking(n) && n' == n + 1)
  {
    LockingInRange(request, tx);
    hide AdvanceTx, TxOk, HeldCount;
    if tx.phase.Starting? {
      AdvanceFromStart(sys, db, now, request, tx, row);
      BeginKeepsTxOk(sys, db, request, tx);
    } else {
      HeldAfterStatement(sys, db, now, request, tx, row);
    }
  }

  lemma LockingInRange(request: Request, tx: Tx)
    requires TxOk(request, tx)
    ensures tx.phase.Locking? ==> tx.phase.n <= |Keys(request)|
  {
  }

  lemma HeldAfterStatement(sys: System, db: Database, now: nat, request: Request, tx: Tx, row: nat)
    requires !tx.phase.Starting? && (tx.phase.Locking? ==> tx.phase.n <= |Keys(request)|)
    ensures
      var n, n' := HeldCount(request, tx), HeldCount(request, AdvanceTx(sys, db, now, request, tx, row));
      n' <= n || (tx.phase == Locking(n) && n' == n + 1)
  {
    hide Begin, Keys, Insufficient, TooLarge, WindowExceeded, AlreadyReversed, FullyReversed,
      DeriveOriginalAmount, OriginalsOf, OverLimit, Duplicate, Accepted, NewReversal, NewEntry;
  }

  lemma NewKeyWasFree(sys: System, s: State, i: nat, row: nat, key: nat)
    requires |s.txs| == |sys.requests| && i < |s.txs| && Enabled(sys, s, i)
    requires TxOk(sys.requests[i], s.txs[i])
    requires Holds(sys.requests[i], AdvanceTx(sys, s.db, s.now, sys.requests[i], s.txs[i], row), key)
    ensures Holds(sys.requests[i], s.txs[i], key) || KeyFree(sys, s, i, key)
  {
    hide AdvanceTx, Keys, TxOk, HeldCount;
    var tx, request := s.txs[i], sys.requests[i];
    var tx' := AdvanceTx(sys, s.db, s.now, request, tx, row);
    HeldAfterAdvance(sys, s.db, s.now, request, tx, row);
    var k :| 0 <= k < HeldCount(request, tx') && Keys(request)[k] == key;
    if k >= HeldCount(request, tx) {
      assert tx.phase == Locking(k);
    }
  }

  lemma AdvanceKeepsLocks(sys: System, s: State, i: nat, row: nat)
    requires Sound(sys, s) && i < |s.txs| && Enabled(sys, s, i)
    ensures LocksExclusive(sys, AdvanceState(sys, s, i, row))
  {
    hide AdvanceTx, KeysToLock, TxOk;
    var s' := AdvanceState(sys, s, i, row);
    forall a, b, key | 0 <= a < |s'.txs| && 0 <= b < |s'.txs|
      && Holds(sys.requests[a], s'.txs[a], key) && Holds(sys.requests[b], s'.txs[b], key)
      ensures a == b
    {
      if a == i || b == i {
        NewKeyWasFree(sys, s, i, row, key);
      }
    }
  }

  lemma AdvanceKeepsRows(sys: System, s: State, i: nat, row: nat)
    requires Sound(sys, s) && i < |s.txs| && Enabled(sys, s, i)
    ensures RowsExclusive(AdvanceState(sys, s, i, row))
  {
    var tx := s.txs[i];
    var tx' := AdvanceTx(sys, s.db, s.now, sys.requests[i], tx, row);
    assert tx'.row == None || tx'.row == tx.row || RowFree(s, i, tx'.row.value);
  }

  lemma StoppedIsOk(request: Request, tx: Tx, tx': Tx)
    requires TxOk(request, tx) && InTransaction(tx)
    requires tx' == Retry(tx) || tx' == Fail(tx)
    ensures TxOk(request, tx') && tx'.row == None && HeldCount(request, tx') == 0
  {
    hide Keys, Accepted, NewEntries, NewReversal;
  }

  lemma StopKeepsSound(sys: System, s: State, i: nat, tx': Tx)
    requires Sound(sys, s) && i < |s.txs|
    requires tx' == Retry(s.txs[i]) || tx' == Fail(s.txs[i])
    requires InTransaction(s.txs[i])
    ensures Sound(sys, s.(txs := s.txs[i := tx']))
  {
    hide Keys, TxOk, HeldCount, Retry, Fail;
    StoppedIsOk(sys.requests[i], s.txs[i], tx');
    var s' := s.(txs := s.txs[i := tx']);
    forall a, b, key | 0 <= a < |s'.txs| && 0 <= b < |s'.txs|
      && Holds(sys.requests[a], s'.txs[a], key) && Holds(sys.requests[b], s'.txs[b], key)
      ensures a == b
    {
      assert a != i && b != i;
    }
  }

  lemma NextIsSound(sys: System, s: State, e: Event, s': State)
    requires Sound(sys, s) && Next(sys, s, e, s')
    ensures Sound(sys, s')
  {
    hide AdvanceTx, TxOk, Holds;
    match e
    case Advance(i, row) =>
      AdvanceKeepsTxOk(sys, s.db, s.now, sys.requests[i], s.txs[i], row);
      AdvanceKeepsLocks(sys, s, i, row);
      AdvanceKeepsRows(sys, s, i, row);
    case Conflict(i) => StopKeepsSound(sys, s, i, Retry(s.txs[i]));
    case Abort(i) => StopKeepsSound(sys, s, i, Fail(s.txs[i]));
    case Tick(_) =>
      forall i, j, key | 0 <= i < |s'.txs| && 0 <= j < |s'.txs|
        && Holds(sys.requests[i], s'.txs[i], key) && Holds(sys.requests[j], s'.txs[j], key)
        ensures i == j
      {
      }
  }

  lemma {:induction false} RunIsSound(sys: System, states: seq<State>, k: nat)
    requires IsRun(sys, states) && k < |states|
    ensures Sound(sys, states[k])
  {
    if k == 0 {
      InitialIsSound(sys, states[0]);
    } else {
      RunIsSound(sys, states, k - 1);
      assert Follows(sys, states[k - 1], states[k - 1 + 1]);
      var e :| Next(sys, states[k - 1], e, states[k]);
      NextIsSound(sys, states[k - 1], e, states[k]);
    }
  }

  lemma HoldsEveryKey(request: Request, tx: Tx, id: Id)
    requires PastLocking(tx) && id in LockIds(request)
    ensures Holds(request, tx, LockKey(id))
  {
    hide KeysToLock, LockIds;
    EveryIdIsLocked(LockIds(request), id);
    var k :| 0 <= k < |Keys(request)| && Keys(request)[k] == LockKey(id);
    assert k < HeldCount(request, tx);
  }

  /** Two transactions past their locks never share an id they both locked. */
  lemma LockedTogether(sys: System, s: State, i: nat, j: nat, id: Id)
    requires Sound(sys, s) && i < |s.txs| && j < |s.txs|
    requires PastLocking(s.txs[i]) && PastLocking(s.txs[j])
    requires id in LockIds(sys.requests[i]) && id in LockIds(sys.requests[j])
    ensures i == j
  {
    HoldsEveryKey(sys.requests[i], s.txs[i], id);
    HoldsEveryKey(sys.requests[j], s.txs[j], id);
  }

  // ---- Facts shared by the safety proofs --------------------------------------

  /** A commit adds its rows to the originals of its own reference and to no others. */
  lemma CommitAddsOriginals(sys: System, s: State, i: nat, original: Id)
    requires Sound(sys, s) && i < |s.txs| && s.txs[i].phase.Committing?
    ensures OriginalsOf(s.db.entries + s.txs[i].inserted, original)
         == OriginalsOf(s.db.entries, original)
            + (if ReferenceId(sys.requests[i]) == original then s.txs[i].inserted else [])
  {
    hide OriginalsOf, LocksExclusive, RowsExclusive;
    var request, tx := sys.requests[i], s.txs[i];
    assert TxOk(request, tx);
    InsertedUnder(request, tx);
    OriginalsConcat(s.db.entries, tx.inserted, original);
    AllOrNone(tx.inserted, ReferenceId(request), original);
  }

  lemma InsertedUnder(request: Request, tx: Tx)
    requires TxOk(request, tx) && tx.phase.Committing?
    ensures forall e :: e in tx.inserted ==> e.referenceId == ReferenceId(request)
  {
  }

  /**
   A transaction id is drawn when its journal is built, so one journal is posted
   under it: either before the run, or by one request of the run.
   */
  ghost predicate PostedOnce(sys: System, start: Database, original: Id) {
    && (forall i, j ::
          && 0 <= i < |sys.requests| && 0 <= j < |sys.requests|
          && ReferenceId(sys.requests[i]) == original && ReferenceId(sys.requests[j]) == original
          ==> i == j)
    && (forall i :: 0 <= i < |sys.requests| && ReferenceId(sys.requests[i]) == original ==>
          OriginalsOf(start.entries, original) == [])
  }

  ghost predicate NotYetPosted(sys: System, s: State, original: Id)
    requires |s.txs| == |sys.requests|
  {
    forall j :: 0 <= j < |s.txs| && ReferenceId(sys.requests[j]) == original ==> !s.txs[j].phase.Committed?
  }

  /** Until a request of the run has posted under the id, its rows are those from before the run. */
  ghost predicate Tracked(sys: System, start: Database, s: State, original: Id) {
    && Sound(sys, s)
    && (NotYetPosted(sys, s, original) ==> OriginalsOf(s.db.entries, original) == OriginalsOf(start.entries, original))
  }

  lemma AdvanceTracks(sys: System, start: Database, s: State, i: nat, row: nat, original: Id)
    requires Tracked(sys, start, s, original) && i < |s.txs| && Enabled(sys, s, i)
    requires Sound(sys, AdvanceState(sys, s, i, row))
    ensures Tracked(sys, start, AdvanceState(sys, s, i, row), original)
  {
    hide AdvanceTx, OriginalsOf, Sound, ReferenceId;
    SoundCounts(sys, s);
    var s' := AdvanceState(sys, s, i, row);
    if NotYetPosted(sys, s', original) {
      forall j | 0 <= j < |s.txs| && ReferenceId(sys.requests[j]) == original ensures !s.txs[j].phase.Committed? {
        assert j != i ==> s'.txs[j] == s.txs[j];
      }
      if s.txs[i].phase.Committing? {
        CommitAddsOriginals(sys, s, i, original);
        CommittingCommits(sys, s.db, s.now, sys.requests[i], s.txs[i], row);
        assert s'.txs[i].phase.Committed?;
      }
    }
  }

  lemma SoundCounts(sys: System, s: State)
    requires Sound(sys, s)
    ensures |s.txs| == |sys.requests|
  {
  }

  lemma CommittingCommits(sys: System, db: Database, now: nat, request: Request, tx: Tx, row: nat)
    requires tx.phase.Committing?
    ensures AdvanceTx(sys, db, now, request, tx, row).phase.Committed?
  {
  }

  lemma NextTracks(sys: System, start: Database, s: State, e: Event, s': State, original: Id)
    requires Tracked(sys, start, s, original) && Next(sys, s, e, s')
    ensures Tracked(sys, start, s', original)
  {
    hide AdvanceTx, OriginalsOf, TxOk, LocksExclusive, RowsExclusive, AdvanceState;
    NextIsSound(sys, s, e, s');
    match e
    case Advance(i, row) => AdvanceTracks(sys, start, s, i, row, original);
    case Conflict(i) => assert forall j :: 0 <= j < |s.txs| && j != i ==> s'.txs[j] == s.txs[j];
    case Abort(i) => assert forall j :: 0 <= j < |s.txs| && j != i ==> s'.txs[j] == s.txs[j];
    case Tick(_) =>
  }

  /** Once the rows of a transaction posted once are there, no commit changes them. */
  lemma OriginalsSettle(sys: System, start: Database, s: State, i: nat, original: Id)
    requires Tracked(sys, start, s, original) && PostedOnce(sys, start, original)
    requires i < |s.txs| && s.txs[i].phase.Committing?
    ensures OriginalsOf(s.db.entries, original) != [] ==>
              OriginalsOf(s.db.entries + s.txs[i].inserted, original) == OriginalsOf(s.db.entries, original)
    ensures ReferenceId(sys.requests[i]) == original ==>
              && OriginalsOf(s.db.entries, original) == []
              && OriginalsOf(s.db.entries + s.txs[i].inserted, original) == s.txs[i].inserted
  {
    hide OriginalsOf, TxOk, LocksExclusive, RowsExclusive;
    CommitAddsOriginals(sys, s, i, original);
    if ReferenceId(sys.requests[i]) == original {
      assert NotYetPosted(sys, s, original);
      assert [] + s.txs[i].inserted == s.txs[i].inserted;
    }
  }

  lemma PlanIsKept(sys: System, db: Database, now: nat, request: Request, tx: Tx, row: nat)
    requires !tx.phase.Starting?
    ensures AdvanceTx(sys, db, now, request, tx, row).plan == tx.plan
    ensures InTransaction(AdvanceTx(sys, db, now, request, tx, row)) ==> InTransaction(tx)
  {
    hide Begin, Keys, Insufficient, TooLarge, WindowExceeded, AlreadyReversed, FullyReversed,
      DeriveOriginalAmount, OriginalsOf, OverLimit, Duplicate, NewReversal, NewEntry, Accepted;
  }

  lemma BeginLeavesTheLocks(sys: System, db: Database, request: Request, tx: Tx)
    ensures tx.phase.Starting? ==> !PastLocking(Begin(sys, db, request, tx))
  {
    hide PlanReversal, PlanRefund, Duplicate, Accepted;
  }

  lemma AdvanceFromStart(sys: System, db: Database, now: nat, request: Request, tx: Tx, row: nat)
    requires tx.phase.Starting?
    ensures AdvanceTx(sys, db, now, request, tx, row) == Begin(sys, db, request, tx)
  {
  }

  lemma {:induction false} RunTracks(sys: System, states: seq<State>, k: nat, original: Id)
    requires IsRun(sys, states) && k < |states|
    ensures Tracked(sys, states[0].db, states[k], original)
  {
    if k == 0 {
      InitialIsSound(sys, states[0]);
    } else {
      RunTracks(sys, states, k - 1, original);
      assert Follows(sys, states[k - 1], states[k - 1 + 1]);
      var e :| Next(sys, states[k - 1], e, states[k]);
      NextTracks(sys, states[0].db, states[k - 1], e, states[k], original);
    }
  }

  // ---- Plans of reversals ----------------------------------------------------

  /** The plan a reversal or refund makes from the rows that are there. */
  function Planned(sys: System, db: Database, request: Request): Result<Plan, Refusal>
    requires !request.Posting?
  {
    match request
    case FullReversal(_, original, _, _) => PlanReversal(db.entries, original, sys.platformCash)
    case PartialRefund(_, original, _, _, refundAmount, policy, originalFee) =>
      PlanRefund(db.entries, original, sys.platformCash, refundAmount, policy, originalFee)
  }

  /** Only the original's rows matter to the plan. */
  lemma PlannedByOriginals(sys: System, db: Database, db': Database, request: Request)
    requires !request.Posting?
    requires OriginalsOf(db.entries, request.original) == OriginalsOf(db'.entries, request.original)
    ensures Planned(sys, db, request) == Planned(sys, db', request)
  {
    hide OriginalsOf, DeriveOriginalAmount, Mirror, RefundLines, FeeRefund;
  }

  lemma BeginPlans(sys: System, db: Database, request: Request, tx: Tx)
    requires !request.Posting? && tx.phase.Starting?
    ensures
      var tx' := Begin(sys, db, request, tx);
      && !PastLocking(tx') && !tx'.phase.Committed?
      && (InTransaction(tx') ==> Planned(sys, db, request) == Ok(tx'.plan))
  {
    hide Duplicate, Mirror, RefundLines, FeeRefund;
  }
}
