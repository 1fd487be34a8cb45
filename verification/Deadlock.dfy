/**
 Deadlock freedom and termination of the posting engine: advisory locks are
 taken in ascending key order, and the row of the chain head only after all of
 them (src/database/database.service.ts:223-245, src/ledger/ledger.service.ts:109-125,
 src/ledger/ledger.repository.ts:64-76, src/reversals/reversals.service.ts:151-171).
 */
module Deadlock {
  import opened Money
  import opened Sums
  import opened LockKeys
  import opened Ledger
  import opened Reversals
  import opened Engine

  /** Ids that are locked together have the form in which the database gives uuids; one alone may have any. */
  ghost predicate CanonicalIds(sys: System) {
    forall i :: 0 <= i < |sys.requests| && |LockIds(sys.requests[i])| > 1 ==>
      forall id :: id in LockIds(sys.requests[i]) ==> IsCanonical(id)
  }

  ghost predicate CanStep(sys: System, s: State, i: nat) {
    |s.txs| == |sys.requests| && i < |s.txs| && !Finished(s.txs[i]) && Enabled(sys, s, i)
  }

  // ---- Some unfinished transaction is not blocked ----------------------------

  function MaxKey(): nat {
    Pow16(15)
  }

  lemma {:induction false} ShorterIsSmaller(m: nat, n: nat)
    requires m <= n
    ensures Pow16(m) <= Pow16(n)
  {
    if m < n {
      ShorterIsSmaller(m, n - 1);
    }
  }

  lemma KeysAreBounded(request: Request, k: nat)
    requires k < |Keys(request)|
    ensures Keys(request)[k] < MaxKey()
  {
    hide Pow16, HexNumber, WithoutDashes, LockIds, Sort;
    var id := Sort(LockIds(request))[k];
    ShorterIsSmaller(|First15(WithoutDashes(id))|, 15);
  }

  /** Whoever holds a key and waits for another one waits for a larger one. */
  lemma WaitsUpwards(sys: System, s: State, i: nat, key: nat, n: nat)
    requires Sound(sys, s) && CanonicalIds(sys) && i < |s.txs|
    requires Holds(sys.requests[i], s.txs[i], key)
    requires s.txs[i].phase == Locking(n) && n < |Keys(sys.requests[i])|
    ensures key <= Keys(sys.requests[i])[n]
  {
    hide KeysToLock, LockIds;
    var k :| 0 <= k < HeldCount(sys.requests[i], s.txs[i]) && Keys(sys.requests[i])[k] == key;
    KeysAscend(LockIds(sys.requests[i]));
  }

  /** Follow the chain of blockers; the keys waited for grow, so it ends at one that can step. */
  lemma {:induction false} FindRunnable(sys: System, s: State, i: nat) returns (r: nat)
    requires Sound(sys, s) && CanonicalIds(sys)
    requires i < |s.txs| && !Finished(s.txs[i])
    ensures CanStep(sys, s, r)
    decreases
      if s.txs[i].phase.AwaitingRow? then 0 else 1,
      if s.txs[i].phase.Locking? && s.txs[i].phase.n < |Keys(sys.requests[i])|
      then MaxKey() - Keys(sys.requests[i])[s.txs[i].phase.n] else 0
  {
    hide KeysToLock, LockIds, Pow16;
    var request, tx := sys.requests[i], s.txs[i];
    if Enabled(sys, s, i) {
      return i;
    }
    if tx.phase.AwaitingRow? {
      var j :| 0 <= j < |s.txs| && j != i && s.txs[j].row == Some(tx.phase.wanted);
      assert TxOk(sys.requests[j], s.txs[j]);
      return j;
    }
    var n := tx.phase.n;
    var key := Keys(request)[n];
    KeysAreBounded(request, n);
    var j :| 0 <= j < |s.txs| && j != i && Holds(sys.requests[j], s.txs[j], key);
    var other := s.txs[j];
    if other.phase.Locking? && other.phase.n < |Keys(sys.requests[j])| {
      WaitsUpwards(sys, s, j, key, other.phase.n);
      KeysAreBounded(sys.requests[j], other.phase.n);
      if Keys(sys.requests[j])[other.phase.n] == key {
        OwnKeysDoNotBlock(sys, s, j, key);
        return j;
      }
    }
    r := FindRunnable(sys, s, j);
  }

  /** The lock is re-entrant: a key already held is granted again. */
  lemma OwnKeysDoNotBlock(sys: System, s: State, j: nat, key: nat)
    requires Sound(sys, s) && j < |s.txs| && Holds(sys.requests[j], s.txs[j], key)
    ensures KeyFree(sys, s, j, key)
  {
  }

  /** In every reachable state with unfinished work some transaction can take its next step. */
  lemma NoDeadlock(sys: System, states: seq<State>, k: nat)
    requires IsRun(sys, states) && k < |states| && CanonicalIds(sys)
    requires exists i :: 0 <= i < |states[k].txs| && !Finished(states[k].txs[i])
    ensures exists r: nat :: CanStep(sys, states[k], r)
  {
    RunIsSound(sys, states, k);
    var i :| 0 <= i < |states[k].txs| && !Finished(states[k].txs[i]);
    var r := FindRunnable(sys, states[k], i);
  }

  // ---- Every step makes progress ---------------------------------------------

  function StatementsLeft(request: Request, tx: Tx): (n: nat)
    ensures Finished(tx) || tx.phase.Starting? <==> n == 0
  {
    var lines := |tx.plan.lines|;
    var checks := if request.Posting? then 2 * |request.limitChecks| else 0;
    var balances := if request.Posting? then |request.checkBalanceOn| else 0;
    match tx.phase
    case Locking(k) =>
      lines + 8 + checks + balances + (if k < |Keys(request)| then |Keys(request)| - k else 0)
    case CheckingBalance(k) => lines + 7 + checks + (if k < balances then balances - k else 0)
    case CheckingDay(k) => lines + 6 + (if 2 * k < checks then checks - 2 * k else 0)
    case CheckingMonth(k) => lines + 5 + (if 2 * k < checks then checks - 2 * k else 0)
    case CheckingReversals => lines + 7
    case CheckingCap => lines + 6
    case ReadingHead => lines + 5
    case AwaitingRow(_) => lines + 4
    case Inserting(k) => 3 + (if k < lines then lines - k else 0)
    case Recording => 2
    case Committing => 1
    case _ => 0
  }

  datatype Job = Job(request: Request, tx: Tx)

  function Jobs(sys: System, s: State): (jobs: seq<Job>)
    requires |s.txs| == |sys.requests|
    ensures |jobs| == |s.txs|
    ensures forall i :: 0 <= i < |jobs| ==> jobs[i] == Job(sys.requests[i], s.txs[i])
  {
    seq(|s.txs|, i requires 0 <= i < |s.txs| => Job(sys.requests[i], s.txs[i]))
  }

  function NotBegun(): Job -> int {
    (j: Job) => if j.tx.phase.Starting? then 1 else 0
  }

  function RetriesLeft(): Job -> int {
    (j: Job) => if j.tx.attempt < MAX_RETRIES then MAX_RETRIES - j.tx.attempt else 0
  }

  function Statements(): Job -> int {
    (j: Job) => StatementsLeft(j.request, j.tx)
  }

  /** (requests not begun, retries left, statements left), compared lexicographically. */
  ghost predicate Less(sys: System, s': State, s: State)
    requires |s.txs| == |sys.requests| == |s'.txs|
  {
    var (a', b', c') := Measure(sys, s');
    var (a, b, c) := Measure(sys, s);
    a' < a || (a' == a && (b' < b || (b' == b && c' < c)))
  }

  function Measure(sys: System, s: State): ((int, int, int))
    requires |s.txs| == |sys.requests|
  {
    (Total(Jobs(sys, s), NotBegun()), Total(Jobs(sys, s), RetriesLeft()), Total(Jobs(sys, s), Statements()))
  }

  lemma MeasureIsNatural(sys: System, s: State)
    requires |s.txs| == |sys.requests|
    ensures Measure(sys, s).0 >= 0 && Measure(sys, s).1 >= 0 && Measure(sys, s).2 >= 0
  {
    TotalNonNegative(Jobs(sys, s), NotBegun());
    TotalNonNegative(Jobs(sys, s), RetriesLeft());
    TotalNonNegative(Jobs(sys, s), Statements());
  }

  lemma MeasureAfter(sys: System, s: State, i: nat, tx': Tx, s': State)
    requires |s.txs| == |sys.requests| && i < |s.txs| && s'.txs == s.txs[i := tx']
    ensures
      var before, after := Job(sys.requests[i], s.txs[i]), Job(sys.requests[i], tx');
      Measure(sys, s') == (Measure(sys, s).0 - NotBegun()(before) + NotBegun()(after),
                           Measure(sys, s).1 - RetriesLeft()(before) + RetriesLeft()(after),
                           Measure(sys, s).2 - Statements()(before) + Statements()(after))
  {
    var after := Job(sys.requests[i], tx');
    assert Jobs(sys, s') == Jobs(sys, s)[i := after];
    TotalUpdate(Jobs(sys, s), i, after, NotBegun());
    TotalUpdate(Jobs(sys, s), i, after, RetriesLeft());
    TotalUpdate(Jobs(sys, s), i, after, Statements());
  }

  lemma AdvanceUsesAStatement(sys: System, db: Database, now: nat, request: Request, tx: Tx, row: nat)
    requires TxOk(request, tx) && !Finished(tx)
    ensures
      var tx' := AdvanceTx(sys, db, now, request, tx, row);
      && tx'.attempt == tx.attempt && !tx'.phase.Starting?
      && (tx.phase.Starting? || StatementsLeft(request, tx') < StatementsLeft(request, tx))
  {
    hide Begin, KeysToLock, Insufficient, TooLarge, WindowExceeded, AlreadyReversed, FullyReversed,
      DeriveOriginalAmount, OriginalsOf, OverLimit, Duplicate, NewReversal, NewEntry, Accepted;
    if tx.phase.Starting? {
      BeginLeavesTheStart(sys, db, request, tx);
    }
  }

  lemma BeginLeavesTheStart(sys: System, db: Database, request: Request, tx: Tx)
    ensures Begin(sys, db, request, tx).attempt == tx.attempt && !Begin(sys, db, request, tx).phase.Starting?
  {
    hide PlanReversal, PlanRefund, Duplicate, Accepted;
  }

  /** Whatever happens in a run except the passing of time, the measure goes down. */
  lemma StepsAreFinite(sys: System, s: State, e: Event, s': State)
    requires Sound(sys, s) && Next(sys, s, e, s') && !e.Tick?
    ensures Less(sys, s', s)
  {
    hide AdvanceTx, LocksExclusive, RowsExclusive, Measure;
    assert |s.txs| == |sys.requests|;
    match e
    case Advance(i, row) =>
      AdvanceUsesAStatement(sys, s.db, s.now, sys.requests[i], s.txs[i], row);
      MeasureAfter(sys, s, i, AdvanceTx(sys, s.db, s.now, sys.requests[i], s.txs[i], row), s');
    case Conflict(i) => MeasureAfter(sys, s, i, Retry(s.txs[i]), s');
    case Abort(i) => MeasureAfter(sys, s, i, Fail(s.txs[i]), s');
  }

  ghost predicate AllFinished(s: State) {
    forall i :: 0 <= i < |s.txs| ==> Finished(s.txs[i])
  }

  ghost predicate Path(sys: System, states: seq<State>) {
    && |states| > 0
    && (forall k :: 0 <= k < |states| ==> |states[k].txs| == |sys.requests|)
    && (forall k :: 0 <= k < |states| - 1 ==> Follows(sys, states[k], states[k + 1]))
  }

  /** From every reachable state the work can be finished, without conflicts or aborts being needed. */
  lemma {:induction false} EveryoneCanFinish(sys: System, s: State) returns (states: seq<State>)
    requires Sound(sys, s) && CanonicalIds(sys)
    ensures Path(sys, states) && states[0] == s
    ensures AllFinished(states[|states| - 1])
    decreases Measure(sys, s).0, Measure(sys, s).1, Measure(sys, s).2
  {
    hide AdvanceTx, AdvanceDb, TxOk, LocksExclusive, RowsExclusive, Measure, Finished, Enabled, CanonicalIds;
    if i :| 0 <= i < |s.txs| && !Finished(s.txs[i]) {
      var r := FindRunnable(sys, s, i);
      var s' := AdvanceState(sys, s, r, 0);
      assert Next(sys, s, Advance(r, 0), s');
      NextIsSound(sys, s, Advance(r, 0), s');
      StepsAreFinite(sys, s, Advance(r, 0), s');
      MeasureIsNatural(sys, s');
      MeasureIsNatural(sys, s);
      var rest := EveryoneCanFinish(sys, s');
      states := [s] + rest;
      assert Follows(sys, s, s');
      assert forall k :: 0 < k < |states| ==> states[k] == rest[k - 1];
    } else {
      states := [s];
    }
  }
}
