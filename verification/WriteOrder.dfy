/**
 What two writers of a run exclude: those that insert after the same head row
 (src/ledger/ledger.repository.ts:64-76), and those that record a reversal of one
 transaction under one idempotency key (the unique index of
 prisma/schema.prisma:442).
 */
module WriteOrder {
  import opened Money
  import opened Ledger
  import opened LockKeys
  import opened Reversals
  import opened Engine

  // ---- The head row ----------------------------------------------------------

  predicate Inserts(tx: Tx) {
    tx.phase.Inserting? || tx.phase.Recording? || tx.phase.Committing?
  }

  /** On a ledger that has rows, whoever inserts holds the lock of a row. */
  ghost predicate HeadsHeld(s: State) {
    && s.db.entries != []
    && (forall i :: 0 <= i < |s.txs| && Inserts(s.txs[i]) ==> s.txs[i].row.Some?)
  }

  lemma InsertsAfterTheHead(sys: System, db: Database, now: nat, request: Request, tx: Tx, row: nat)
    requires db.entries != [] && (Inserts(tx) ==> tx.row.Some?)
    ensures
      var tx' := AdvanceTx(sys, db, now, request, tx, row);
      && (Inserts(tx') ==> tx'.row.Some?)
      && (Inserts(tx') && !Inserts(tx) ==> tx.phase.AwaitingRow? && tx'.row == Some(tx.phase.wanted))
  {
    hide Keys, Insufficient, TooLarge, WindowExceeded, AlreadyReversed, FullyReversed, DeriveOriginalAmount,
      OriginalsOf, OverLimit, Duplicate, NewReversal, NewEntry, Accepted, PlanReversal, PlanRefund;
  }

  lemma NextHoldsHeads(sys: System, s: State, e: Event, s': State)
    requires |s.txs| == |sys.requests| && HeadsHeld(s) && Next(sys, s, e, s')
    ensures HeadsHeld(s')
  {
    hide AdvanceTx, Enabled;
    match e
    case Advance(i, row) =>
      InsertsAfterTheHead(sys, s.db, s.now, sys.requests[i], s.txs[i], row);
      assert |s'.db.entries| >= |s.db.entries|;
    case Conflict(i) =>
    case Abort(i) =>
    case Tick(_) =>
  }

  /**
   In every state of a run on a ledger that has rows, of two requests that insert
   at the same time each holds a row, and not the same one: those that found one
   head insert one after the other.
   */
  lemma {:induction false} OneInsertsAfterAHead(sys: System, states: seq<State>, k: nat)
    requires IsRun(sys, states) && k < |states| && states[0].db.entries != []
    ensures HeadsHeld(states[k])
    ensures forall i, j ::
              && 0 <= i < |sys.requests| && 0 <= j < |sys.requests| && i != j
              && Inserts(states[k].txs[i]) && Inserts(states[k].txs[j])
              ==> states[k].txs[i].row != states[k].txs[j].row
  {
    hide Next, TxOk, LocksExclusive;
    RunIsSound(sys, states, k);
    if k > 0 {
      OneInsertsAfterAHead(sys, states, k - 1);
      assert Follows(sys, states[k - 1], states[k - 1 + 1]);
      var e :| Next(sys, states[k - 1], e, states[k]);
      NextHoldsHeads(sys, states[k - 1], e, states[k]);
    } else {
      assert forall i :: 0 <= i < |states[0].txs| ==> states[0].txs[i] == Fresh;
    }
  }

  // ---- One record per key ----------------------------------------------------

  ghost predicate KeysUnique(reversals: seq<Reversal>) {
    forall p, q :: 0 <= p < q < |reversals| ==>
      reversals[p].original != reversals[q].original || reversals[p].idempotencyKey != reversals[q].idempotencyKey
  }

  /** Nobody who is about to commit a record has one of its key before it. */
  ghost predicate KeysFresh(sys: System, s: State) {
    && Sound(sys, s) && KeysUnique(s.db.reversals)
    && (forall i :: 0 <= i < |s.txs| && s.txs[i].phase.Committing? && !sys.requests[i].Posting? ==>
          !Duplicate(s.db.reversals, sys.requests[i].original, sys.requests[i].idempotencyKey))
  }

  lemma RecordingChecks(sys: System, db: Database, now: nat, request: Request, tx: Tx, row: nat)
    requires !request.Posting? && AdvanceTx(sys, db, now, request, tx, row).phase.Committing?
    ensures tx.phase.Recording? && !Duplicate(db.reversals, request.original, request.idempotencyKey)
  {
    hide Keys, Insufficient, TooLarge, WindowExceeded, AlreadyReversed, FullyReversed, DeriveOriginalAmount,
      OriginalsOf, OverLimit, NewReversal, NewEntry, Accepted, PlanReversal, PlanRefund, Duplicate;
  }

  lemma RecordedRow(request: Request, tx: Tx)
    requires TxOk(request, tx) && tx.phase.Committing?
    ensures request.Posting? ==> tx.recorded == []
    ensures !request.Posting? ==>
              |tx.recorded| == 1 && tx.recorded[0].original == request.original
              && tx.recorded[0].idempotencyKey == request.idempotencyKey
  {
    hide NewEntries, Accepted;
  }

  lemma CommitKeepsKeys(sys: System, s: State, i: nat, j: nat)
    requires KeysFresh(sys, s) && i < |s.txs| && s.txs[i].phase.Committing? && j < |s.txs|
    ensures KeysUnique(s.db.reversals + s.txs[i].recorded)
    ensures j != i && s.txs[j].phase.Committing? && !sys.requests[j].Posting? ==>
              !Duplicate(s.db.reversals + s.txs[i].recorded, sys.requests[j].original, sys.requests[j].idempotencyKey)
  {
    hide TxOk, LocksExclusive, RowsExclusive;
    var request, tx := sys.requests[i], s.txs[i];
    assert TxOk(request, tx);
    RecordedRow(request, tx);
    if !request.Posting? {
      assert !Duplicate(s.db.reversals, request.original, request.idempotencyKey);
      if j != i && s.txs[j].phase.Committing? && !sys.requests[j].Posting? && sys.requests[j].original == request.original {
        LockedTogether(sys, s, i, j, request.original);
      }
    } else {
      assert s.db.reversals + [] == s.db.reversals;
    }
  }

  lemma AdvanceKeepsKeys(sys: System, s: State, i: nat, row: nat)
    requires KeysFresh(sys, s) && i < |s.txs| && Sound(sys, AdvanceState(sys, s, i, row))
    ensures KeysFresh(sys, AdvanceState(sys, s, i, row))
  {
    hide AdvanceTx, TxOk, LocksExclusive, RowsExclusive, Duplicate, KeysUnique;
    var s' := AdvanceState(sys, s, i, row);
    forall j | 0 <= j < |s.txs| && s'.txs[j].phase.Committing? && !sys.requests[j].Posting?
      ensures !Duplicate(s'.db.reversals, sys.requests[j].original, sys.requests[j].idempotencyKey)
    {
      if j == i {
        RecordingChecks(sys, s.db, s.now, sys.requests[i], s.txs[i], row);
      } else if s.txs[i].phase.Committing? {
        CommitKeepsKeys(sys, s, i, j);
      }
    }
    if s.txs[i].phase.Committing? {
      CommitKeepsKeys(sys, s, i, i);
    }
  }

  lemma NextKeepsKeys(sys: System, s: State, e: Event, s': State)
    requires KeysFresh(sys, s) && Next(sys, s, e, s')
    ensures KeysFresh(sys, s')
  {
    hide TxOk, LocksExclusive, RowsExclusive, AdvanceState, Duplicate, KeysUnique;
    NextIsSound(sys, s, e, s');
    match e
    case Advance(i, row) => AdvanceKeepsKeys(sys, s, i, row);
    case Conflict(i) => assert !s'.txs[i].phase.Committing?;
    case Abort(i) => assert !s'.txs[i].phase.Committing?;
    case Tick(_) =>
  }

  /** Over every run a transaction has at most one reversal under each idempotency key, however requests race. */
  lemma {:induction false} KeysAreRecordedOnce(sys: System, states: seq<State>, k: nat)
    requires IsRun(sys, states) && k < |states| && KeysUnique(states[0].db.reversals)
    ensures KeysFresh(sys, states[k])
    ensures KeysUnique(states[k].db.reversals)
  {
    hide Next, TxOk, LocksExclusive, RowsExclusive, KeysUnique;
    if k == 0 {
      InitialIsSound(sys, states[0]);
      assert forall i :: 0 <= i < |states[0].txs| ==> states[0].txs[i] == Fresh;
    } else {
      KeysAreRecordedOnce(sys, states, k - 1);
      assert Follows(sys, states[k - 1], states[k - 1 + 1]);
      var e :| Next(sys, states[k - 1], e, states[k]);
      NextKeepsKeys(sys, states[k - 1], e, states[k]);
    }
  }
}
