/**
 The amount a transaction has, derived from the rows posted under its id
 (src/reversals/reversals.service.ts:64-74), along a run in which more rows may
 be posted under the same id: when it grows, when it drops, and its peak.
 */
module OriginalAmounts {
  import opened Money
  import opened Sums
  import opened Ledger
  import opened Reversals
  import opened Engine

  function OriginalAmount(sys: System, db: Database, original: Id): (amount: int)
    ensures 0 <= amount
  {
    DeriveOriginalAmount(OriginalsOf(db.entries, original), sys.platformCash)
  }

  // ---- Further rows ----------------------------------------------------------

  lemma {:induction false} NotOnConcat(a: seq<Entry>, b: seq<Entry>, account: Option<Id>)
    ensures NotOn(a + b, account) == NotOn(a, account) + NotOn(b, account)
  {
    if |b| == 0 {
      assert a + b == a;
    } else {
      assert (a + b)[..|a + b| - 1] == a + b[..|b| - 1];
      NotOnConcat(a, b[..|b| - 1], account);
    }
  }

  lemma {:induction false} LargestOfBoth(a: seq<Entry>, b: seq<Entry>)
    ensures LargestAmount(a + b) == if LargestAmount(a) <= LargestAmount(b) then LargestAmount(b) else LargestAmount(a)
  {
    if |b| == 0 {
      assert a + b == a;
    } else {
      assert (a + b)[..|a + b| - 1] == a + b[..|b| - 1];
      LargestOfBoth(a, b[..|b| - 1]);
    }
  }

  /**
   Exactly when further rows lower the amount derived: all rows so far are on
   platform cash, and of the new ones those that are not are all smaller.
   */
  lemma AmountDropsIff(rows: seq<Entry>, more: seq<Entry>, platformCash: Option<Id>)
    ensures DeriveOriginalAmount(rows + more, platformCash) < DeriveOriginalAmount(rows, platformCash) <==>
            && NotOn(rows, platformCash) == [] && NotOn(more, platformCash) != []
            && LargestAmount(NotOn(more, platformCash)) < LargestAmount(rows)
  {
    hide LargestAmount, NotOn;
    NotOnConcat(rows, more, platformCash);
    LargestOfBoth(NotOn(rows, platformCash), NotOn(more, platformCash));
    LargestOfBoth(rows, more);
    assert [] + NotOn(more, platformCash) == NotOn(more, platformCash);
  }

  /** The rows, if any, include one that is not on platform cash. */
  predicate OffCash(rows: seq<Entry>, platformCash: Option<Id>) {
    rows == [] || NotOn(rows, platformCash) != []
  }

  lemma OffCashGrows(rows: seq<Entry>, more: seq<Entry>, platformCash: Option<Id>)
    requires OffCash(rows, platformCash) && OffCash(more, platformCash)
    ensures OffCash(rows + more, platformCash)
    ensures DeriveOriginalAmount(rows, platformCash) <= DeriveOriginalAmount(rows + more, platformCash)
  {
    hide DeriveOriginalAmount;
    NotOnConcat(rows, more, platformCash);
    AmountDropsIff(rows, more, platformCash);
    if rows == [] {
      NothingAmountsToNothing(platformCash);
    }
  }

  lemma NothingAmountsToNothing(platformCash: Option<Id>)
    ensures DeriveOriginalAmount([], platformCash) == 0
  {
  }

  // ---- Along a run -----------------------------------------------------------

  predicate LinesOffCash(lines: seq<Line>, platformCash: Option<Id>) {
    lines == [] || exists k :: 0 <= k < |lines| && Some(lines[k].account) != platformCash
  }

  /** What was posted under the id before the run, and each journal the run posts under it, has a line off platform cash. */
  ghost predicate PostsOffCash(sys: System, start: Database, original: Id) {
    && OffCash(OriginalsOf(start.entries, original), sys.platformCash)
    && forall i :: 0 <= i < |sys.requests| && ReferenceId(sys.requests[i]) == original ==>
         sys.requests[i].Posting? && LinesOffCash(sys.requests[i].lines, sys.platformCash)
  }

  lemma InsertedOffCash(sys: System, request: Request, tx: Tx)
    requires TxOk(request, tx) && tx.phase.Committing? && request.Posting?
    requires LinesOffCash(request.lines, sys.platformCash)
    ensures OffCash(tx.inserted, sys.platformCash)
  {
    hide Accepted, NotOn;
    if request.lines != [] {
      var k :| 0 <= k < |request.lines| && Some(request.lines[k].account) != sys.platformCash;
      assert tx.inserted[k] in tx.inserted;
      assert tx.inserted[k] in NotOn(tx.inserted, sys.platformCash);
    }
  }

  /** A commit leaves a transaction off platform cash there, and never lowers its amount. */
  lemma CommitOffCash(sys: System, start: Database, s: State, i: nat, original: Id)
    requires Sound(sys, s) && i < |s.txs| && s.txs[i].phase.Committing? && PostsOffCash(sys, start, original)
    requires OffCash(OriginalsOf(s.db.entries, original), sys.platformCash)
    ensures
      var db' := AdvanceDb(s.db, s.txs[i]);
      && OffCash(OriginalsOf(db'.entries, original), sys.platformCash)
      && OriginalAmount(sys, s.db, original) <= OriginalAmount(sys, db', original)
  {
    hide OriginalsOf, DeriveOriginalAmount, NotOn, LocksExclusive, RowsExclusive, TxOk, LinesOffCash;
    CommitAddsOriginals(sys, s, i, original);
    var rows, inserted := OriginalsOf(s.db.entries, original), s.txs[i].inserted;
    if ReferenceId(sys.requests[i]) == original {
      assert TxOk(sys.requests[i], s.txs[i]);
      InsertedOffCash(sys, sys.requests[i], s.txs[i]);
      OffCashGrows(rows, inserted, sys.platformCash);
    } else {
      assert rows + [] == rows;
    }
  }

  /** New rows never lower the amount of a transaction posted once. */
  lemma CommitPostedOnce(sys: System, start: Database, s: State, i: nat, original: Id)
    requires i < |s.txs| && s.txs[i].phase.Committing?
    requires Tracked(sys, start, s, original) && PostedOnce(sys, start, original)
    ensures
      var db' := AdvanceDb(s.db, s.txs[i]);
      && OriginalAmount(sys, s.db, original) <= OriginalAmount(sys, db', original)
      && (0 < OriginalAmount(sys, s.db, original) ==>
            OriginalAmount(sys, db', original) == OriginalAmount(sys, s.db, original))
  {
    hide OriginalsOf, Tracked, PostedOnce;
    OriginalsSettle(sys, start, s, i, original);
    assert OriginalsOf(s.db.entries, original) == [] ==> OriginalAmount(sys, s.db, original) == 0;
  }

  /** Only a commit changes the rows. */
  lemma OnlyCommitsPost(sys: System, s: State, e: Event, s': State)
    requires |s.txs| == |sys.requests| && Next(sys, s, e, s')
    ensures s'.db == s.db ||
            (e.Advance? && e.i < |s.txs| && s.txs[e.i].phase.Committing? && s'.db == AdvanceDb(s.db, s.txs[e.i]))
  {
    hide AdvanceTx, Enabled;
  }

  lemma StartsOffCash(sys: System, start: Database, original: Id)
    requires PostsOffCash(sys, start, original)
    ensures OffCash(OriginalsOf(start.entries, original), sys.platformCash)
  {
  }

  lemma {:induction false} AmountGrowsOffCash(sys: System, states: seq<State>, m: nat, k: nat, original: Id)
    requires IsRun(sys, states) && m <= k < |states| && PostsOffCash(sys, states[0].db, original)
    ensures OffCash(OriginalsOf(states[k].db.entries, original), sys.platformCash)
    ensures OriginalAmount(sys, states[m].db, original) <= OriginalAmount(sys, states[k].db, original)
  {
    hide OriginalsOf, OriginalAmount, OffCash, Next, AdvanceDb, Sound;
    if k > 0 {
      var s, s' := states[k - 1], states[k - 1 + 1];
      AmountGrowsOffCash(sys, states, if m < k then m else k - 1, k - 1, original);
      RunIsSound(sys, states, k - 1);
      assert Follows(sys, s, s');
      var e :| Next(sys, s, e, s');
      OnlyCommitsPost(sys, s, e, s');
      if s'.db != s.db {
        CommitOffCash(sys, states[0].db, s, e.i, original);
      }
    } else {
      StartsOffCash(sys, states[0].db, original);
    }
  }

  lemma {:induction false} AmountGrowsPostedOnce(sys: System, states: seq<State>, m: nat, k: nat, original: Id)
    requires IsRun(sys, states) && m <= k < |states| && PostedOnce(sys, states[0].db, original)
    ensures OriginalAmount(sys, states[m].db, original) <= OriginalAmount(sys, states[k].db, original)
    ensures 0 < OriginalAmount(sys, states[m].db, original) ==>
              OriginalAmount(sys, states[k].db, original) == OriginalAmount(sys, states[m].db, original)
  {
    hide OriginalAmount, Next, AdvanceDb, Sound, PostedOnce, Tracked;
    if m < k {
      var s, s' := states[k - 1], states[k - 1 + 1];
      AmountGrowsPostedOnce(sys, states, m, k - 1, original);
      RunTracks(sys, states, k - 1, original);
      assert Follows(sys, s, s');
      var e :| Next(sys, s, e, s');
      OnlyCommitsPost(sys, s, e, s');
      if s'.db != s.db {
        CommitPostedOnce(sys, states[0].db, s, e.i, original);
      }
    }
  }

  predicate Within(amount: int, low: int, high: int) {
    amount == 0 || low <= amount <= high
  }

  /** What the transaction amounted to in the states up to `k`. */
  ghost predicate AmountsWithin(sys: System, states: seq<State>, k: nat, original: Id, low: int, high: int)
    requires k < |states|
  {
    forall m :: 0 <= m <= k ==> Within(OriginalAmount(sys, states[m].db, original), low, high)
  }

  /** A transaction posted once has one amount, from when it has one. */
  lemma OneAmount(sys: System, states: seq<State>, k: nat, original: Id)
    requires IsRun(sys, states) && k < |states| && PostedOnce(sys, states[0].db, original)
    ensures
      var amount := OriginalAmount(sys, states[k].db, original);
      && AmountsWithin(sys, states, k, original, amount, amount)
      && OriginalAmount(sys, states[0].db, original) <= amount
  {
    hide OriginalAmount, IsRun, PostedOnce;
    var amount := OriginalAmount(sys, states[k].db, original);
    forall m | 0 <= m <= k ensures Within(OriginalAmount(sys, states[m].db, original), amount, amount) {
      AmountGrowsPostedOnce(sys, states, m, k, original);
    }
    AmountGrowsPostedOnce(sys, states, 0, k, original);
  }

  /** The largest amount the transaction had in the states up to `k`. */
  ghost function PeakAmount(sys: System, states: seq<State>, k: nat, original: Id): int
    requires k < |states|
  {
    var amount := OriginalAmount(sys, states[k].db, original);
    if k == 0 then amount
    else
      var before := PeakAmount(sys, states, k - 1, original);
      if before < amount then amount else before
  }

  lemma {:induction false} PeakIsLargest(sys: System, states: seq<State>, k: nat, original: Id)
    requires k < |states|
    ensures forall m :: 0 <= m <= k ==>
              OriginalAmount(sys, states[m].db, original) <= PeakAmount(sys, states, k, original)
    ensures exists m :: 0 <= m <= k && OriginalAmount(sys, states[m].db, original) == PeakAmount(sys, states, k, original)
  {
    hide OriginalAmount;
    if k > 0 {
      PeakIsLargest(sys, states, k - 1, original);
    } else {
      assert OriginalAmount(sys, states[0].db, original) == PeakAmount(sys, states, 0, original);
    }
  }

  lemma WithinThePeak(sys: System, states: seq<State>, k: nat, original: Id)
    requires k < |states|
    ensures AmountsWithin(sys, states, k, original, 0, PeakAmount(sys, states, k, original))
    ensures OriginalAmount(sys, states[0].db, original) <= PeakAmount(sys, states, k, original)
  {
    hide PeakAmount, OriginalAmount;
    PeakIsLargest(sys, states, k, original);
  }

  // ---- Two journals under one id ---------------------------------------------

  function Transfer(payer: Id, payee: Id, amount: nat, currency: string): seq<Line> {
    [Line(payer, Debit, amount as real, currency, ""), Line(payee, Credit, amount as real, currency, "")]
  }

  function Posted(journalId: Id, original: Id, lines: seq<Line>): seq<Entry> {
    StoredAll(journalId, 0, P2pTransfer, original, lines)
  }

  lemma TransferPosted(journalId: Id, original: Id, payer: Id, payee: Id, amount: nat, currency: string, cash: Option<Id>)
    requires amount > 0
    ensures Accepted(Transfer(payer, payee, amount, currency))
    ensures
      var rows := Posted(journalId, original, Transfer(payer, payee, amount, currency));
      && OriginalsOf(rows, original) == rows && LargestAmount(rows) == amount
      && NotOn(rows, cash) == (if Some(payer) != cash then rows[..1] else [])
                            + (if Some(payee) != cash then rows[1..] else [])
      && LargestAmount(rows[..1]) == amount && LargestAmount(rows[1..]) == amount
  {
    var lines := Transfer(payer, payee, amount, currency);
    var rows := Posted(journalId, original, lines);
    RoundWhole(amount);
    TwoLinesBalance(lines, amount, amount);
    AllOrNone(rows, original, original);
    assert rows[..1][..0] == [] && rows[..2] == rows && rows[1..][..0] == [];
    assert rows == rows[..1] + rows[1..];
    NotOnConcat(rows[..1], rows[1..], cash);
    LargestOfBoth(rows[..1], rows[1..]);
  }

  /** What a transfer between two accounts off platform cash, or one within it, amounts to. */
  lemma TransferAmounts(journalId: Id, original: Id, payer: Id, payee: Id, amount: nat, currency: string, cash: Option<Id>)
    requires amount > 0 && (Some(payer) == cash <==> Some(payee) == cash)
    ensures
      var rows := Posted(journalId, original, Transfer(payer, payee, amount, currency));
      && NotOn(rows, cash) == (if Some(payer) == cash then [] else rows)
      && DeriveOriginalAmount(rows, cash) == amount
  {
    hide NotOn, LargestAmount;
    TransferPosted(journalId, original, payer, payee, amount, currency, cash);
  }

  /** Two transfers under one id, the second one larger. */
  lemma TransfersGrow(original: Id, platformCash: Option<Id>, payer: Id, payee: Id, currency: string,
                      amount: nat, more: nat)
    requires amount > 0 && Some(payer) != platformCash && Some(payee) != platformCash
    ensures
      var first, second := Transfer(payer, payee, amount, currency), Transfer(payer, payee, amount + more, currency);
      var before := Posted("first", original, first);
      var after := before + Posted("second", original, second);
      var plan := PlanReversal(before, original, platformCash);
      && Accepted(first) && Accepted(second) && plan.Ok? && plan.value.originalAmount == amount
      && DeriveOriginalAmount(OriginalsOf(after, original), platformCash) == amount + more
  {
    hide NotOn, LargestAmount, OriginalsOf, Accepted, Posted, Transfer, Mirror;
    TransferPosted("first", original, payer, payee, amount, currency, platformCash);
    TransferPosted("second", original, payer, payee, amount + more, currency, platformCash);
    TransferAmounts("first", original, payer, payee, amount, currency, platformCash);
    TransferAmounts("second", original, payer, payee, amount + more, currency, platformCash);
    var before, added := Posted("first", original, Transfer(payer, payee, amount, currency)),
                         Posted("second", original, Transfer(payer, payee, amount + more, currency));
    OriginalsConcat(before, added, original);
    NotOnConcat(before, added, platformCash);
    LargestOfBoth(before, added);
  }
}
