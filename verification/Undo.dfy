/** A full reversal undoes its transaction (src/reversals/reversals.service.ts:85-95, 116-171). */
module Undo {
  import opened Money
  import opened Sums
  import opened Ledger
  import opened Reversals

  /** The ledger without the rows of one transaction. */
  function Without(entries: seq<Entry>, original: Id): seq<Entry> {
    if |entries| == 0 then []
    else
      var front, last := Without(entries[..|entries| - 1], original), entries[|entries| - 1];
      if last.referenceId == original then front else front + [last]
  }

  function StoredMirror(originals: seq<Entry>, journalId: Id, effectiveDate: int, reversalId: Id): seq<Entry> {
    StoredAll(journalId, effectiveDate, RefundFull, reversalId, Mirror(originals))
  }

  lemma {:induction false} BalanceParts(entries: seq<Entry>, original: Id, account: Id, currency: string)
    ensures BalanceIn(entries, account, currency)
         == BalanceIn(Without(entries, original), account, currency)
          + BalanceIn(OriginalsOf(entries, original), account, currency)
  {
    if |entries| > 0 {
      var front, last := entries[..|entries| - 1], entries[|entries| - 1];
      BalanceParts(front, original, account, currency);
      var weight := OnAccountIn(account, currency);
      if last.referenceId == original {
        TotalConcat(OriginalsOf(front, original), [last], weight);
      } else {
        TotalConcat(Without(front, original), [last], weight);
      }
      TotalSingle(last, weight);
    }
  }

  lemma {:induction false} MirrorBalance(originals: seq<Entry>, journalId: Id, effectiveDate: int, reversalId: Id,
                                         account: Id, currency: string)
    ensures BalanceIn(StoredMirror(originals, journalId, effectiveDate, reversalId), account, currency)
         == -BalanceIn(originals, account, currency)
  {
    if |originals| > 0 {
      var front, last := originals[..|originals| - 1], originals[|originals| - 1];
      var mirror := StoredMirror(originals, journalId, effectiveDate, reversalId);
      assert mirror[..|originals| - 1] == StoredMirror(front, journalId, effectiveDate, reversalId);
      MirrorBalance(front, journalId, effectiveDate, reversalId, account, currency);
      RoundWhole(last.amount);
    }
  }

  /**
   Whatever else was posted before, in between or after the original's rows,
   with the mirror appended every account has, in every currency, the balance
   it would have if the transaction had never been posted.
   */
  lemma ReversalUndoes(entries: seq<Entry>, original: Id, journalId: Id, effectiveDate: int, reversalId: Id,
                       account: Id, currency: string)
    ensures
      var mirror := StoredMirror(OriginalsOf(entries, original), journalId, effectiveDate, reversalId);
      BalanceIn(entries + mirror, account, currency) == BalanceIn(Without(entries, original), account, currency)
  {
    var originals := OriginalsOf(entries, original);
    TotalConcat(entries, StoredMirror(originals, journalId, effectiveDate, reversalId), OnAccountIn(account, currency));
    BalanceParts(entries, original, account, currency);
    MirrorBalance(originals, journalId, effectiveDate, reversalId, account, currency);
  }

  // ---- When the mirror is accepted -------------------------------------------

  function SignedAmount(): Entry -> int {
    (e: Entry) => Signed(e.entryType, e.amount)
  }

  lemma {:induction false} MirrorTotals(originals: seq<Entry>)
    ensures CreditTotal(Mirror(originals)) - DebitTotal(Mirror(originals)) == Total(originals, SignedAmount()) as real
  {
    if |originals| > 0 {
      var front := originals[..|originals| - 1];
      assert Mirror(originals)[..|originals| - 1] == Mirror(front);
      MirrorTotals(front);
    }
  }

  /** The mirror passes both checks exactly if the stored rows are positive and balanced. */
  lemma MirrorAcceptedIff(originals: seq<Entry>)
    ensures Accepted(Mirror(originals)) <==>
            (forall e :: e in originals ==> e.amount > 0) && Total(originals, SignedAmount()) == 0
  {
    MirrorTotals(originals);
    var lines := Mirror(originals);
    if AllPositive(lines) {
      forall e | e in originals ensures e.amount > 0 {
        var k :| 0 <= k < |originals| && originals[k] == e;
        assert lines[k].amount > 0.0;
      }
    }
    if forall e :: e in originals ==> e.amount > 0 {
      forall k | 0 <= k < |lines| ensures lines[k].amount > 0.0 {
        assert originals[k] in originals;
      }
    }
  }

  lemma {:induction false} StoredSum(lines: seq<Line>, journalId: Id, effectiveDate: int, kind: TransactionType, referenceId: Id)
    ensures Total(StoredAll(journalId, effectiveDate, kind, referenceId, lines), SignedAmount()) as real
         == DebitTotal(lines) - CreditTotal(lines) + RoundingError(lines, Debit) - RoundingError(lines, Credit)
  {
    if |lines| > 0 {
      hide RoundHalfUp;
      var front := lines[..|lines| - 1];
      var rows := StoredAll(journalId, effectiveDate, kind, referenceId, lines);
      assert rows[..|lines| - 1] == StoredAll(journalId, effectiveDate, kind, referenceId, front);
      StoredSum(front, journalId, effectiveDate, kind, referenceId);
    }
  }

  /**
   Exactly which accepted journals can be reversed: those whose rounding errors
   cancel and whose every amount is at least half a tick.
   */
  lemma AcceptedCanBeMirroredIff(lines: seq<Line>, journalId: Id, effectiveDate: int,
                                 kind: TransactionType, referenceId: Id)
    requires Accepted(lines)
    ensures Accepted(Mirror(StoredAll(journalId, effectiveDate, kind, referenceId, lines))) <==>
            && (forall l :: l in lines ==> 0.5 <= l.amount)
            && RoundingError(lines, Debit) == RoundingError(lines, Credit)
  {
    hide Mirror, RoundingError, Total;
    var rows := StoredAll(journalId, effectiveDate, kind, referenceId, lines);
    StoredSum(lines, journalId, effectiveDate, kind, referenceId);
    MirrorAcceptedIff(rows);
    forall k | 0 <= k < |lines| ensures lines[k] in lines && rows[k] in rows {
    }
    forall e | e in rows ensures exists k :: 0 <= k < |rows| && e == rows[k] {
    }
    assert (forall e :: e in rows ==> e.amount > 0) <==> (forall k :: 0 <= k < |lines| ==> 0.5 <= lines[k].amount);
  }

  /** Every journal that was accepted with amounts of at most four decimals can be mirrored. */
  lemma AcceptedJournalsCanBeMirrored(lines: seq<Line>, journalId: Id, effectiveDate: int,
                                      kind: TransactionType, referenceId: Id)
    requires Accepted(lines) && WholeAmounts(lines)
    ensures Accepted(Mirror(StoredAll(journalId, effectiveDate, kind, referenceId, lines)))
  {
    hide Mirror;
    forall l | l in lines ensures 0.5 <= l.amount {
      assert 0.0 < l.amount;
    }
    WholeHasNoError(lines, Debit);
    WholeHasNoError(lines, Credit);
    AcceptedCanBeMirroredIff(lines, journalId, effectiveDate, kind, referenceId);
  }

  /** With finer amounts an accepted journal can become one that cannot be reversed. */
  lemma FineJournalsCannotBeMirrored(a: Id, b: Id, currency: string, journalId: Id, effectiveDate: int,
                                     kind: TransactionType, referenceId: Id)
    ensures
      var lines := [Line(a, Debit, 0.4, currency, ""), Line(b, Credit, 0.4, currency, "")];
      Accepted(lines) && !Accepted(Mirror(StoredAll(journalId, effectiveDate, kind, referenceId, lines)))
  {
    var x, y := Line(a, Debit, 0.4, currency, ""), Line(b, Credit, 0.4, currency, "");
    var none: seq<Line> := [];
    assert [x, y] == none + [x] + [y];
    OneMoreLine(none, x, currency);
    OneMoreLine(none + [x], y, currency);
    assert Accepted([x, y]);
    hide Accepted, Mirror;
    var rows := StoredAll(journalId, effectiveDate, kind, referenceId, [x, y]);
    assert RoundHalfUp(0.4) == 0 && rows[0].amount == 0 && rows[0] in rows;
    MirrorAcceptedIff(rows);
  }
}
