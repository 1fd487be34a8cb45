/**
 The foreign positions of the nightly revaluation: the grouped query of
 src/fx/fx-revaluation.service.ts:88-107.
 */
module ForeignPositions {
  import opened Money
  import opened Sums
  import opened Ledger

  const HOME := "INR"

  /** The fixed surroundings of the job. */
  datatype Desk = Desk(
    assets: set<Id>, suspense: Id, gainAccount: Option<Id>, lossAccount: Option<Id>, maxAge: int)

  datatype Position = Position(account: Id, currency: string, balance: int)

  // ---- Step 1: foreign positions ---------------------------------------------

  predicate IsForeign(desk: Desk, e: Entry) {
    e.currency != HOME && e.account in desk.assets
  }

  /** The WHERE clause of the balance query. */
  function Selected(desk: Desk, entries: seq<Entry>, asOf: int): (r: seq<Entry>)
    ensures forall e :: e in r ==> IsForeign(desk, e)
  {
    if |entries| == 0 then []
    else
      var front, last := Selected(desk, entries[..|entries| - 1], asOf), entries[|entries| - 1];
      if IsForeign(desk, last) && last.effectiveDate <= asOf then front + [last] else front
  }

  /** GROUP BY account and currency. */
  function Groups(rows: seq<Entry>): seq<Position> {
    if |rows| == 0 then []
    else
      var front, last := Groups(rows[..|rows| - 1]), rows[|rows| - 1];
      AddTo(front, last)
  }

  function AddTo(groups: seq<Position>, e: Entry): seq<Position> {
    if |groups| == 0 then [Position(e.account, e.currency, Signed(e.entryType, e.amount))]
    else if groups[0].account == e.account && groups[0].currency == e.currency
    then [groups[0].(balance := groups[0].balance + Signed(e.entryType, e.amount))] + groups[1..]
    else [groups[0]] + AddTo(groups[1..], e)
  }

  /** HAVING SUM(...) != 0. */
  function NonZero(groups: seq<Position>): seq<Position> {
    if |groups| == 0 then []
    else if groups[0].balance != 0 then [groups[0]] + NonZero(groups[1..])
    else NonZero(groups[1..])
  }

  function Positions(desk: Desk, entries: seq<Entry>, asOf: int): seq<Position> {
    NonZero(Groups(Selected(desk, entries, asOf)))
  }

  // ---- What the positions are ------------------------------------------------

  /** Debits minus credits of an account in a currency, dated up to `asOf`. */
  function BalanceUpTo(account: Id, currency: string, asOf: int): Entry -> int {
    (e: Entry) =>
      if e.account == account && e.currency == currency && e.effectiveDate <= asOf
      then (if e.entryType == Debit then e.amount else -e.amount) else 0
  }

  function ForeignBalance(entries: seq<Entry>, account: Id, currency: string, asOf: int): int {
    Total(entries, BalanceUpTo(account, currency, asOf))
  }

  predicate SameKey(p: Position, q: Position) {
    p.account == q.account && p.currency == q.currency
  }

  ghost predicate DistinctKeys(groups: seq<Position>) {
    forall j, k :: 0 <= j < k < |groups| ==> !SameKey(groups[j], groups[k])
  }

  predicate InGroup(p: Position, e: Entry) {
    p.account == e.account && p.currency == e.currency
  }

  ghost predicate HasGroup(groups: seq<Position>, e: Entry) {
    exists p :: p in groups && InGroup(p, e)
  }

  ghost predicate HasRow(rows: seq<Entry>, p: Position) {
    exists e :: e in rows && InGroup(p, e)
  }

  /** One group per account and currency of the rows, with the balance of its rows. */
  ghost predicate GroupsExact(groups: seq<Position>, rows: seq<Entry>) {
    && DistinctKeys(groups)
    && (forall p :: p in groups ==> p.balance == BalanceIn(rows, p.account, p.currency) && HasRow(rows, p))
    && (forall e :: e in rows ==> HasGroup(groups, e))
  }

  /** Where a row goes: to the end, or to the group of its key. */
  lemma {:induction false} AddedAt(groups: seq<Position>, e: Entry) returns (k: nat)
    ensures
      var after, amount := AddTo(groups, e), Signed(e.entryType, e.amount);
      && k <= |groups|
      && after == (if k < |groups| then groups[k := groups[k].(balance := groups[k].balance + amount)]
                   else groups + [Position(e.account, e.currency, amount)])
      && (if k < |groups| then InGroup(groups[k], e) else forall p :: p in groups ==> !InGroup(p, e))
  {
    if |groups| == 0 || InGroup(groups[0], e) {
      k := 0;
    } else {
      var m := AddedAt(groups[1..], e);
      k := m + 1;
      assert groups == [groups[0]] + groups[1..];
    }
  }

  lemma OneMoreInBalance(rows: seq<Entry>, e: Entry, account: Id, currency: string)
    ensures BalanceIn(rows + [e], account, currency)
         == BalanceIn(rows, account, currency)
          + (if e.account == account && e.currency == currency then Signed(e.entryType, e.amount) else 0)
  {
    assert (rows + [e])[..|rows|] == rows;
  }

  lemma GroupsGrow(groups: seq<Position>, rows: seq<Entry>, e: Entry)
    requires GroupsExact(groups, rows)
    ensures GroupsExact(AddTo(groups, e), rows + [e])
  {
    hide AddTo, BalanceIn;
    var k := AddedAt(groups, e);
    var after := AddTo(groups, e);
    assert e in rows + [e];
    forall p | p in after
      ensures p.balance == BalanceIn(rows + [e], p.account, p.currency) && HasRow(rows + [e], p)
    {
      OneMoreInBalance(rows, e, p.account, p.currency);
      var j :| 0 <= j < |after| && after[j] == p;
      if j < |groups| {
        assert groups[j] in groups && HasRow(rows, groups[j]);
        var w :| w in rows && InGroup(groups[j], w);
        assert w in rows + [e] && InGroup(p, w);
        assert j != k ==> !InGroup(p, e);
      } else {
        NoRowYet(groups, rows, e);
        assert InGroup(p, e);
      }
    }
    forall w | w in rows + [e] ensures HasGroup(after, w) {
      if w in rows {
        assert HasGroup(groups, w);
        var p :| p in groups && InGroup(p, w);
        var j :| 0 <= j < |groups| && groups[j] == p;
        assert InGroup(after[j], w) && after[j] in after;
      } else {
        assert InGroup(after[k], w) && after[k] in after;
      }
    }
  }

  lemma NoRowYet(groups: seq<Position>, rows: seq<Entry>, e: Entry)
    requires GroupsExact(groups, rows) && forall p :: p in groups ==> !InGroup(p, e)
    ensures BalanceIn(rows, e.account, e.currency) == 0
  {
    forall w | w in rows ensures OnAccountIn(e.account, e.currency)(w) == 0 {
      assert HasGroup(groups, w);
    }
    TotalZero(rows, OnAccountIn(e.account, e.currency));
  }

  lemma {:induction false} GroupsAreExact(rows: seq<Entry>)
    ensures GroupsExact(Groups(rows), rows)
  {
    if |rows| > 0 {
      hide GroupsExact, AddTo;
      var front, last := rows[..|rows| - 1], rows[|rows| - 1];
      assert rows == front + [last];
      GroupsAreExact(front);
      GroupsGrow(Groups(front), front, last);
    } else {
      assert Groups(rows) == [];
    }
  }

  lemma {:induction false} NonZeroKeeps(groups: seq<Position>)
    ensures forall p :: p in NonZero(groups) <==> p in groups && p.balance != 0
    ensures DistinctKeys(groups) ==> DistinctKeys(NonZero(groups))
  {
    if |groups| > 0 {
      NonZeroKeeps(groups[1..]);
      assert groups == [groups[0]] + groups[1..];
      if DistinctKeys(groups) {
        assert DistinctKeys(groups[1..]);
        forall p | p in NonZero(groups[1..]) ensures !SameKey(groups[0], p) {
          var k :| 0 <= k < |groups[1..]| && groups[1..][k] == p;
          assert groups[k + 1] == p;
        }
      }
    }
  }

  /** The selected rows of a foreign balance on an asset account are all its rows up to the date. */
  lemma {:induction false} SelectedBalance(desk: Desk, entries: seq<Entry>, asOf: int, account: Id, currency: string)
    requires account in desk.assets && currency != HOME
    ensures BalanceIn(Selected(desk, entries, asOf), account, currency) == ForeignBalance(entries, account, currency, asOf)
  {
    if |entries| > 0 {
      var front, last := entries[..|entries| - 1], entries[|entries| - 1];
      SelectedBalance(desk, front, asOf, account, currency);
      if IsForeign(desk, last) && last.effectiveDate <= asOf {
        OneMoreInBalance(Selected(desk, front, asOf), last, account, currency);
      }
    }
  }

  /**
   The positions of a run: at most one per account and currency, each of an asset
   account in a foreign currency with what it is debited less credited up to the
   date, which is not zero; and every such balance that is not zero has one.
   */
  lemma PositionsAreExact(desk: Desk, entries: seq<Entry>, asOf: int)
    ensures DistinctKeys(Positions(desk, entries, asOf))
    ensures forall p :: p in Positions(desk, entries, asOf) ==>
              && p.account in desk.assets && p.currency != HOME
              && p.balance == ForeignBalance(entries, p.account, p.currency, asOf) && p.balance != 0
    ensures forall account, currency ::
              account in desk.assets && currency != HOME && ForeignBalance(entries, account, currency, asOf) != 0 ==>
                Position(account, currency, ForeignBalance(entries, account, currency, asOf)) in Positions(desk, entries, asOf)
  {
    hide Groups, NonZero, Selected, BalanceIn, ForeignBalance;
    var rows := Selected(desk, entries, asOf);
    GroupsAreExact(rows);
    NonZeroKeeps(Groups(rows));
    forall p | p in Groups(rows)
      ensures p.account in desk.assets && p.currency != HOME
      ensures p.balance == ForeignBalance(entries, p.account, p.currency, asOf)
    {
      assert HasRow(rows, p);
      SelectedBalance(desk, entries, asOf, p.account, p.currency);
    }
    forall account, currency |
      account in desk.assets && currency != HOME && ForeignBalance(entries, account, currency, asOf) != 0
      ensures Position(account, currency, ForeignBalance(entries, account, currency, asOf)) in Groups(rows)
    {
      SelectedBalance(desk, entries, asOf, account, currency);
      SomeRow(rows, account, currency);
      var e :| e in rows && e.account == account && e.currency == currency;
      assert HasGroup(Groups(rows), e);
    }
  }

  lemma SomeRow(rows: seq<Entry>, account: Id, currency: string)
    requires BalanceIn(rows, account, currency) != 0
    ensures exists e :: e in rows && e.account == account && e.currency == currency
  {
    if forall e :: e in rows ==> !(e.account == account && e.currency == currency) {
      TotalZero(rows, OnAccountIn(account, currency));
    }
  }
}
