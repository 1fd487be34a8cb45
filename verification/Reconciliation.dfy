/**
 Reconciliation against an external statement
 (src/reporting/reconciliation.service.ts). A JavaScript Map is a `map` for its
 values and a `seq` of the keys in the order in which they were first set; it
 iterates over those keys that are still present. External amounts are decimals
 in ticks and need not be whole.
 */
module Reconciliation {
  import opened Money
  import Ledger

  type Id = string

  datatype LedgerRow = LedgerRow(referenceId: Id, currency: string, amount: int)

  datatype ExternalLine = ExternalLine(externalReference: Id, currency: string, amount: real)

  datatype Status = Matched | AmountMismatch | MissingInLedger | MissingInExternal

  datatype ReportLine = ReportLine(
    status: Status, referenceId: Id, ledgerAmount: Option<int>, externalAmount: Option<int>,
    currency: string, discrepancy: int)

  /** The counters and lists the walk fills. */
  datatype Tally = Tally(
    lines: seq<ReportLine>, totalDiscrepancy: real,
    matched: nat, mismatched: nat, missingInLedger: nat, missingInExternal: nat)

  datatype Report = Report(
    totalLedgerTransactions: nat, totalExternalTransactions: nat,
    matchedCount: nat, amountMismatchCount: nat, missingInLedgerCount: nat, missingInExternalCount: nat,
    totalDiscrepancyAmount: int, isFullyReconciled: bool, lines: seq<ReportLine>)

  /** The tolerance of 0.01. */
  const TOLERANCE: int := 100

  function Abs(x: real): real {
    if x < 0.0 then -x else x
  }

  // ---- Maps keyed by reference, the last row of a reference winning ----------

  function Index<T>(rows: seq<T>, key: T -> Id): map<Id, T> {
    if |rows| == 0 then map[]
    else Index(rows[..|rows| - 1], key)[key(rows[|rows| - 1]) := rows[|rows| - 1]]
  }

  function KeysOf<T>(rows: seq<T>, key: T -> Id): seq<Id> {
    if |rows| == 0 then []
    else
      var front, last := rows[..|rows| - 1], key(rows[|rows| - 1]);
      if last in Index(front, key) then KeysOf(front, key) else KeysOf(front, key) + [last]
  }

  function ReferenceOf(): LedgerRow -> Id {
    (row: LedgerRow) => row.referenceId
  }

  function ExternalReferenceOf(): ExternalLine -> Id {
    (line: ExternalLine) => line.externalReference
  }

  function SetOf(ids: seq<Id>): set<Id> {
    set id | id in ids
  }

  /** No reference occurs twice. */
  ghost predicate NoRepeats(ids: seq<Id>) {
    forall j, k :: 0 <= j < k < |ids| ==> ids[j] != ids[k]
  }

  lemma {:induction false} KeysEnumerateTheMap<T>(rows: seq<T>, key: T -> Id)
    ensures NoRepeats(KeysOf(rows, key)) && SetOf(KeysOf(rows, key)) == Index(rows, key).Keys
    ensures |KeysOf(rows, key)| == |Index(rows, key)|
  {
    if |rows| > 0 {
      var front, last := rows[..|rows| - 1], key(rows[|rows| - 1]);
      KeysEnumerateTheMap(front, key);
      assert Index(rows, key).Keys == Index(front, key).Keys + {last};
      if last !in Index(front, key) {
        assert last !in SetOf(KeysOf(front, key));
        assert SetOf(KeysOf(rows, key)) == SetOf(KeysOf(front, key)) + {last};
        assert |Index(rows, key).Keys| == |Index(front, key).Keys| + 1;
      }
    }
  }

  function Without(ids: seq<Id>, keys: set<Id>): seq<Id> {
    if |ids| == 0 then []
    else
      var last := ids[|ids| - 1];
      Without(ids[..|ids| - 1], keys) + (if last in keys then [] else [last])
  }

  lemma {:induction false} WithoutMembers(ids: seq<Id>, keys: set<Id>)
    ensures SetOf(Without(ids, keys)) == SetOf(ids) - keys
    ensures NoRepeats(ids) ==> NoRepeats(Without(ids, keys))
  {
    if |ids| > 0 {
      var front, last := ids[..|ids| - 1], ids[|ids| - 1];
      WithoutMembers(front, keys);
      assert ids == front + [last];
      assert SetOf(ids) == SetOf(front) + {last};
      if last !in keys {
        assert SetOf(Without(ids, keys)) == SetOf(Without(front, keys)) + {last};
        if NoRepeats(ids) {
          assert last !in SetOf(front);
          assert last !in SetOf(Without(front, keys));
        }
      } else {
        assert SetOf(ids) - keys == SetOf(front) - keys;
      }
    }
  }

  // ---- The ledger side: one row per reference and currency -------------------

  /** The WHERE clause of the query. */
  function InRange(entries: seq<Ledger.Entry>, from: int, to: int): (r: seq<Ledger.Entry>)
    ensures forall e :: e in r <==> e in entries && from <= e.effectiveDate && e.effectiveDate <= to
  {
    if |entries| == 0 then []
    else
      var front, last := InRange(entries[..|entries| - 1], from, to), entries[|entries| - 1];
      assert entries == entries[..|entries| - 1] + [last];
      if from <= last.effectiveDate <= to then front + [last] else front
  }

  predicate SameGroup(g: LedgerRow, e: Ledger.Entry) {
    g.referenceId == e.referenceId && g.currency == e.currency
  }

  function AddToGroups(groups: seq<LedgerRow>, e: Ledger.Entry): seq<LedgerRow> {
    if |groups| == 0 then [LedgerRow(e.referenceId, e.currency, e.amount)]
    else if SameGroup(groups[0], e)
    then [if e.amount > groups[0].amount then groups[0].(amount := e.amount) else groups[0]] + groups[1..]
    else [groups[0]] + AddToGroups(groups[1..], e)
  }

  /** GROUP BY reference_id, currency with MAX(amount); the order of the groups is left open by the query. */
  function Grouped(rows: seq<Ledger.Entry>): seq<LedgerRow> {
    if |rows| == 0 then [] else AddToGroups(Grouped(rows[..|rows| - 1]), rows[|rows| - 1])
  }

  function LedgerRows(entries: seq<Ledger.Entry>, from: int, to: int): seq<LedgerRow> {
    Grouped(InRange(entries, from, to))
  }

  /** The group's amount is the largest amount of its rows. */
  ghost predicate IsLargestOf(g: LedgerRow, rows: seq<Ledger.Entry>) {
    && (exists e :: e in rows && SameGroup(g, e) && e.amount == g.amount)
    && (forall e :: e in rows && SameGroup(g, e) ==> e.amount <= g.amount)
  }

  ghost predicate GroupsOf(groups: seq<LedgerRow>, rows: seq<Ledger.Entry>) {
    && (forall k :: 0 <= k < |groups| ==> IsLargestOf(groups[k], rows))
    && (forall e :: e in rows ==> HasGroup(groups, e))
    && (forall j, k :: 0 <= j < k < |groups| ==>
          groups[j].referenceId != groups[k].referenceId || groups[j].currency != groups[k].currency)
  }

  ghost predicate HasGroup(groups: seq<LedgerRow>, e: Ledger.Entry) {
    exists k :: 0 <= k < |groups| && SameGroup(groups[k], e)
  }

  /** What adding a row does to the groups, position by position. */
  lemma {:induction false} AddedAt(groups: seq<LedgerRow>, e: Ledger.Entry) returns (k: nat)
    ensures
      var after := AddToGroups(groups, e);
      && k <= |groups| && |after| == (if k < |groups| then |groups| else |groups| + 1)
      && (forall j :: 0 <= j < k ==> after[j] == groups[j] && !SameGroup(groups[j], e))
      && (forall j :: k < j < |groups| ==> after[j] == groups[j])
      && SameGroup(after[k], e)
      && (k < |groups| ==>
            SameGroup(groups[k], e) && after[k].amount == if e.amount > groups[k].amount then e.amount else groups[k].amount)
      && (k == |groups| ==> after[k].amount == e.amount)
  {
    if |groups| == 0 || SameGroup(groups[0], e) {
      k := 0;
    } else {
      var m := AddedAt(groups[1..], e);
      var after := AddToGroups(groups, e);
      assert after == [groups[0]] + AddToGroups(groups[1..], e);
      assert forall j :: 0 < j < |after| ==> after[j] == AddToGroups(groups[1..], e)[j - 1];
      assert forall j :: 0 < j < |groups| ==> groups[j] == groups[1..][j - 1];
      k := m + 1;
    }
  }

  lemma LargerGroup(g: LedgerRow, g': LedgerRow, rows: seq<Ledger.Entry>, e: Ledger.Entry)
    requires IsLargestOf(g, rows)
    requires g'.referenceId == g.referenceId && g'.currency == g.currency
    requires g'.amount == if SameGroup(g, e) && e.amount > g.amount then e.amount else g.amount
    ensures IsLargestOf(g', rows + [e])
  {
    var w :| w in rows && SameGroup(g, w) && w.amount == g.amount;
    assert w in rows + [e] && e in rows + [e];
  }

  /** Each reference and currency has one group, with the largest amount of its rows. */
  lemma {:induction false} GroupsAreExact(rows: seq<Ledger.Entry>)
    ensures GroupsOf(Grouped(rows), rows)
  {
    if |rows| > 0 {
      var front, e := rows[..|rows| - 1], rows[|rows| - 1];
      assert rows == front + [e];
      GroupsAreExact(front);
      var groups := Grouped(front);
      var k := AddedAt(groups, e);
      GroupsGrow(groups, front, e, k);
    }
  }

  lemma GroupsGrow(groups: seq<LedgerRow>, rows: seq<Ledger.Entry>, e: Ledger.Entry, k: nat)
    requires GroupsOf(groups, rows)
    requires
      var after := AddToGroups(groups, e);
      && k <= |groups| && |after| == (if k < |groups| then |groups| else |groups| + 1)
      && (forall j :: 0 <= j < k ==> after[j] == groups[j] && !SameGroup(groups[j], e))
      && (forall j :: k < j < |groups| ==> after[j] == groups[j])
      && SameGroup(after[k], e)
      && (k < |groups| ==>
            SameGroup(groups[k], e) && after[k].amount == if e.amount > groups[k].amount then e.amount else groups[k].amount)
      && (k == |groups| ==> after[k].amount == e.amount)
    ensures GroupsOf(AddToGroups(groups, e), rows + [e])
  {
    hide AddToGroups, IsLargestOf;
    var after := AddToGroups(groups, e);
    forall j | 0 <= j < |after| ensures IsLargestOf(after[j], rows + [e]) {
      if j < |groups| {
        LargerGroup(groups[j], after[j], rows, e);
      } else {
        NewGroup(groups, after[j], rows, e);
      }
    }
    forall w | w in rows + [e] ensures HasGroup(after, w) {
      if w in rows {
        assert HasGroup(groups, w);
        var j :| 0 <= j < |groups| && SameGroup(groups[j], w);
        assert SameGroup(after[j], w);
      } else {
        assert SameGroup(after[k], w);
      }
    }
  }

  lemma NewGroup(groups: seq<LedgerRow>, g: LedgerRow, rows: seq<Ledger.Entry>, e: Ledger.Entry)
    requires SameGroup(g, e) && g.amount == e.amount
    requires forall w :: w in rows ==> HasGroup(groups, w)
    requires forall j :: 0 <= j < |groups| ==> !SameGroup(groups[j], e)
    ensures IsLargestOf(g, rows + [e])
  {
    assert e in rows + [e];
    forall w | w in rows ensures !SameGroup(g, w) {
      assert HasGroup(groups, w);
      var j :| 0 <= j < |groups| && SameGroup(groups[j], w);
    }
  }

  lemma {:induction false} IndexedRowIsOne<T>(rows: seq<T>, key: T -> Id, id: Id)
    requires id in Index(rows, key)
    ensures Index(rows, key)[id] in rows && key(Index(rows, key)[id]) == id
  {
    if key(rows[|rows| - 1]) != id {
      IndexedRowIsOne(rows[..|rows| - 1], key, id);
      assert Index(rows, key)[id] in rows[..|rows| - 1];
    }
  }

  lemma {:induction false} RowIsIndexed<T>(rows: seq<T>, key: T -> Id, k: nat)
    requires k < |rows|
    ensures key(rows[k]) in Index(rows, key)
  {
    if k < |rows| - 1 {
      RowIsIndexed(rows[..|rows| - 1], key, k);
    }
  }

  /** On a single-currency reference, the ledger amount that is compared is its largest stored amount. */
  lemma LedgerAmountIsLargest(rows: seq<Ledger.Entry>, id: Id, currency: string)
    requires exists e :: e in rows && e.referenceId == id
    requires forall e :: e in rows && e.referenceId == id ==> e.currency == currency
    ensures
      var ledger := Index(Grouped(rows), ReferenceOf());
      id in ledger && IsLargestOf(ledger[id], rows) && ledger[id].referenceId == id && ledger[id].currency == currency
  {
    hide Grouped, Index, IsLargestOf;
    var groups := Grouped(rows);
    GroupsAreExact(rows);
    var e :| e in rows && e.referenceId == id;
    GroupIsIndexed(groups, e);
    IndexedRowIsOne(groups, ReferenceOf(), id);
    var g := Index(groups, ReferenceOf())[id];
    var j :| 0 <= j < |groups| && groups[j] == g;
    assert IsLargestOf(groups[j], rows);
    LargestIsThere(g, rows);
  }

  lemma GroupIsIndexed(groups: seq<LedgerRow>, e: Ledger.Entry)
    requires HasGroup(groups, e)
    ensures e.referenceId in Index(groups, ReferenceOf())
  {
    var k :| 0 <= k < |groups| && SameGroup(groups[k], e);
    RowIsIndexed(groups, ReferenceOf(), k);
  }

  lemma LargestIsThere(g: LedgerRow, rows: seq<Ledger.Entry>)
    requires IsLargestOf(g, rows)
    ensures exists e :: e in rows && e.referenceId == g.referenceId && e.currency == g.currency && e.amount == g.amount
  {
    var e :| e in rows && SameGroup(g, e) && e.amount == g.amount;
    assert e in rows && e.referenceId == g.referenceId && e.currency == g.currency && e.amount == g.amount;
  }

  // ---- What is reported about one reference ----------------------------------

  type LedgerMap = map<Id, LedgerRow>
  type ExternalMap = map<Id, ExternalLine>

  function Gap(ledger: LedgerMap, external: ExternalMap, id: Id): real
    requires id in ledger && id in external
  {
    Abs(ledger[id].amount as real - external[id].amount)
  }

  function StatusOf(ledger: LedgerMap, external: ExternalMap, id: Id): Status
    requires id in ledger || id in external
  {
    if id !in external then MissingInExternal
    else if id !in ledger then MissingInLedger
    else if Gap(ledger, external, id) <= TOLERANCE as real then Matched
    else AmountMismatch
  }

  function LineFor(ledger: LedgerMap, external: ExternalMap, id: Id): ReportLine
    requires id in ledger || id in external
  {
    match StatusOf(ledger, external, id)
    case MissingInExternal =>
      ReportLine(MissingInExternal, id, Some(ledger[id].amount), None, ledger[id].currency, ledger[id].amount)
    case MissingInLedger =>
      ReportLine(MissingInLedger, id, None, Some(RoundHalfUp(external[id].amount)), external[id].currency,
                 RoundHalfUp(external[id].amount))
    case Matched =>
      ReportLine(Matched, id, Some(ledger[id].amount), Some(RoundHalfUp(external[id].amount)), ledger[id].currency, 0)
    case AmountMismatch =>
      ReportLine(AmountMismatch, id, Some(ledger[id].amount), Some(RoundHalfUp(external[id].amount)),
                 ledger[id].currency, RoundHalfUp(Gap(ledger, external, id)))
  }

  /** What the reference adds to totalDiscrepancy. */
  function Counted(ledger: LedgerMap, external: ExternalMap, id: Id): real
    requires id in ledger || id in external
  {
    match StatusOf(ledger, external, id)
    case MissingInExternal => Abs(ledger[id].amount as real)
    case MissingInLedger => Abs(external[id].amount)
    case Matched => 0.0
    case AmountMismatch => Gap(ledger, external, id)
  }

  predicate Known(ledger: LedgerMap, external: ExternalMap, ids: seq<Id>) {
    SetOf(ids) <= ledger.Keys + external.Keys
  }

  function Add(t: Tally, line: ReportLine, counted: real): Tally {
    Tally(t.lines + [line], t.totalDiscrepancy + counted,
          t.matched + (if line.status == Matched then 1 else 0),
          t.mismatched + (if line.status == AmountMismatch then 1 else 0),
          t.missingInLedger + (if line.status == MissingInLedger then 1 else 0),
          t.missingInExternal + (if line.status == MissingInExternal then 1 else 0))
  }

  const NOTHING := Tally([], 0.0, 0, 0, 0, 0)

  function TallyOf(ledger: LedgerMap, external: ExternalMap, ids: seq<Id>): Tally
    requires Known(ledger, external, ids)
  {
    if |ids| == 0 then NOTHING
    else
      assert ids[|ids| - 1] in SetOf(ids) && SetOf(ids[..|ids| - 1]) <= SetOf(ids);
      var last := ids[|ids| - 1];
      Add(TallyOf(ledger, external, ids[..|ids| - 1]), LineFor(ledger, external, last), Counted(ledger, external, last))
  }

  lemma OneMore(ledger: LedgerMap, external: ExternalMap, ids: seq<Id>, id: Id)
    requires Known(ledger, external, ids) && (id in ledger || id in external)
    ensures Known(ledger, external, ids + [id])
    ensures TallyOf(ledger, external, ids + [id])
         == Add(TallyOf(ledger, external, ids), LineFor(ledger, external, id), Counted(ledger, external, id))
  {
    assert SetOf(ids + [id]) == SetOf(ids) + {id};
    assert (ids + [id])[..|ids|] == ids;
  }

  // ---- The order of the report -----------------------------------------------

  function Order(status: Status): nat {
    match status
    case MissingInLedger => 0
    case AmountMismatch => 1
    case MissingInExternal => 2
    case Matched => 3
  }

  function WithStatus(lines: seq<ReportLine>, status: Status): (some: seq<ReportLine>)
    ensures forall k :: 0 <= k < |some| ==> some[k].status == status
  {
    if |lines| == 0 then []
    else
      var last := lines[|lines| - 1];
      WithStatus(lines[..|lines| - 1], status) + (if last.status == status then [last] else [])
  }

  /** Array.prototype.sort is stable: within a status the lines keep their order. */
  function Sorted(lines: seq<ReportLine>): seq<ReportLine> {
    WithStatus(lines, MissingInLedger) + WithStatus(lines, AmountMismatch)
    + WithStatus(lines, MissingInExternal) + WithStatus(lines, Matched)
  }

  lemma {:induction false} WithStatusIsPart(lines: seq<ReportLine>, line: ReportLine, status: Status)
    ensures multiset(WithStatus(lines, status))[line] == if line.status == status then multiset(lines)[line] else 0
  {
    if |lines| > 0 {
      var front, last := lines[..|lines| - 1], lines[|lines| - 1];
      WithStatusIsPart(front, line, status);
      assert lines == front + [last];
    }
  }

  /** Sorting keeps every line, and the most urgent statuses come first. */
  lemma SortedKeepsTheLines(lines: seq<ReportLine>)
    ensures multiset(Sorted(lines)) == multiset(lines)
    ensures forall j, k :: 0 <= j < k < |Sorted(lines)| ==> Order(Sorted(lines)[j].status) <= Order(Sorted(lines)[k].status)
  {
    hide WithStatus;
    forall line ensures multiset(Sorted(lines))[line] == multiset(lines)[line] {
      WithStatusIsPart(lines, line, MissingInLedger);
      WithStatusIsPart(lines, line, AmountMismatch);
      WithStatusIsPart(lines, line, MissingInExternal);
      WithStatusIsPart(lines, line, Matched);
    }
  }

  // ---- The report ------------------------------------------------------------

  /** The references in the order they are walked: the ledger's, then what is left of the statement's. */
  function Walked(ledgerRows: seq<LedgerRow>, statement: seq<ExternalLine>): seq<Id> {
    KeysOf(ledgerRows, ReferenceOf())
    + Without(KeysOf(statement, ExternalReferenceOf()), Index(ledgerRows, ReferenceOf()).Keys)
  }

  lemma WalkedOnce(ledgerRows: seq<LedgerRow>, statement: seq<ExternalLine>)
    ensures NoRepeats(Walked(ledgerRows, statement))
    ensures SetOf(Walked(ledgerRows, statement))
         == Index(ledgerRows, ReferenceOf()).Keys + Index(statement, ExternalReferenceOf()).Keys
  {
    hide Index, KeysOf, Without, SetOf, NoRepeats;
    KeysEnumerateTheMap(ledgerRows, ReferenceOf());
    KeysEnumerateTheMap(statement, ExternalReferenceOf());
    WithoutMembers(KeysOf(statement, ExternalReferenceOf()), Index(ledgerRows, ReferenceOf()).Keys);
    Joined(KeysOf(ledgerRows, ReferenceOf()),
           Without(KeysOf(statement, ExternalReferenceOf()), Index(ledgerRows, ReferenceOf()).Keys));
  }

  lemma Joined(xs: seq<Id>, ys: seq<Id>)
    requires NoRepeats(xs) && NoRepeats(ys) && forall id :: id in SetOf(xs) ==> id !in SetOf(ys)
    ensures NoRepeats(xs + ys) && SetOf(xs + ys) == SetOf(xs) + SetOf(ys)
  {
    forall j, k | 0 <= j < |xs| && 0 <= k < |ys| ensures xs[j] != ys[k] {
      assert xs[j] in SetOf(xs) && ys[k] in SetOf(ys);
    }
  }

  lemma NextOf(ids: seq<Id>, k: nat)
    requires NoRepeats(ids) && k < |ids|
    ensures ids[..k + 1] == ids[..k] + [ids[k]]
    ensures ids[k] in SetOf(ids) && ids[k] !in SetOf(ids[..k])
    ensures SetOf(ids[..k + 1]) == SetOf(ids[..k]) + {ids[k]}
  {
  }

  lemma NothingYet(ledger: LedgerMap, external: ExternalMap)
    ensures SetOf([]) == {} && Known(ledger, external, []) && TallyOf(ledger, external, []) == NOTHING
  {
  }

  function Walk(ledgerRows: seq<LedgerRow>, statement: seq<ExternalLine>): Tally {
    WalkedOnce(ledgerRows, statement);
    TallyOf(Index(ledgerRows, ReferenceOf()), Index(statement, ExternalReferenceOf()), Walked(ledgerRows, statement))
  }

  function ReportOf(ledgerRows: seq<LedgerRow>, statement: seq<ExternalLine>): Report {
    var t := Walk(ledgerRows, statement);
    Report(|Index(ledgerRows, ReferenceOf())|, |statement|,
           t.matched, t.mismatched, t.missingInLedger, t.missingInExternal, RoundHalfUp(t.totalDiscrepancy),
           t.mismatched == 0 && t.missingInLedger == 0 && t.missingInExternal == 0, Sorted(t.lines))
  }

  method IndexRows<T>(rows: seq<T>, key: T -> Id) returns (keys: seq<Id>, values: map<Id, T>)
    ensures keys == KeysOf(rows, key) && values == Index(rows, key)
  {
    keys, values := [], map[];
    for k := 0 to |rows|
      invariant keys == KeysOf(rows[..k], key) && values == Index(rows[..k], key)
    {
      assert rows[..k + 1][..k] == rows[..k];
      if key(rows[k]) !in values {
        keys := keys + [key(rows[k])];
      }
      values := values[key(rows[k]) := rows[k]];
    }
    assert rows[..|rows|] == rows;
  }

  /** Step 2: every ledger reference, consuming its external line. */
  method WalkLedger(ledgerKeys: seq<Id>, ledgerMap: LedgerMap, externalMap: ExternalMap)
    returns (t: Tally, rest: ExternalMap)
    requires NoRepeats(ledgerKeys) && SetOf(ledgerKeys) == ledgerMap.Keys
    ensures Known(ledgerMap, externalMap, ledgerKeys) && t == TallyOf(ledgerMap, externalMap, ledgerKeys)
    ensures rest == externalMap - ledgerMap.Keys
  {
    hide RoundHalfUp, Abs, SetOf, NoRepeats, Known, TallyOf;
    t, rest := NOTHING, externalMap;
    NothingYet(ledgerMap, externalMap);
    for k := 0 to |ledgerKeys|
      invariant Known(ledgerMap, externalMap, ledgerKeys[..k]) && t == TallyOf(ledgerMap, externalMap, ledgerKeys[..k])
      invariant rest == externalMap - SetOf(ledgerKeys[..k])
    {
      var referenceId := ledgerKeys[k];
      NextOf(ledgerKeys, k);
      OneMore(ledgerMap, externalMap, ledgerKeys[..k], referenceId);
      var ledgerRow := ledgerMap[referenceId];
      if referenceId !in rest {
        t := t.(missingInExternal := t.missingInExternal + 1,
                lines := t.lines + [ReportLine(MissingInExternal, referenceId, Some(ledgerRow.amount), None,
                                               ledgerRow.currency, ledgerRow.amount)],
                totalDiscrepancy := t.totalDiscrepancy + Abs(ledgerRow.amount as real));
      } else {
        var externalAmount := rest[referenceId].amount;
        var diff := Abs(ledgerRow.amount as real - externalAmount);
        if diff <= TOLERANCE as real {
          t := t.(matched := t.matched + 1,
                  lines := t.lines + [ReportLine(Matched, referenceId, Some(ledgerRow.amount),
                                                 Some(RoundHalfUp(externalAmount)), ledgerRow.currency, 0)]);
        } else {
          t := t.(mismatched := t.mismatched + 1,
                  totalDiscrepancy := t.totalDiscrepancy + diff,
                  lines := t.lines + [ReportLine(AmountMismatch, referenceId, Some(ledgerRow.amount),
                                                 Some(RoundHalfUp(externalAmount)), ledgerRow.currency,
                                                 RoundHalfUp(diff))]);
        }
        rest := rest - {referenceId};
      }
    }
    assert ledgerKeys[..|ledgerKeys|] == ledgerKeys;
  }

  /** Step 3: the external lines left unconsumed. */
  method WalkStatement(externalKeys: seq<Id>, rest: ExternalMap, soFar: Tally,
                       ghost ledgerKeys: seq<Id>, ghost ledgerMap: LedgerMap, ghost externalMap: ExternalMap)
    returns (t: Tally)
    requires NoRepeats(externalKeys) && SetOf(externalKeys) == externalMap.Keys
    requires rest == externalMap - ledgerMap.Keys
    requires Known(ledgerMap, externalMap, ledgerKeys) && soFar == TallyOf(ledgerMap, externalMap, ledgerKeys)
    ensures
      var ids := ledgerKeys + Without(externalKeys, ledgerMap.Keys);
      Known(ledgerMap, externalMap, ids) && t == TallyOf(ledgerMap, externalMap, ids)
  {
    hide RoundHalfUp, Abs, SetOf, NoRepeats, Known, TallyOf;
    t := soFar;
    assert ledgerKeys + Without([], ledgerMap.Keys) == ledgerKeys;
    for k := 0 to |externalKeys|
      invariant Known(ledgerMap, externalMap, ledgerKeys + Without(externalKeys[..k], ledgerMap.Keys))
      invariant t == TallyOf(ledgerMap, externalMap, ledgerKeys + Without(externalKeys[..k], ledgerMap.Keys))
    {
      var referenceId := externalKeys[k];
      ghost var done := Without(externalKeys[..k], ledgerMap.Keys);
      NextOf(externalKeys, k);
      assert externalKeys[..k + 1][..k] == externalKeys[..k];
      assert Without(externalKeys[..k + 1], ledgerMap.Keys)
          == if referenceId in ledgerMap.Keys then done else done + [referenceId];
      if referenceId in rest {
        var externalAmount := rest[referenceId].amount;
        OneMore(ledgerMap, externalMap, ledgerKeys + done, referenceId);
        assert ledgerKeys + (done + [referenceId]) == ledgerKeys + done + [referenceId];
        t := t.(missingInLedger := t.missingInLedger + 1,
                totalDiscrepancy := t.totalDiscrepancy + Abs(externalAmount),
                lines := t.lines + [ReportLine(MissingInLedger, referenceId, None, Some(RoundHalfUp(externalAmount)),
                                               rest[referenceId].currency, RoundHalfUp(externalAmount))]);
      }
    }
    assert externalKeys[..|externalKeys|] == externalKeys;
  }

  method Reconcile(ledgerRows: seq<LedgerRow>, statement: seq<ExternalLine>) returns (report: Report)
    ensures report == ReportOf(ledgerRows, statement)
  {
    hide Index, KeysOf, Sorted, RoundHalfUp, SetOf, NoRepeats, Known, TallyOf, Without;
    var ledgerKeys, ledgerMap := IndexRows(ledgerRows, ReferenceOf());
    var externalKeys, externalMap := IndexRows(statement, ExternalReferenceOf());
    KeysEnumerateTheMap(ledgerRows, ReferenceOf());
    KeysEnumerateTheMap(statement, ExternalReferenceOf());
    var t, rest := WalkLedger(ledgerKeys, ledgerMap, externalMap);
    t := WalkStatement(externalKeys, rest, t, ledgerKeys, ledgerMap, externalMap);
    var isFullyReconciled := t.mismatched == 0 && t.missingInLedger == 0 && t.missingInExternal == 0;
    report := Report(|ledgerMap|, |statement|, t.matched, t.mismatched, t.missingInLedger, t.missingInExternal,
                     RoundHalfUp(t.totalDiscrepancy), isFullyReconciled, Sorted(t.lines));
  }

  // ---- Every reference on exactly one line -----------------------------------

  lemma {:induction false} LinesFollowTheWalk(ledger: LedgerMap, external: ExternalMap, ids: seq<Id>)
    requires Known(ledger, external, ids)
    ensures |TallyOf(ledger, external, ids).lines| == |ids|
    ensures forall k :: 0 <= k < |ids| ==>
              && ids[k] in ledger.Keys + external.Keys
              && TallyOf(ledger, external, ids).lines[k] == LineFor(ledger, external, ids[k])
              && TallyOf(ledger, external, ids).lines[k].referenceId == ids[k]
  {
    hide StatusOf, Counted, TallyOf, SetOf;
    if |ids| == 0 {
      NothingYet(ledger, external);
    } else {
      var front, last := ids[..|ids| - 1], ids[|ids| - 1];
      assert ids == front + [last];
      KnownParts(ledger, external, front, last);
      LinesFollowTheWalk(ledger, external, front);
      OneMore(ledger, external, front, last);
      LineIsFor(ledger, external, last);
    }
  }

  lemma KnownParts(ledger: LedgerMap, external: ExternalMap, ids: seq<Id>, id: Id)
    requires Known(ledger, external, ids + [id])
    ensures Known(ledger, external, ids) && (id in ledger || id in external)
  {
    assert SetOf(ids + [id]) == SetOf(ids) + {id};
  }

  lemma LineIsFor(ledger: LedgerMap, external: ExternalMap, id: Id)
    requires id in ledger || id in external
    ensures LineFor(ledger, external, id).referenceId == id
  {
  }

  /** The last row of the reference, if it has one. */
  ghost predicate IsLastOf<T>(rows: seq<T>, key: T -> Id, id: Id, row: Option<T>) {
    match row
    case None => forall k :: 0 <= k < |rows| ==> key(rows[k]) != id
    case Some(value) => exists k :: LastAt(rows, key, id, k) && rows[k] == value
  }

  ghost predicate LastAt<T>(rows: seq<T>, key: T -> Id, id: Id, k: int) {
    0 <= k < |rows| && key(rows[k]) == id && forall j :: k < j < |rows| ==> key(rows[j]) != id
  }

  /** What the line of a reference says, given the last ledger row and the last statement line of it. */
  ghost predicate LineSays(line: ReportLine, id: Id, row: Option<LedgerRow>, external: Option<ExternalLine>) {
    && line.referenceId == id
    && line.ledgerAmount == (if row.Some? then Some(row.value.amount) else None)
    && line.externalAmount == (if external.Some? then Some(RoundHalfUp(external.value.amount)) else None)
    && (row.Some? ==> line.currency == row.value.currency)
    && (row.None? && external.Some? ==> line.currency == external.value.currency)
    && (row.None? && external.Some? ==>
          line.status == MissingInLedger && line.discrepancy == RoundHalfUp(external.value.amount))
    && (row.Some? && external.None? ==> line.status == MissingInExternal && line.discrepancy == row.value.amount)
    && (row.Some? && external.Some? ==>
          var gap := row.value.amount as real - external.value.amount;
          if -100.0 <= gap <= 100.0 then line.status == Matched && line.discrepancy == 0
          else line.status == AmountMismatch && line.discrepancy == RoundHalfUp(if gap < 0.0 then -gap else gap))
  }

  /** The map holds the last row of each reference. */
  lemma {:induction false} IndexIsLast<T>(rows: seq<T>, key: T -> Id, id: Id, row: Option<T>)
    requires IsLastOf(rows, key, id, row)
    ensures row.Some? <==> id in Index(rows, key)
    ensures row.Some? ==> Index(rows, key)[id] == row.value
  {
    if |rows| > 0 {
      var front, last := rows[..|rows| - 1], rows[|rows| - 1];
      if key(last) != id {
        assert IsLastOf(front, key, id, row) by {
          if row.Some? {
            var k :| LastAt(rows, key, id, k) && rows[k] == row.value;
            assert LastAt(front, key, id, k) && front[k] == row.value;
          }
        }
        IndexIsLast(front, key, id, row);
      } else if row.Some? {
        var k :| LastAt(rows, key, id, k) && rows[k] == row.value;
        assert k == |rows| - 1;
      }
    }
  }

  lemma LineForSays(ledger: LedgerMap, external: ExternalMap, id: Id)
    requires id in ledger || id in external
    ensures LineSays(LineFor(ledger, external, id), id, if id in ledger then Some(ledger[id]) else None,
                     if id in external then Some(external[id]) else None)
  {
    hide RoundHalfUp;
  }

  /**
   Every reference of either side is on exactly one line of the report, and that
   line says what the last ledger row and the last statement line of it make it say.
   */
  lemma ExactlyOneLine(ledgerRows: seq<LedgerRow>, statement: seq<ExternalLine>, id: Id,
                       row: Option<LedgerRow>, external: Option<ExternalLine>)
    requires IsLastOf(ledgerRows, ReferenceOf(), id, row) && IsLastOf(statement, ExternalReferenceOf(), id, external)
    requires row.Some? || external.Some?
    ensures exists line ::
              && LineSays(line, id, row, external) && multiset(ReportOf(ledgerRows, statement).lines)[line] == 1
              && forall l :: l in ReportOf(ledgerRows, statement).lines && l.referenceId == id ==> l == line
  {
    hide Index, ReportOf, LineSays, LineFor, IsLastOf;
    IndexIsLast(ledgerRows, ReferenceOf(), id, row);
    IndexIsLast(statement, ExternalReferenceOf(), id, external);
    LineForSays(Index(ledgerRows, ReferenceOf()), Index(statement, ExternalReferenceOf()), id);
    LineIsThere(ledgerRows, statement, id);
  }

  lemma LineIsThere(ledgerRows: seq<LedgerRow>, statement: seq<ExternalLine>, id: Id)
    requires id in Index(ledgerRows, ReferenceOf()) || id in Index(statement, ExternalReferenceOf())
    ensures
      var lines := ReportOf(ledgerRows, statement).lines;
      var line := LineFor(Index(ledgerRows, ReferenceOf()), Index(statement, ExternalReferenceOf()), id);
      multiset(lines)[line] == 1 && forall l :: l in lines && l.referenceId == id ==> l == line
  {
    hide Index, KeysOf, Sorted, TallyOf, NoRepeats, Walked;
    var ledger, external := Index(ledgerRows, ReferenceOf()), Index(statement, ExternalReferenceOf());
    var ids := Walked(ledgerRows, statement);
    WalkedOnce(ledgerRows, statement);
    LinesFollowTheWalk(ledger, external, ids);
    var lines := TallyOf(ledger, external, ids).lines;
    SortedKeepsTheLines(lines);
    assert id in SetOf(ids);
    var k :| 0 <= k < |ids| && ids[k] == id;
    OnlyLine(ids, lines, k);
    forall l | l in Sorted(lines) && l.referenceId == id ensures l == lines[k] {
      assert l in multiset(Sorted(lines));
    }
  }

  lemma OnlyLine(ids: seq<Id>, lines: seq<ReportLine>, k: nat)
    requires NoRepeats(ids) && |lines| == |ids| && k < |ids|
    requires forall j :: 0 <= j < |ids| ==> lines[j].referenceId == ids[j]
    ensures multiset(lines)[lines[k]] == 1
    ensures forall l :: l in multiset(lines) && l.referenceId == ids[k] ==> l == lines[k]
  {
    assert lines == lines[..k] + [lines[k]] + lines[k + 1..];
    assert lines[k] !in lines[..k] && lines[k] !in lines[k + 1..];
  }

  // ---- The counters ----------------------------------------------------------

  /** What is counted while a list of references is walked. */
  lemma {:induction false} TallyCounts(ledger: LedgerMap, external: ExternalMap, ids: seq<Id>)
    requires Known(ledger, external, ids)
    ensures
      var t := TallyOf(ledger, external, ids);
      && t.matched + t.mismatched + t.missingInLedger + t.missingInExternal == |ids|
      && t.missingInLedger == |Without(ids, ledger.Keys)|
      && t.missingInExternal == |Without(ids, external.Keys)|
  {
    if |ids| > 0 {
      assert SetOf(ids[..|ids| - 1]) <= SetOf(ids) && ids[|ids| - 1] in SetOf(ids);
      TallyCounts(ledger, external, ids[..|ids| - 1]);
    }
  }

  lemma {:induction false} SizeOfSet(ids: seq<Id>)
    requires NoRepeats(ids)
    ensures |SetOf(ids)| == |ids|
  {
    if |ids| > 0 {
      var front, last := ids[..|ids| - 1], ids[|ids| - 1];
      SizeOfSet(front);
      NextOf(ids, |ids| - 1);
      assert ids[..|ids|] == ids;
    }
  }

  /** The counters sum to the sizes of the two key sets. */
  lemma CountersPartitionTheKeys(ledgerRows: seq<LedgerRow>, statement: seq<ExternalLine>)
    ensures
      var report := ReportOf(ledgerRows, statement);
      && report.matchedCount + report.amountMismatchCount + report.missingInExternalCount
         == |Index(ledgerRows, ReferenceOf())| == report.totalLedgerTransactions
      && report.matchedCount + report.amountMismatchCount + report.missingInLedgerCount
         == |Index(statement, ExternalReferenceOf())|
  {
    hide Index, KeysOf, Sorted, TallyOf, NoRepeats, Walked, Without, SetOf;
    var ledger, external := Index(ledgerRows, ReferenceOf()), Index(statement, ExternalReferenceOf());
    var ids := Walked(ledgerRows, statement);
    WalkedOnce(ledgerRows, statement);
    TallyCounts(ledger, external, ids);
    WithoutMembers(ids, ledger.Keys);
    WithoutMembers(ids, external.Keys);
    SizeOfSet(ids);
    SizeOfSet(Without(ids, ledger.Keys));
    SizeOfSet(Without(ids, external.Keys));
    Sizes(ledger.Keys, external.Keys);
  }

  lemma Sizes(xs: set<Id>, ys: set<Id>)
    ensures |xs + ys| == |xs| + |(xs + ys) - xs| == |ys| + |(xs + ys) - ys|
  {
    assert xs + ((xs + ys) - xs) == xs + ys;
    assert ys + ((xs + ys) - ys) == xs + ys;
  }

  // ---- Fully reconciled ------------------------------------------------------

  lemma {:induction false} AllMatched(ledger: LedgerMap, external: ExternalMap, ids: seq<Id>)
    requires Known(ledger, external, ids)
    ensures
      var t := TallyOf(ledger, external, ids);
      t.mismatched == 0 && t.missingInLedger == 0 && t.missingInExternal == 0 <==>
      forall id :: id in SetOf(ids) ==> StatusOf(ledger, external, id) == Matched
  {
    hide StatusOf;
    if |ids| > 0 {
      var front, last := ids[..|ids| - 1], ids[|ids| - 1];
      assert ids == front + [last];
      assert SetOf(ids) == SetOf(front) + {last};
      AllMatched(ledger, external, front);
      LineStatus(ledger, external, last);
    }
  }

  lemma LineStatus(ledger: LedgerMap, external: ExternalMap, id: Id)
    requires id in ledger || id in external
    ensures LineFor(ledger, external, id).status == StatusOf(ledger, external, id)
  {
  }

  /** Fully reconciled means: the same references on both sides, and every pair within the tolerance. */
  lemma FullyReconciledIff(ledgerRows: seq<LedgerRow>, statement: seq<ExternalLine>)
    ensures
      var ledger, external := Index(ledgerRows, ReferenceOf()), Index(statement, ExternalReferenceOf());
      ReportOf(ledgerRows, statement).isFullyReconciled <==>
      ledger.Keys == external.Keys
      && forall id :: id in ledger.Keys * external.Keys ==> Gap(ledger, external, id) <= TOLERANCE as real
  {
    hide Index, KeysOf, Sorted, TallyOf, NoRepeats, Walked, Gap;
    var ledger, external := Index(ledgerRows, ReferenceOf()), Index(statement, ExternalReferenceOf());
    WalkedOnce(ledgerRows, statement);
    AllMatched(ledger, external, Walked(ledgerRows, statement));
    if forall id :: id in ledger.Keys + external.Keys ==> StatusOf(ledger, external, id) == Matched {
      assert forall id :: id in ledger.Keys + external.Keys ==> id in ledger && id in external;
    }
  }

  // ---- The grand totals ------------------------------------------------------

  function Amounts(ids: seq<Id>, amount: Id -> real): real {
    if |ids| == 0 then 0.0 else Amounts(ids[..|ids| - 1], amount) + amount(ids[|ids| - 1])
  }

  function LedgerAmount(ledger: LedgerMap): Id -> real {
    (id: Id) => if id in ledger then ledger[id].amount as real else 0.0
  }

  function ExternalAmount(external: ExternalMap): Id -> real {
    (id: Id) => if id in external then external[id].amount else 0.0
  }

  lemma {:induction false} AmountsConcat(xs: seq<Id>, ys: seq<Id>, amount: Id -> real)
    ensures Amounts(xs + ys, amount) == Amounts(xs, amount) + Amounts(ys, amount)
  {
    if |ys| == 0 {
      assert xs + ys == xs;
    } else {
      assert (xs + ys)[..|xs + ys| - 1] == xs + ys[..|ys| - 1];
      AmountsConcat(xs, ys[..|ys| - 1], amount);
    }
  }

  lemma {:induction false} AmountsZero(ids: seq<Id>, amount: Id -> real)
    requires forall id :: id in SetOf(ids) ==> amount(id) == 0.0
    ensures Amounts(ids, amount) == 0.0
  {
    if |ids| > 0 {
      assert SetOf(ids[..|ids| - 1]) <= SetOf(ids) && ids[|ids| - 1] in SetOf(ids);
      AmountsZero(ids[..|ids| - 1], amount);
    }
  }

  lemma TakeOut(ids: seq<Id>, k: nat)
    requires NoRepeats(ids) && k < |ids|
    ensures NoRepeats(ids[..k] + ids[k + 1..])
    ensures SetOf(ids[..k] + ids[k + 1..]) == SetOf(ids) - {ids[k]}
  {
    var rest := ids[..k] + ids[k + 1..];
    assert forall j :: 0 <= j < |rest| ==> rest[j] == ids[if j < k then j else j + 1];
    forall id ensures id in SetOf(rest) <==> id in SetOf(ids) && id != ids[k] {
      if id in SetOf(ids) && id != ids[k] {
        var j :| 0 <= j < |ids| && ids[j] == id;
        assert rest[if j < k then j else j - 1] == id;
      }
    }
  }

  lemma AmountTakenOut(ids: seq<Id>, k: nat, amount: Id -> real)
    requires k < |ids|
    ensures Amounts(ids, amount) == Amounts(ids[..k] + ids[k + 1..], amount) + amount(ids[k])
  {
    var before, after := ids[..k], ids[k + 1..];
    AmountsConcat(before + [ids[k]], after, amount);
    AmountsConcat(before, after, amount);
    assert ids == before + [ids[k]] + after && (before + [ids[k]])[..k] == before;
  }

  /** The order in which the references are added up does not matter. */
  lemma {:induction false} AnyOrder(xs: seq<Id>, ys: seq<Id>, amount: Id -> real)
    requires NoRepeats(xs) && NoRepeats(ys) && SetOf(xs) == SetOf(ys)
    ensures Amounts(xs, amount) == Amounts(ys, amount)
    decreases |xs|
  {
    hide NoRepeats;
    SizeOfSet(xs);
    SizeOfSet(ys);
    if |xs| > 0 {
      var n := |xs| - 1;
      assert xs[n] in SetOf(ys);
      var k :| 0 <= k < |ys| && ys[k] == xs[n];
      TakeOut(xs, n);
      TakeOut(ys, k);
      AmountTakenOut(xs, n, amount);
      AmountTakenOut(ys, k, amount);
      AnyOrder(xs[..n] + xs[n + 1..], ys[..k] + ys[k + 1..], amount);
    }
  }

  /** One reference's two amounts differ by what is counted for it, or by the tolerance if it matched. */
  lemma OneReference(ledger: LedgerMap, external: ExternalMap, id: Id)
    requires id in ledger || id in external
    ensures Abs(LedgerAmount(ledger)(id) - ExternalAmount(external)(id))
         <= Counted(ledger, external, id)
            + (if StatusOf(ledger, external, id) == Matched then TOLERANCE as real else 0.0)
  {
  }

  lemma {:induction false} WalkBoundsTheGap(ledger: LedgerMap, external: ExternalMap, ids: seq<Id>)
    requires Known(ledger, external, ids)
    ensures
      var t := TallyOf(ledger, external, ids);
      Abs(Amounts(ids, LedgerAmount(ledger)) - Amounts(ids, ExternalAmount(external)))
      <= t.totalDiscrepancy + t.matched as real * TOLERANCE as real
  {
    hide StatusOf, Counted, LedgerAmount, ExternalAmount;
    if |ids| > 0 {
      var last := ids[|ids| - 1];
      assert SetOf(ids[..|ids| - 1]) <= SetOf(ids) && last in SetOf(ids);
      WalkBoundsTheGap(ledger, external, ids[..|ids| - 1]);
      OneReference(ledger, external, last);
      LineStatus(ledger, external, last);
    }
  }

  /**
   The ledger's and the statement's grand totals, over their distinct references,
   differ by at most the reported discrepancy plus 0.01 for each matched pair.
   */
  lemma GrandTotalsDifferByAtMost(ledgerRows: seq<LedgerRow>, statement: seq<ExternalLine>)
    ensures
      var ledger, external := Index(ledgerRows, ReferenceOf()), Index(statement, ExternalReferenceOf());
      var t := Walk(ledgerRows, statement);
      Abs(Amounts(KeysOf(ledgerRows, ReferenceOf()), LedgerAmount(ledger))
          - Amounts(KeysOf(statement, ExternalReferenceOf()), ExternalAmount(external)))
      <= t.totalDiscrepancy + t.matched as real * TOLERANCE as real
  {
    hide Index, KeysOf, Walked, TallyOf, NoRepeats, SetOf, Without, Amounts, Abs;
    var ledger, external := Index(ledgerRows, ReferenceOf()), Index(statement, ExternalReferenceOf());
    var ids := Walked(ledgerRows, statement);
    WalkedOnce(ledgerRows, statement);
    WalkBoundsTheGap(ledger, external, ids);
    KeysEnumerateTheMap(ledgerRows, ReferenceOf());
    KeysEnumerateTheMap(statement, ExternalReferenceOf());
    SumOverMore(KeysOf(ledgerRows, ReferenceOf()), ids, LedgerAmount(ledger));
    SumOverMore(KeysOf(statement, ExternalReferenceOf()), ids, ExternalAmount(external));
  }

  /** Summing over further references whose amount is zero changes nothing. */
  lemma SumOverMore(keys: seq<Id>, ids: seq<Id>, amount: Id -> real)
    requires NoRepeats(keys) && NoRepeats(ids) && SetOf(keys) <= SetOf(ids)
    requires forall id :: id in SetOf(ids) - SetOf(keys) ==> amount(id) == 0.0
    ensures Amounts(ids, amount) == Amounts(keys, amount)
  {
    hide NoRepeats, SetOf, Without, Amounts;
    var more := Without(ids, SetOf(keys));
    WithoutMembers(ids, SetOf(keys));
    Joined(keys, more);
    AnyOrder(ids, keys + more, amount);
    AmountsConcat(keys, more, amount);
    AmountsZero(more, amount);
  }

  /** So a full reconciliation of n references leaves the totals within n hundredths. */
  lemma ReconciledTotalsAgree(ledgerRows: seq<LedgerRow>, statement: seq<ExternalLine>)
    requires ReportOf(ledgerRows, statement).isFullyReconciled
    ensures
      var ledger, external := Index(ledgerRows, ReferenceOf()), Index(statement, ExternalReferenceOf());
      Abs(Amounts(KeysOf(ledgerRows, ReferenceOf()), LedgerAmount(ledger))
          - Amounts(KeysOf(statement, ExternalReferenceOf()), ExternalAmount(external)))
      <= |ledger| as real * TOLERANCE as real
    ensures ReportOf(ledgerRows, statement).totalDiscrepancyAmount == 0
  {
    hide Index, KeysOf, Walked, TallyOf, NoRepeats, SetOf, Without, Amounts, Abs, Sorted;
    GrandTotalsDifferByAtMost(ledgerRows, statement);
    CountersPartitionTheKeys(ledgerRows, statement);
    WalkedOnce(ledgerRows, statement);
    NoMismatchNoDiscrepancy(Index(ledgerRows, ReferenceOf()), Index(statement, ExternalReferenceOf()),
                            Walked(ledgerRows, statement));
    RoundWhole(0);
  }

  lemma {:induction false} NoMismatchNoDiscrepancy(ledger: LedgerMap, external: ExternalMap, ids: seq<Id>)
    requires Known(ledger, external, ids)
    requires
      var t := TallyOf(ledger, external, ids);
      t.mismatched == 0 && t.missingInLedger == 0 && t.missingInExternal == 0
    ensures TallyOf(ledger, external, ids).totalDiscrepancy == 0.0
  {
    if |ids| > 0 {
      assert SetOf(ids[..|ids| - 1]) <= SetOf(ids) && ids[|ids| - 1] in SetOf(ids);
      LineStatus(ledger, external, ids[|ids| - 1]);
      NoMismatchNoDiscrepancy(ledger, external, ids[..|ids| - 1]);
    }
  }

  /** How far the two amounts of a reference are apart; a pair within the tolerance counts as not apart. */
  function Apart(ledger: LedgerMap, external: ExternalMap): Id -> real {
    (id: Id) =>
      var gap := (if id in ledger then ledger[id].amount as real else 0.0)
                 - (if id in external then external[id].amount else 0.0);
      if id in ledger && id in external && -100.0 <= gap <= 100.0 then 0.0 else if gap < 0.0 then -gap else gap
  }

  lemma {:induction false} WalkAddsUp(ledger: LedgerMap, external: ExternalMap, ids: seq<Id>)
    requires Known(ledger, external, ids)
    ensures TallyOf(ledger, external, ids).totalDiscrepancy == Amounts(ids, Apart(ledger, external))
  {
    if |ids| > 0 {
      assert SetOf(ids[..|ids| - 1]) <= SetOf(ids) && ids[|ids| - 1] in SetOf(ids);
      WalkAddsUp(ledger, external, ids[..|ids| - 1]);
    }
  }

  /** The reported discrepancy is what the references are apart in all, rounded once. */
  lemma DiscrepancyAddsUp(ledgerRows: seq<LedgerRow>, statement: seq<ExternalLine>)
    ensures
      var ledger, external := Index(ledgerRows, ReferenceOf()), Index(statement, ExternalReferenceOf());
      ReportOf(ledgerRows, statement).totalDiscrepancyAmount
        == RoundHalfUp(Amounts(Walked(ledgerRows, statement), Apart(ledger, external)))
  {
    hide Index, KeysOf, Walked, NoRepeats, SetOf, Without, Amounts, Sorted, RoundHalfUp, TallyOf, Apart;
    WalkedOnce(ledgerRows, statement);
    WalkAddsUp(Index(ledgerRows, ReferenceOf()), Index(statement, ExternalReferenceOf()), Walked(ledgerRows, statement));
  }

  // ---- Repeated references ---------------------------------------------------

  /** No reference occurs on two lines. */
  ghost predicate NoKeyTwice<T(!new)>(rows: seq<T>, key: T -> Id) {
    forall j, k :: 0 <= j < k < |rows| ==> key(rows[j]) != key(rows[k])
  }

  lemma {:induction false} KeyCount<T(!new)>(rows: seq<T>, key: T -> Id)
    ensures |KeysOf(rows, key)| <= |rows|
    ensures |KeysOf(rows, key)| == |rows| <==> NoKeyTwice(rows, key)
  {
    if |rows| > 0 {
      var n := |rows| - 1;
      var front, last := rows[..n], rows[n];
      KeyCount(front, key);
      if key(last) in Index(front, key) {
        IndexedRowIsOne(front, key, key(last));
        var j :| 0 <= j < n && front[j] == Index(front, key)[key(last)];
        assert key(rows[j]) == key(rows[n]);
      } else {
        forall j | 0 <= j < n ensures key(rows[j]) != key(last) {
          RowIsIndexed(front, key, j);
          assert front[j] == rows[j];
        }
        assert NoKeyTwice(front, key) ==> NoKeyTwice(rows, key);
        assert NoKeyTwice(rows, key) ==> NoKeyTwice(front, key);
      }
    }
  }

  /**
   The report's own figures show a repeated line: the three counters of the
   statement's side reach the number of its lines exactly if no reference repeats.
   */
  lemma RepeatsShowInTheCounters(ledgerRows: seq<LedgerRow>, statement: seq<ExternalLine>)
    ensures
      var report := ReportOf(ledgerRows, statement);
      report.matchedCount + report.amountMismatchCount + report.missingInLedgerCount == report.totalExternalTransactions
      <==> NoKeyTwice(statement, ExternalReferenceOf())
  {
    hide Index, KeysOf, Walk, Sorted, NoKeyTwice;
    CountersPartitionTheKeys(ledgerRows, statement);
    KeysEnumerateTheMap(statement, ExternalReferenceOf());
    KeyCount(statement, ExternalReferenceOf());
  }

  /** The sum of an amount over all lines as they were handed in. */
  function RawTotal<T>(rows: seq<T>, amount: T -> real): real {
    if |rows| == 0 then 0.0 else RawTotal(rows[..|rows| - 1], amount) + amount(rows[|rows| - 1])
  }

  function RowAmount(): LedgerRow -> real {
    (row: LedgerRow) => row.amount as real
  }

  function LineAmount(): ExternalLine -> real {
    (line: ExternalLine) => line.amount
  }

  /** Looking every key up in the index is going through the rows, if no key occurs twice. */
  lemma {:induction false} RawTotalIsIndexed<T(!new)>(rows: seq<T>, key: T -> Id, amount: T -> real, lookup: Id -> real)
    requires NoKeyTwice(rows, key)
    requires forall k :: 0 <= k < |rows| ==> lookup(key(rows[k])) == amount(rows[k])
    ensures Amounts(KeysOf(rows, key), lookup) == RawTotal(rows, amount)
  {
    if |rows| > 0 {
      var n := |rows| - 1;
      var front, last := rows[..n], rows[n];
      assert NoKeyTwice(front, key);
      RawTotalIsIndexed(front, key, amount, lookup);
      KeyCount(rows, key);
      KeyCount(front, key);
      var keys := KeysOf(rows, key);
      assert keys == KeysOf(front, key) + [key(last)] && keys[..|keys| - 1] == KeysOf(front, key);
    }
  }

  lemma {:induction false} IndexOfUnique<T(!new)>(rows: seq<T>, key: T -> Id, k: nat)
    requires NoKeyTwice(rows, key) && k < |rows|
    ensures key(rows[k]) in Index(rows, key) && Index(rows, key)[key(rows[k])] == rows[k]
  {
    var n := |rows| - 1;
    if k < n {
      assert NoKeyTwice(rows[..n], key);
      IndexOfUnique(rows[..n], key, k);
    }
  }

  /**
   If no reference repeats on either side, the totals of all ledger rows and of
   all statement lines differ by at most the discrepancy plus 0.01 per match.
   */
  lemma RawTotalsDifferByAtMost(ledgerRows: seq<LedgerRow>, statement: seq<ExternalLine>)
    requires NoKeyTwice(ledgerRows, ReferenceOf()) && NoKeyTwice(statement, ExternalReferenceOf())
    ensures
      var t := Walk(ledgerRows, statement);
      Abs(RawTotal(ledgerRows, RowAmount()) - RawTotal(statement, LineAmount()))
      <= t.totalDiscrepancy + t.matched as real * TOLERANCE as real
  {
    hide Index, KeysOf, Walk, Abs, RawTotal, Amounts, NoKeyTwice;
    var ledger, external := Index(ledgerRows, ReferenceOf()), Index(statement, ExternalReferenceOf());
    forall k | 0 <= k < |ledgerRows|
      ensures LedgerAmount(ledger)(ReferenceOf()(ledgerRows[k])) == RowAmount()(ledgerRows[k])
    {
      IndexOfUnique(ledgerRows, ReferenceOf(), k);
    }
    forall k | 0 <= k < |statement|
      ensures ExternalAmount(external)(ExternalReferenceOf()(statement[k])) == LineAmount()(statement[k])
    {
      IndexOfUnique(statement, ExternalReferenceOf(), k);
    }
    RawTotalIsIndexed(ledgerRows, ReferenceOf(), RowAmount(), LedgerAmount(ledger));
    RawTotalIsIndexed(statement, ExternalReferenceOf(), LineAmount(), ExternalAmount(external));
    GrandTotalsDifferByAtMost(ledgerRows, statement);
  }

  /**
   Nothing else shows a repeat: for every statement, saying a line again that
   the index already holds changes no line, counter or total but the line count.
   */
  lemma RepeatedLineGoesUnnoticed(ledgerRows: seq<LedgerRow>, statement: seq<ExternalLine>, line: ExternalLine)
    requires line.externalReference in Index(statement, ExternalReferenceOf())
    requires Index(statement, ExternalReferenceOf())[line.externalReference] == line
    ensures ReportOf(ledgerRows, statement + [line])
         == ReportOf(ledgerRows, statement).(totalExternalTransactions := |statement| + 1)
  {
    hide Sorted, TallyOf, Without;
    var more := statement + [line];
    assert more[..|statement|] == statement;
    assert Index(more, ExternalReferenceOf()) == Index(statement, ExternalReferenceOf());
    assert KeysOf(more, ExternalReferenceOf()) == KeysOf(statement, ExternalReferenceOf());
  }
}
