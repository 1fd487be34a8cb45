/**
 Serial posting: the rows, the reversals and the snapshot cache that a run of
 postings, reversals and refunds leaves behind (src/ledger/ledger.service.ts,
 src/ledger/ledger.repository.ts, src/ledger/balance.service.ts,
 src/reversals/reversals.service.ts, src/database/database.service.ts:165-204).
 */
module Posting {
  import opened Money
  import opened Sums
  import opened Calendar
  import opened LockKeys
  import opened Ledger
  import opened Reversals
  import opened HashChain

  /**
   What the service gets from outside: the n-th UUID v7 it draws and the n-th
   reading of its clock.
   */
  datatype World = World(
    hashing: Hashing, uuid: nat -> Id, clock: nat -> nat, limits: Limits, platformCash: Option<Id>)

  /** Ids of version 7 ascend (section 5.7 of RFC 9562) and the clock does not run backwards. */
  ghost predicate Orderly(w: World) {
    forall m, n :: m < n ==>
      AtMost(w.uuid(m), w.uuid(n)) && w.uuid(m) != w.uuid(n) && w.clock(m) <= w.clock(n)
  }

  datatype Snapshot = Snapshot(account: Id, balance: int, snapshotAt: nat, triggeredBy: Id)

  /** The fields all lines of a journal share. */
  datatype Header = Header(
    journalId: Id, referenceType: TransactionType, referenceId: Id, effectiveDate: int, createdBy: string)

  datatype Rejection =
    | InvalidJournal | InsufficientBalance | LimitExceeded | ConflictError | RefreshFailed
    | Refused(reason: Refusal) | ReversedBefore | OverRefund

  // ---- Rows in posting order -------------------------------------------------

  function Columns(rows: seq<Row>): (entries: seq<Entry>)
    ensures |entries| == |rows|
    ensures forall k :: 0 <= k < |rows| ==> entries[k] == rows[k].entry
  {
    seq(|rows|, k requires 0 <= k < |rows| => rows[k].entry)
  }

  /** ORDER BY posted_at, id. */
  predicate NoLater(a: Row, b: Row) {
    a.postedAt < b.postedAt || (a.postedAt == b.postedAt && AtMost(a.id, b.id))
  }

  ghost predicate InOrder(rows: seq<Row>) {
    forall j, k :: 0 <= j < k < |rows| ==> NoLater(rows[j], rows[k]) && rows[j].id != rows[k].id
  }

  /** getLastPostedEntry: ORDER BY posted_at DESC, id DESC LIMIT 1. */
  function Newest(rows: seq<Row>): (k: nat)
    requires |rows| > 0
    ensures k < |rows|
  {
    if |rows| == 1 then 0
    else
      var k := Newest(rows[..|rows| - 1]);
      if NoLater(rows[k], rows[|rows| - 1]) then |rows| - 1 else k
  }

  lemma {:induction false} NewestIsLast(rows: seq<Row>)
    requires |rows| > 0 && InOrder(rows)
    ensures Newest(rows) == |rows| - 1
  {
    if |rows| > 1 {
      NewestIsLast(rows[..|rows| - 1]);
    }
  }

  function Insert(row: Row, rows: seq<Row>): seq<Row> {
    if |rows| == 0 then [row]
    else if NoLater(rows[|rows| - 1], row) then rows + [row]
    else Insert(row, rows[..|rows| - 1]) + [rows[|rows| - 1]]
  }

  function UpTo(rows: seq<Row>, to: Option<nat>): seq<Row> {
    if |rows| == 0 then []
    else
      var front, last := UpTo(rows[..|rows| - 1], to), rows[|rows| - 1];
      if to.None? || last.postedAt <= to.value then front + [last] else front
  }

  function SortRows(rows: seq<Row>): seq<Row> {
    if |rows| == 0 then [] else Insert(rows[|rows| - 1], SortRows(rows[..|rows| - 1]))
  }

  function NotBefore(rows: seq<Row>, from: Option<nat>): seq<Row> {
    if |rows| == 0 then []
    else
      var front, last := NotBefore(rows[..|rows| - 1], from), rows[|rows| - 1];
      if from.None? || from.value <= last.postedAt then front + [last] else front
  }

  /** findAllForVerification: both dates are optional and inclusive. */
  function ReadForVerification(rows: seq<Row>, from: Option<nat>, to: Option<nat>): seq<Row> {
    SortRows(NotBefore(UpTo(rows, to), from))
  }

  lemma {:induction false} InsertKeeps(row: Row, rows: seq<Row>)
    ensures multiset(Insert(row, rows)) == multiset(rows) + multiset{row}
    ensures Ascending(rows) ==> Ascending(Insert(row, rows))
  {
    if |rows| > 0 {
      var front, last := rows[..|rows| - 1], rows[|rows| - 1];
      assert rows == front + [last];
      if !NoLater(last, row) {
        InsertKeeps(row, front);
        if Ascending(rows) {
          InsertStaysBelow(row, front, last);
        }
      } else if Ascending(rows) {
        forall k | 0 <= k < |rows| ensures NoLater(rows[k], row) {
          OrderChains(rows[k], last, row);
        }
      }
    }
  }

  ghost predicate Ascending(rows: seq<Row>) {
    forall j, k :: 0 <= j < k < |rows| ==> NoLater(rows[j], rows[k])
  }

  lemma OrderChains(a: Row, b: Row, c: Row)
    requires (a == b || NoLater(a, b)) && NoLater(b, c)
    ensures NoLater(a, c)
  {
    hide AtMost;
    if a != b && AtMost(a.id, b.id) && AtMost(b.id, c.id) {
      AtMostTransitive(a.id, b.id, c.id);
    }
  }

  lemma InsertStaysBelow(row: Row, front: seq<Row>, last: Row)
    requires Ascending(front + [last]) && Ascending(Insert(row, front)) && !NoLater(last, row)
    requires multiset(Insert(row, front)) == multiset(front) + multiset{row}
    ensures Ascending(Insert(row, front) + [last])
  {
    hide Insert, AtMost;
    AtMostTotal(last.id, row.id);
    forall k | 0 <= k < |Insert(row, front)| ensures NoLater(Insert(row, front)[k], last) {
      var x := Insert(row, front)[k];
      assert x in multiset(Insert(row, front));
      if x in multiset(front) {
        var j :| 0 <= j < |front| && front[j] == x;
        assert (front + [last])[j] == x && (front + [last])[|front|] == last;
      }
    }
  }

  lemma {:induction false} SortKeeps(rows: seq<Row>)
    ensures multiset(SortRows(rows)) == multiset(rows) && Ascending(SortRows(rows))
  {
    if |rows| > 0 {
      var front, last := rows[..|rows| - 1], rows[|rows| - 1];
      assert rows == front + [last];
      SortKeeps(front);
      InsertKeeps(last, SortRows(front));
    }
  }

  lemma {:induction false} FiltersKeep(rows: seq<Row>, from: Option<nat>, to: Option<nat>, row: Row)
    ensures multiset(UpTo(rows, to))[row]
         == if to.None? || row.postedAt <= to.value then multiset(rows)[row] else 0
    ensures multiset(NotBefore(rows, from))[row]
         == if from.None? || from.value <= row.postedAt then multiset(rows)[row] else 0
  {
    if |rows| > 0 {
      var front, last := rows[..|rows| - 1], rows[|rows| - 1];
      assert rows == front + [last];
      FiltersKeep(front, from, to, row);
    }
  }

  /** Whatever rows there are: read are those posted between the two dates, each as often as it is there, oldest first. */
  lemma ReadIsExact(rows: seq<Row>, from: Option<nat>, to: Option<nat>, row: Row)
    ensures Ascending(ReadForVerification(rows, from, to))
    ensures multiset(ReadForVerification(rows, from, to))[row]
         == if (from.None? || from.value <= row.postedAt) && (to.None? || row.postedAt <= to.value)
            then multiset(rows)[row] else 0
  {
    hide SortRows, UpTo, NotBefore, Ascending;
    FiltersKeep(rows, from, to, row);
    FiltersKeep(UpTo(rows, to), from, to, row);
    SortKeeps(NotBefore(UpTo(rows, to), from));
  }

  lemma {:induction false} CutIsPrefix(rows: seq<Row>, to: Option<nat>) returns (n: nat)
    requires InOrder(rows)
    ensures n <= |rows| && UpTo(rows, to) == rows[..n]
    ensures forall k :: n <= k < |rows| ==> to.Some? && to.value < rows[k].postedAt
  {
    if |rows| == 0 {
      n := 0;
    } else {
      var front, last := rows[..|rows| - 1], rows[|rows| - 1];
      var m := CutIsPrefix(front, to);
      if to.None? || last.postedAt <= to.value {
        assert forall k :: 0 <= k < |front| ==> front[k] == rows[k] && NoLater(rows[k], last);
        n := |rows|;
        assert m == |front| && rows[..n] == front + [last];
      } else {
        n := m;
        assert rows[..n] == front[..m];
      }
    }
  }

  lemma {:induction false} SortedAlready(rows: seq<Row>)
    requires InOrder(rows)
    ensures SortRows(rows) == rows
  {
    if |rows| > 0 {
      var front := rows[..|rows| - 1];
      SortedAlready(front);
      assert |front| > 0 ==> NoLater(rows[|front| - 1], rows[|rows| - 1]);
      assert rows == front + [rows[|rows| - 1]];
    }
  }

  /** Before the lower date. */
  predicate Early(row: Row, from: Option<nat>) {
    from.Some? && row.postedAt < from.value
  }

  lemma {:induction false} LowerCutIsSuffix(rows: seq<Row>, from: Option<nat>) returns (m: nat)
    requires InOrder(rows)
    ensures m <= |rows| && NotBefore(rows, from) == rows[m..]
    ensures forall k :: 0 <= k < m ==> Early(rows[k], from)
    ensures m < |rows| ==> from.None? || from.value <= rows[m].postedAt
  {
    if |rows| == 0 {
      m := 0;
    } else {
      hide InOrder, NoLater;
      var n := |rows| - 1;
      var front, last := rows[..n], rows[n];
      SliceInOrder(rows, 0, n);
      assert rows[0..n] == front;
      m := LowerCutIsSuffix(front, from);
      LastIsLatest(rows);
      assert m < n ==> front[m] == rows[m];
      assert m < n ==> !Early(last, from);
      assert forall k :: 0 <= k < m ==> front[k] == rows[k];
      if Early(last, from) {
        assert front[n..] == [] && rows[n + 1..] == [];
        m := n + 1;
      } else {
        assert rows[m..] == front[m..] + [last];
      }
    }
  }

  lemma LastIsLatest(rows: seq<Row>)
    requires InOrder(rows) && |rows| > 0
    ensures forall k :: 0 <= k < |rows| ==> rows[k].postedAt <= rows[|rows| - 1].postedAt
  {
    forall k | 0 <= k < |rows| - 1 ensures rows[k].postedAt <= rows[|rows| - 1].postedAt {
      assert NoLater(rows[k], rows[|rows| - 1]);
    }
  }

  /** With a lower date the cut is a slice of the rows. */
  lemma CutIsSlice(rows: seq<Row>, from: Option<nat>, to: Option<nat>) returns (m: nat, n: nat)
    requires InOrder(rows)
    ensures m <= n <= |rows| && ReadForVerification(rows, from, to) == rows[m..n]
    ensures m < n ==> (from.None? || from.value <= rows[m].postedAt)
    ensures forall k :: 0 <= k < m ==> Early(rows[k], from)
  {
    hide InOrder, SortRows, UpTo, NotBefore, NoLater;
    n := CutIsPrefix(rows, to);
    var front := rows[..n];
    SliceInOrder(rows, 0, n);
    assert rows[0..n] == front;
    m := LowerCutIsSuffix(front, from);
    assert front[m..] == rows[m..n];
    SliceInOrder(rows, m, n);
    SortedAlready(rows[m..n]);
    forall k | 0 <= k < m ensures Early(rows[k], from) {
      assert front[k] == rows[k];
    }
    assert m < n ==> front[m] == rows[m];
  }

  lemma SliceInOrder(rows: seq<Row>, m: nat, n: nat)
    requires InOrder(rows) && m <= n <= |rows|
    ensures InOrder(rows[m..n])
  {
    assert forall k :: 0 <= k < n - m ==> rows[m..n][k] == rows[m + k];
  }

  /** A slice of a valid chain that starts later than the chain breaks at its own first row. */
  lemma LaterStartBreaks(h: Hashing, rows: seq<Row>, m: nat, n: nat)
    requires Trusted(h) && ChainValid(h, rows) && 0 < m < n <= |rows|
    ensures !Links(h, rows[m..n], 0)
  {
    assert Links(h, rows, m) && Links(h, rows, m - 1);
    assert rows[m..n][0] == rows[m] && rows[m..n][..0] == [];
    assert LastHash(h, rows[..m]) == rows[m - 1].hash;
  }

  /**
   What the service has built, read back in (postedAt, id) order, verifies for
   every upper date; and for a lower date exactly if that date drops no row
   before the ones read: otherwise the verifier reports a break at the first row
   it reads, although nothing was tampered with.
   */
  lemma EveryCutVerifies(h: Hashing, rows: seq<Row>, from: Option<nat>, to: Option<nat>)
    requires Trusted(h) && ChainValid(h, rows) && InOrder(rows)
    ensures
      var read := ReadForVerification(rows, from, to);
      && (ChainValid(h, read) <==> read == [] || from.None? || from.value <= rows[0].postedAt)
      && (!ChainValid(h, read) ==> !Links(h, read, 0))
      && (from.None? ==> read <= rows)
  {
    var m, n := CutIsSlice(rows, from, to);
    if m == 0 {
      PrefixIsValid(h, rows, n);
    } else if m < n {
      LaterStartBreaks(h, rows, m, n);
      assert Early(rows[0], from);
    } else {
      assert rows[m..n] == [];
    }
  }

  // ---- Derived balances ------------------------------------------------------

  lemma {:induction false} UntouchedCurrency(entries: seq<Entry>, more: seq<Entry>, account: Id)
    requires forall e :: e in more ==> e.account != account
    ensures CurrencyOf(entries + more, account) == CurrencyOf(entries, account)
  {
    if |entries| == 0 {
      assert entries + more == more;
      NoCurrencyNoEntry(more, account);
    } else {
      assert (entries + more)[1..] == entries[1..] + more;
      UntouchedCurrency(entries[1..], more, account);
    }
  }

  /** Posting to other accounts leaves a derived balance alone. */
  lemma UntouchedBalance(entries: seq<Entry>, more: seq<Entry>, account: Id)
    requires forall e :: e in more ==> e.account != account
    ensures DeriveBalance(entries + more, account) == DeriveBalance(entries, account)
  {
    UntouchedCurrency(entries, more, account);
    match CurrencyOf(entries, account)
    case None =>
    case Some(currency) =>
      TotalConcat(entries, more, OnAccountIn(account, currency));
      TotalZero(more, OnAccountIn(account, currency));
  }

  // ---- The snapshot cache ----------------------------------------------------

  ghost predicate Touched(rows: seq<Row>, account: Id) {
    exists k :: 0 <= k < |rows| && rows[k].entry.account == account
  }

  /** The cache's most recently written line for the account is at p. */
  ghost predicate WrittenLast(snapshots: seq<Snapshot>, account: Id, p: int) {
    && 0 <= p < |snapshots| && snapshots[p].account == account
    && forall q :: p < q < |snapshots| ==> snapshots[q].account != account
  }

  ghost predicate AgreesAt(rows: seq<Row>, snapshots: seq<Snapshot>, account: Id, p: int) {
    WrittenLast(snapshots, account, p) && snapshots[p].balance == DeriveBalance(Columns(rows), account)
  }

  ghost predicate Cached(rows: seq<Row>, snapshots: seq<Snapshot>, account: Id) {
    exists p :: AgreesAt(rows, snapshots, account, p)
  }

  ghost predicate CacheAgrees(rows: seq<Row>, snapshots: seq<Snapshot>) {
    forall account :: Touched(rows, account) ==> Cached(rows, snapshots, account)
  }

  /** getLatestSnapshot: any line of the account with the greatest snapshotAt may be returned. */
  ghost predicate IsLatest(snapshots: seq<Snapshot>, account: Id, s: Snapshot) {
    && s in snapshots && s.account == account
    && forall t :: t in snapshots && t.account == account ==> t.snapshotAt <= s.snapshotAt
  }

  /** Snapshots are written as the clock goes. */
  ghost predicate SnapshotsAscend(snapshots: seq<Snapshot>) {
    forall p, q :: 0 <= p < q < |snapshots| ==> snapshots[p].snapshotAt <= snapshots[q].snapshotAt
  }

  /** No two snapshots of this account fall into one millisecond. */
  ghost predicate OwnTimes(snapshots: seq<Snapshot>, account: Id) {
    forall p, q :: 0 <= p < q < |snapshots| && snapshots[p].account == account && snapshots[q].account == account ==>
      snapshots[p].snapshotAt != snapshots[q].snapshotAt
  }

  /**
   Exactly when every line that may be returned is the derived balance: the lines
   tied for the greatest snapshotAt hold one balance.
   */
  lemma LatestSnapshotAgreesIff(rows: seq<Row>, snapshots: seq<Snapshot>, account: Id)
    requires CacheAgrees(rows, snapshots) && SnapshotsAscend(snapshots) && Touched(rows, account)
    ensures (forall s :: IsLatest(snapshots, account, s) ==> s.balance == DeriveBalance(Columns(rows), account)) <==>
            (forall s, t :: IsLatest(snapshots, account, s) && IsLatest(snapshots, account, t) ==> s.balance == t.balance)
  {
    hide DeriveBalance, Columns;
    var last := WrittenLastIsLatest(rows, snapshots, account);
  }

  lemma WrittenLastIsLatest(rows: seq<Row>, snapshots: seq<Snapshot>, account: Id) returns (s: Snapshot)
    requires CacheAgrees(rows, snapshots) && SnapshotsAscend(snapshots) && Touched(rows, account)
    ensures IsLatest(snapshots, account, s) && s.balance == DeriveBalance(Columns(rows), account)
  {
    hide DeriveBalance, Columns, Touched;
    var p :| AgreesAt(rows, snapshots, account, p);
    s := snapshots[p];
    forall t | t in snapshots && t.account == account ensures t.snapshotAt <= s.snapshotAt {
      var q :| 0 <= q < |snapshots| && snapshots[q] == t;
      assert q <= p;
    }
  }

  /** If the account's own timestamps are distinct there is no tie: its latest snapshot is the derived balance. */
  lemma LatestSnapshotAgrees(rows: seq<Row>, snapshots: seq<Snapshot>, account: Id, s: Snapshot)
    requires CacheAgrees(rows, snapshots) && SnapshotsAscend(snapshots) && OwnTimes(snapshots, account)
    requires Touched(rows, account) && IsLatest(snapshots, account, s)
    ensures s.balance == DeriveBalance(Columns(rows), account)
  {
    hide DeriveBalance, Columns, CacheAgrees, Touched;
    LatestSnapshotAgreesIff(rows, snapshots, account);
    forall a, b | IsLatest(snapshots, account, a) && IsLatest(snapshots, account, b) ensures a.balance == b.balance {
      var p :| 0 <= p < |snapshots| && snapshots[p] == a;
      var q :| 0 <= q < |snapshots| && snapshots[q] == b;
    }
  }

  /** Two snapshots of one account in the same millisecond: either may count as the latest. */
  lemma SameMillisecondIsAmbiguous(account: Id, at: nat, older: int, newer: int, trigger: Id)
    ensures
      var snapshots := [Snapshot(account, older, at, trigger), Snapshot(account, newer, at, trigger)];
      WrittenLast(snapshots, account, 1) && IsLatest(snapshots, account, snapshots[0])
  {
  }

  // ---- Journals written to the chain -----------------------------------------

  /** The rows are exactly the journal's lines, with ids and times drawn from `first` on. */
  ghost predicate Built(w: World, header: Header, lines: seq<Line>, first: nat, rows: seq<Row>) {
    && |rows| == |lines|
    && forall k :: 0 <= k < |rows| ==> Written(w, header, lines[k], first + k, rows[k])
  }

  ghost predicate Written(w: World, header: Header, line: Line, draw: nat, row: Row) {
    && row.id == w.uuid(draw) && row.postedAt == w.clock(draw)
    && row.entry == Stored(header.journalId, header.effectiveDate, header.referenceType, header.referenceId, line)
    && row.createdBy == header.createdBy && row.narrative == line.narrative
  }

  /** Every id and time used so far lies before everything still to be drawn. */
  ghost predicate DrawnBefore(w: World, rows: seq<Row>, drawn: nat) {
    forall k, n :: 0 <= k < |rows| && drawn <= n ==>
      AtMost(rows[k].id, w.uuid(n)) && rows[k].id != w.uuid(n) && rows[k].postedAt <= w.clock(n)
  }

  /** Rows drawn later come later in the verification order. */
  lemma BuiltIsInOrder(w: World, header: Header, lines: seq<Line>, first: nat, rows: seq<Row>, more: seq<Row>)
    requires Orderly(w) && InOrder(rows) && DrawnBefore(w, rows, first) && Built(w, header, lines, first, more)
    ensures InOrder(rows + more) && DrawnBefore(w, rows + more, first + |lines|)
  {
    var all := rows + more;
    forall j, k | 0 <= j < k < |all| ensures NoLater(all[j], all[k]) && all[j].id != all[k].id {
      if k >= |rows| {
        assert Written(w, header, lines[k - |rows|], first + (k - |rows|), more[k - |rows|]);
        if j >= |rows| {
          assert Written(w, header, lines[j - |rows|], first + (j - |rows|), more[j - |rows|]);
        }
      }
    }
    forall k, n | 0 <= k < |all| && first + |lines| <= n
      ensures AtMost(all[k].id, w.uuid(n)) && all[k].id != w.uuid(n) && all[k].postedAt <= w.clock(n)
    {
      if k >= |rows| {
        assert Written(w, header, lines[k - |rows|], first + (k - |rows|), more[k - |rows|]);
      }
    }
  }

  /** The check passed at some reading of the clock taken in between. */
  ghost predicate WithinLimitsDuring(w: World, entries: seq<Entry>, check: LimitCheck, from: nat, until: nat) {
    && !TooLarge(w.limits, check)
    && (exists d :: from <= d < until && !WindowExceeded(w.limits, entries, check, Day, w.clock(d)))
    && (exists m :: from <= m < until && !WindowExceeded(w.limits, entries, check, Month, w.clock(m)))
  }

  /** Some limit was exceeded at a reading of the clock taken in between. */
  ghost predicate LimitHitDuring(w: World, entries: seq<Entry>, check: LimitCheck, from: nat, until: nat) {
    || TooLarge(w.limits, check)
    || exists d, window :: from <= d < until && WindowExceeded(w.limits, entries, check, window, w.clock(d))
  }

  ghost predicate SnapshotsDrawn(w: World, snapshots: seq<Snapshot>, drawn: nat) {
    && SnapshotsAscend(snapshots)
    && forall p, n :: 0 <= p < |snapshots| && drawn <= n ==> snapshots[p].snapshotAt <= w.clock(n)
  }

  /** Everything but the agreement of the cache. */
  ghost predicate BookOk(w: World, rows: seq<Row>, snapshots: seq<Snapshot>, drawn: nat) {
    && Orderly(w)
    && ChainValid(w.hashing, rows)
    && InOrder(rows)
    && DrawnBefore(w, rows, drawn)
    && SnapshotsDrawn(w, snapshots, drawn)
  }

  lemma DrawingKeepsBook(w: World, rows: seq<Row>, snapshots: seq<Snapshot>, drawn: nat, more: nat)
    requires BookOk(w, rows, snapshots, drawn)
    ensures BookOk(w, rows, snapshots, drawn + more)
  {
  }

  lemma SnapshotKeepsBook(w: World, rows: seq<Row>, snapshots: seq<Snapshot>, drawn: nat, added: Snapshot)
    requires BookOk(w, rows, snapshots, drawn) && added.snapshotAt == w.clock(drawn)
    ensures BookOk(w, rows, snapshots + [added], drawn + 1)
  {
    hide ChainValid, InOrder;
    DrawingKeepsBook(w, rows, snapshots, drawn, 1);
  }

  lemma CommitKeepsBook(w: World, rows: seq<Row>, snapshots: seq<Snapshot>, header: Header, lines: seq<Line>,
                        first: nat, more: seq<Row>)
    requires BookOk(w, rows, snapshots, first) && Built(w, header, lines, first, more)
    requires ChainValid(w.hashing, rows + more)
    ensures BookOk(w, rows + more, snapshots, first + |lines|)
  {
    hide ChainValid, Built;
    BuiltIsInOrder(w, header, lines, first, rows, more);
    DrawingKeepsBook(w, rows, snapshots, first, |lines|);
  }

  lemma HashIgnoresItself(h: Hashing, row: Row, hash: string, previousHash: string)
    ensures HashOf(h, row.(hash := hash), previousHash) == HashOf(h, row, previousHash)
  {
  }

  /** The row of one line: id and time of the draw, hash over its fields and the hash before. */
  function NewRow(w: World, header: Header, line: Line, draw: nat, previousHash: string): (row: Row)
    ensures Written(w, header, line, draw, row)
    ensures row.previousHash == previousHash && row.hash == HashOf(w.hashing, row, previousHash)
  {
    var entry := Stored(header.journalId, header.effectiveDate, header.referenceType, header.referenceId, line);
    var draft := Row(w.uuid(draw), entry, header.createdBy, line.narrative, w.clock(draw), "", previousHash);
    var hash := HashOf(w.hashing, draft, previousHash);
    HashIgnoresItself(w.hashing, draft, hash, previousHash);
    draft.(hash := hash)
  }

  lemma NothingBuilt(w: World, header: Header, first: nat)
    ensures Built(w, header, [], first, [])
  {
  }

  lemma BuiltLength(w: World, header: Header, lines: seq<Line>, first: nat, rows: seq<Row>)
    requires Built(w, header, lines, first, rows)
    ensures |rows| == |lines|
  {
  }

  lemma ExtendBuilt(w: World, header: Header, lines: seq<Line>, first: nat, rows: seq<Row>, k: nat, row: Row)
    requires k < |lines| && Built(w, header, lines[..k], first, rows)
    requires Written(w, header, lines[k], first + k, row)
    ensures Built(w, header, lines[..k + 1], first, rows + [row])
  {
    forall j | 0 <= j < k + 1 ensures Written(w, header, lines[..k + 1][j], first + j, (rows + [row])[j]) {
      if j < k {
        assert Written(w, header, lines[..k][j], first + j, rows[j]);
      }
    }
  }

  /** The first MAX_RETRIES attempts all hit a conflict. */
  predicate AllConflict(faults: seq<Option<nat>>) {
    |faults| >= MAX_RETRIES && forall n :: 0 <= n < MAX_RETRIES ==> faults[n].Some?
  }

  /** How a planned reversal ends: refused as a journal, beaten by conflicts, or posted, each exactly when due. */
  ghost predicate PostedOrRefused(r: Result<seq<Row>, Rejection>, lines: seq<Line>, faults: seq<Option<nat>>) {
    if !Accepted(lines) then r == Err(InvalidJournal)
    else if AllConflict(faults) then r == Err(ConflictError)
    else r.Ok? && |r.value| == |lines|
  }

  /** The journal and the fee that a refund calls for. */
  ghost predicate RefundDue(originals: seq<Entry>, amount: int, refundAmount: real, policy: FeePolicy, originalFee: real,
                            lines: seq<Line>, fee: real)
  {
    FeeGivenBack(policy, refundAmount, amount, originalFee, fee) && IsRefundJournal(originals, refundAmount, fee, lines)
  }

  /** How a refund that is not a replay ends, the reasons in the order in which they are looked at. */
  ghost predicate RefundEnds(r: Result<seq<Row>, Rejection>, originals: seq<Entry>, platformCash: Option<Id>,
                             reversals: seq<Reversal>, original: Id, refundAmount: real, policy: FeePolicy,
                             originalFee: real, faults: seq<Option<nat>>)
  {
    var amount := DeriveOriginalAmount(originals, platformCash);
    if originals == [] then r == Err(Refused(NotFound))
    else if amount as real < refundAmount then r == Err(Refused(ExceedsOriginal))
    else if |originals| == 1 then r == Err(Refused(NoCounterparty))
    else if exists x :: x in reversals && x.original == original && x.feePolicy == FullFee && x.amount == amount
    then r == Err(ReversedBefore)
    else if amount as real < Total(reversals, AmountOf(original)) as real + refundAmount then r == Err(OverRefund)
    else exists lines, fee ::
           RefundDue(originals, amount, refundAmount, policy, originalFee, lines, fee) && PostedOrRefused(r, lines, faults)
  }

  /** The rows of a reversal's journal, with the header it has. */
  ghost predicate ReversalWritten(w: World, header: Header, lines: seq<Line>, first: nat, rows: seq<Row>,
                                  referenceType: TransactionType, createdBy: string, from: nat, until: nat)
  {
    && Built(w, header, lines, first, rows) && header.referenceType == referenceType && header.createdBy == createdBy
    && DrawnDuring(w, header, from, until)
  }

  /** Journal, reference and date are ids and a reading of the clock taken in between; the date is read with the journal id. */
  ghost predicate DrawnDuring(w: World, header: Header, from: nat, until: nat) {
    exists d, m ::
      && from <= d < m < until
      && header.referenceId == w.uuid(d) && header.journalId == w.uuid(m) && header.effectiveDate == w.clock(m)
  }

  lemma WrittenAt(w: World, header: Header, lines: seq<Line>, first: nat, rows: seq<Row>, from: nat, d: nat, m: nat,
                  until: nat)
    requires Built(w, header, lines, first, rows) && from <= d < m < until
    requires header.referenceId == w.uuid(d) && header.journalId == w.uuid(m) && header.effectiveDate == w.clock(m)
    ensures ReversalWritten(w, header, lines, first, rows, header.referenceType, header.createdBy, from, until)
  {
    hide Built;
  }

  /** The rows of a refund and its record: both under one new id, with the amount and the fee as rounded. */
  ghost predicate RefundIsRecorded(w: World, originals: seq<Entry>, before: seq<Reversal>, original: Id,
                                   refundAmount: real, policy: FeePolicy, originalFee: real, createdBy: string,
                                   idempotencyKey: string, rows: seq<Row>, after: seq<Reversal>, from: nat, until: nat)
  {
    exists lines, fee, first, header ::
      && RefundDue(originals, DeriveOriginalAmount(originals, w.platformCash), refundAmount, policy, originalFee, lines, fee)
      && ReversalWritten(w, header, lines, first, rows, RefundPartial, createdBy, from, until)
      && after == before + [Reversal(original, header.referenceId, RoundHalfUp(refundAmount), policy, RoundHalfUp(fee),
                                     idempotencyKey)]
  }

  class LedgerService {
    const world: World
    var rows: seq<Row>
    var reversals: seq<Reversal>
    var snapshots: seq<Snapshot>
    var drawn: nat

    ghost predicate Valid()
      reads this
    {
      BookOk(world, rows, snapshots, drawn) && CacheAgrees(rows, snapshots)
    }

    constructor (w: World)
      requires Orderly(w)
      ensures Valid() && world == w && rows == [] && reversals == [] && snapshots == [] && drawn == 0
    {
      world := w;
      rows, reversals, snapshots, drawn := [], [], [], 0;
    }

    /** One more id, or one more reading of the clock. */
    method Draw() returns (n: nat)
      requires BookOk(world, rows, snapshots, drawn)
      modifies this`drawn
      ensures n == old(drawn) && drawn == n + 1
      ensures BookOk(world, rows, snapshots, drawn)
    {
      DrawingKeepsBook(world, rows, snapshots, drawn, 1);
      n := drawn;
      drawn := drawn + 1;
    }

    /** assertWithinLimits. */
    method AssertWithinLimits(check: LimitCheck) returns (ok: bool)
      requires Valid()
      modifies this`drawn
      ensures Valid() && drawn >= old(drawn)
      ensures ok ==> WithinLimitsDuring(world, Columns(rows), check, old(drawn), drawn)
      ensures !ok ==> LimitHitDuring(world, Columns(rows), check, old(drawn), drawn)
    {
      hide BookOk, CacheAgrees, PostedSince;
      var entries := Columns(rows);
      var day := Draw();
      var month := Draw();
      ok := !TooLarge(world.limits, check)
         && !WindowExceeded(world.limits, entries, check, Day, world.clock(day))
         && !WindowExceeded(world.limits, entries, check, Month, world.clock(month));
    }

    /** The checks postJournalEntry makes inside its transaction. */
    method RunChecks(lines: seq<Line>, checkBalanceOn: seq<Id>, limitChecks: seq<LimitCheck>)
      returns (rejection: Option<Rejection>)
      requires Valid()
      modifies this`drawn
      ensures Valid() && drawn >= old(drawn)
      ensures rejection.None? ==>
                && (forall a :: a in checkBalanceOn ==> !Insufficient(Columns(rows), lines, a))
                && (forall c :: c in limitChecks ==>
                      WithinLimitsDuring(world, Columns(rows), c, old(drawn), drawn))
      ensures rejection.Some? ==>
                || (rejection.value == InsufficientBalance
                    && exists a :: a in checkBalanceOn && Insufficient(Columns(rows), lines, a))
                || (rejection.value == LimitExceeded
                    && (forall a :: a in checkBalanceOn ==> !Insufficient(Columns(rows), lines, a))
                    && exists c :: c in limitChecks && LimitHitDuring(world, Columns(rows), c, old(drawn), drawn))
    {
      hide BookOk, CacheAgrees, Insufficient, TooLarge, WindowExceeded;
      for k := 0 to |checkBalanceOn|
        invariant Valid() && drawn == old(drawn)
        invariant forall j :: 0 <= j < k ==> !Insufficient(Columns(rows), lines, checkBalanceOn[j])
      {
        if Insufficient(Columns(rows), lines, checkBalanceOn[k]) {
          return Some(InsufficientBalance);
        }
      }
      for k := 0 to |limitChecks|
        invariant Valid() && drawn >= old(drawn)
        invariant forall j :: 0 <= j < k ==>
                    WithinLimitsDuring(world, Columns(rows), limitChecks[j], old(drawn), drawn)
      {
        ghost var before := drawn;
        var ok := AssertWithinLimits(limitChecks[k]);
        if !ok {
          HitHeldDuring(world, Columns(rows), limitChecks[k], before, drawn, old(drawn));
          return Some(LimitExceeded);
        }
        forall j | 0 <= j <= k
          ensures WithinLimitsDuring(world, Columns(rows), limitChecks[j], old(drawn), drawn)
        {
          if j < k {
            assert WithinLimitsDuring(world, Columns(rows), limitChecks[j], old(drawn), before);
          }
        }
      }
      return None;
    }

    /**
     The insert loop of one attempt. Its rows are private until the commit; a
     fault makes the attempt fail after that many inserts.
     */
    method InsertLines(header: Header, lines: seq<Line>, fault: Option<nat>)
      returns (r: Result<seq<Row>, Rejection>, ghost first: nat)
      requires Valid()
      modifies this`drawn
      ensures Valid() && old(drawn) <= drawn
      ensures r.Ok? <==> fault.None?
      ensures r.Err? ==> r.error == ConflictError
      ensures first == old(drawn)
      ensures r.Ok? ==>
                && drawn == first + |lines|
                && Built(world, header, lines, first, r.value)
                && ChainValid(world.hashing, rows + r.value)
    {
      hide ChainValid, InOrder, Built, Written, BookOk, CacheAgrees, HashOf;
      first := drawn;
      var previousHash := HeadHash();
      var entries: seq<Row> := [];
      assert rows + entries == rows;
      NothingBuilt(world, header, first);
      assert lines[..0] == [];
      for k := 0 to |lines|
        invariant Valid() && drawn == first + k
        invariant Built(world, header, lines[..k], first, entries)
        invariant ChainValid(world.hashing, rows + entries)
        invariant previousHash == LastHash(world.hashing, rows + entries)
      {
        if fault == Some(k) {
          return Err(ConflictError), first;
        }
        var n := Draw();
        var row := NewRow(world, header, lines[k], n, previousHash);
        ExtendChain(world.hashing, rows + entries, row);
        assert rows + (entries + [row]) == rows + entries + [row];
        ExtendBuilt(world, header, lines, first, entries, k, row);
        entries := entries + [row];
        previousHash := row.hash;
      }
      assert lines[..|lines|] == lines;
      if fault.Some? {
        return Err(ConflictError), first;
      }
      return Ok(entries), first;
    }

    /** The hash of the newest row, or the genesis hash. */
    method HeadHash() returns (hash: string)
      requires Valid()
      ensures hash == LastHash(world.hashing, rows) && ChainValid(world.hashing, rows)
    {
      if |rows| == 0 {
        return world.hashing.genesis;
      }
      NewestIsLast(rows);
      hash := rows[Newest(rows)].hash;
    }

    /** updateSnapshot. */
    method UpdateSnapshot(account: Id, triggeredBy: Id)
      requires BookOk(world, rows, snapshots, drawn)
      modifies this`snapshots, this`drawn
      ensures BookOk(world, rows, snapshots, drawn) && drawn == old(drawn) + 1
      ensures snapshots == old(snapshots) + [Snapshot(account, DeriveBalance(Columns(rows), account),
                                                      world.clock(old(drawn)), triggeredBy)]
    {
      var added := Snapshot(account, DeriveBalance(Columns(rows), account), world.clock(drawn), triggeredBy);
      SnapshotKeepsBook(world, rows, snapshots, drawn, added);
      snapshots := snapshots + [added];
      drawn := drawn + 1;
    }

    /** The refresh after a commit: one snapshot for every account of the posted rows. */
    method RefreshSnapshots(posted: seq<Row>, ghost before: seq<Row>)
      requires BookOk(world, rows, snapshots, drawn) && rows == before + posted && CacheAgrees(before, snapshots)
      modifies this`snapshots, this`drawn
      ensures Valid() && drawn >= old(drawn)
    {
      hide BookOk, DeriveBalance, Columns, Cached;
      var done: seq<Id> := [];
      for k := 0 to |posted|
        invariant BookOk(world, rows, snapshots, drawn) && drawn >= old(drawn)
        invariant forall j :: 0 <= j < k ==> posted[j].entry.account in done
        invariant forall account :: account in done ==> Cached(rows, snapshots, account)
        invariant forall account :: Touched(before, account) && account !in done ==>
                    Cached(before, snapshots, account)
      {
        var account := posted[k].entry.account;
        if account !in done {
          ghost var earlier := snapshots;
          UpdateSnapshot(account, posted[k].id);
          NewestSnapshot(rows, earlier, snapshots[|earlier|]);
          OtherLinesStay(rows, earlier, snapshots[|earlier|]);
          OtherLinesStay(before, earlier, snapshots[|earlier|]);
          done := done + [account];
        }
      }
      forall account | Touched(rows, account) ensures Cached(rows, snapshots, account) {
        if account !in done {
          assert forall j :: 0 <= j < |posted| ==> posted[j].entry.account != account;
          TouchedBefore(before, posted, account);
          UntouchedInCache(before, posted, snapshots, account);
        }
      }
    }

    /**
     postJournalEntry on its own transaction. `faults[n]` says whether attempt n
     hits a conflict, and after how many inserts. The snapshots are refreshed
     after the commit, and if that fails the call throws although it has posted.
     */
    method PostJournalEntry(
        referenceType: TransactionType, referenceId: Id, effectiveDate: int, createdBy: string, lines: seq<Line>,
        checkBalanceOn: seq<Id>, limitChecks: seq<LimitCheck>, faults: seq<Option<nat>>, refreshFails: bool)
      returns (r: Result<seq<Row>, Rejection>, ghost posted: seq<Row>)
      requires Valid()
      modifies this
      ensures reversals == old(reversals) && rows == old(rows) + posted
      ensures BookOk(world, rows, snapshots, drawn) && (r != Err(RefreshFailed) ==> Valid())
      ensures r.Err? ==> snapshots == old(snapshots)
      ensures r.Err? && r.error != RefreshFailed ==> posted == []
      ensures r == Err(InvalidJournal) <==> !Accepted(lines)
      ensures r == Err(InsufficientBalance) ==>
                exists a :: a in checkBalanceOn && Insufficient(Columns(old(rows)), lines, a)
      ensures r == Err(LimitExceeded) ==>
                exists c :: c in limitChecks && LimitHitDuring(world, Columns(old(rows)), c, old(drawn), drawn)
      ensures r == Err(ConflictError) ==> AllConflict(faults)
      ensures r.Err? ==>
                r.error in {InvalidJournal, InsufficientBalance, LimitExceeded, ConflictError, RefreshFailed}
      ensures r == Err(RefreshFailed) ==> refreshFails
      ensures r.Ok? ==> !refreshFails && r.value == posted
      ensures r.Ok? || r == Err(RefreshFailed) ==>
                && (forall a :: a in checkBalanceOn ==> !Insufficient(Columns(old(rows)), lines, a))
                && (forall c :: c in limitChecks ==>
                      WithinLimitsDuring(world, Columns(old(rows)), c, old(drawn), drawn))
                && exists first, journalId :: old(drawn) < first && first + |lines| <= drawn
                     && Built(world, Header(journalId, referenceType, referenceId, effectiveDate, createdBy),
                              lines, first, posted)
    {
      hide BookOk, CacheAgrees, Built, Insufficient, WithinLimitsDuring, LimitHitDuring, ChainValid;
      posted := [];
      assert rows + posted == rows;
      var balanced := AssertBalanced(lines);
      if !AllPositive(lines) || !balanced {
        return Err(InvalidJournal), [];
      }
      var n := Draw();
      var header := Header(world.uuid(n), referenceType, referenceId, effectiveDate, createdBy);
      var attempt := 0;
      while true
        invariant Valid() && rows == old(rows) && snapshots == old(snapshots) && reversals == old(reversals)
        invariant rows + posted == rows && posted == []
        invariant drawn > old(drawn) && attempt < MAX_RETRIES
        invariant attempt <= |faults| && forall n :: 0 <= n < attempt ==> faults[n].Some?
        decreases MAX_RETRIES - attempt
      {
        ghost var start := drawn;
        var rejection := RunChecks(lines, checkBalanceOn, limitChecks);
        if rejection.Some? {
          if rejection.value == LimitExceeded {
            ghost var c :| c in limitChecks && LimitHitDuring(world, Columns(rows), c, start, drawn);
            HitHeldDuring(world, Columns(rows), c, start, drawn, old(drawn));
          }
          return Err(rejection.value), [];
        }
        ghost var checked := drawn;
        var fault := if attempt < |faults| then faults[attempt] else None;
        var inserted, first := InsertLines(header, lines, fault);
        if inserted.Ok? {
          ghost var before := rows;
          CommitKeepsBook(world, rows, snapshots, header, lines, first, inserted.value);
          rows := rows + inserted.value;
          LimitsHeldDuring(world, Columns(before), limitChecks, start, checked, old(drawn), drawn);
          if refreshFails {
            return Err(RefreshFailed), inserted.value;
          }
          label committed:
          RefreshSnapshots(inserted.value, before);
          LimitsHeldDuring(world, Columns(before), limitChecks, old(drawn), old@committed(drawn), old(drawn), drawn);
          return Ok(inserted.value), inserted.value;
        }
        attempt := attempt + 1;
        if attempt == MAX_RETRIES {
          return Err(ConflictError), [];
        }
      }
    }

    /**
     reverseTransaction: the caller owns the transaction, so the posting inside
     it does not touch the cache, and the caller refreshes it after the commit.
     Each outcome occurs exactly under its own condition.
     */
    method ReverseTransaction(original: Id, createdBy: string, idempotencyKey: string, faults: seq<Option<nat>>)
      returns (r: Result<seq<Row>, Rejection>)
      requires Valid()
      modifies this
      ensures Valid()
      ensures r.Err? ==> rows == old(rows) && snapshots == old(snapshots) && reversals == old(reversals)
      ensures Duplicate(old(reversals), original, idempotencyKey) ==>
                r == Ok([]) && rows == old(rows) && snapshots == old(snapshots) && reversals == old(reversals)
      ensures !Duplicate(old(reversals), original, idempotencyKey) ==>
                var plan := PlanReversal(Columns(old(rows)), original, world.platformCash);
                && (plan.Err? ==> r == Err(Refused(plan.error)))
                && (plan.Ok? && AlreadyReversed(old(reversals), original) ==> r == Err(ReversedBefore))
                && (plan.Ok? && !AlreadyReversed(old(reversals), original) ==>
                      PostedOrRefused(r, plan.value.lines, faults))
      ensures r.Ok? && !Duplicate(old(reversals), original, idempotencyKey) ==>
                var originals := OriginalsOf(Columns(old(rows)), original);
                && rows == old(rows) + r.value
                && exists first, header ::
                     && ReversalWritten(world, header, Mirror(originals), first, r.value, RefundFull, createdBy,
                                        old(drawn), drawn)
                     && reversals == old(reversals)
                          + [Reversal(original, header.referenceId, DeriveOriginalAmount(originals, world.platformCash),
                                      FullFee, 0, idempotencyKey)]
    {
      hide BookOk, CacheAgrees, Built, Mirror, RefundLines, DeriveOriginalAmount, OriginalsOf, FeeRefund;
      if Duplicate(reversals, original, idempotencyKey) {
        return Ok([]);
      }
      var planned := PlanReversal(Columns(rows), original, world.platformCash);
      if planned.Err? {
        return Err(Refused(planned.error));
      }
      var plan := planned.value;
      if AlreadyReversed(reversals, original) {
        return Err(ReversedBefore);
      }
      RoundWhole(plan.originalAmount);
      assert plan == Plan(Mirror(OriginalsOf(Columns(rows), original)),
                          DeriveOriginalAmount(OriginalsOf(Columns(rows), original), world.platformCash),
                          plan.originalAmount as real, 0.0);
      r := PostReversal(original, RefundFull, plan, FullFee, 0, idempotencyKey, createdBy, faults);
    }

    /** partialRefund. Each outcome occurs exactly under its own condition. */
    method PartialRefund(original: Id, refundAmount: real, policy: FeePolicy, originalFee: real,
                         createdBy: string, idempotencyKey: string, faults: seq<Option<nat>>)
      returns (r: Result<seq<Row>, Rejection>)
      requires Valid()
      modifies this
      ensures Valid()
      ensures r.Err? ==> rows == old(rows) && snapshots == old(snapshots) && reversals == old(reversals)
      ensures Duplicate(old(reversals), original, idempotencyKey) ==>
                r == Ok([]) && rows == old(rows) && snapshots == old(snapshots) && reversals == old(reversals)
      ensures !Duplicate(old(reversals), original, idempotencyKey) ==>
                RefundEnds(r, OriginalsOf(Columns(old(rows)), original), world.platformCash, old(reversals), original,
                           refundAmount, policy, originalFee, faults)
      ensures r.Ok? && !Duplicate(old(reversals), original, idempotencyKey) ==>
                && rows == old(rows) + r.value
                && RefundIsRecorded(world, OriginalsOf(Columns(old(rows)), original), old(reversals), original,
                                    refundAmount, policy, originalFee, createdBy, idempotencyKey, r.value, reversals,
                                    old(drawn), drawn)
    {
      hide BookOk, CacheAgrees, Built, Mirror, RefundLines, DeriveOriginalAmount, OriginalsOf, FeeRefund, FeeGivenBack,
        IsRefundJournal, PostedOrRefused, Accepted, ReversalWritten;
      if Duplicate(reversals, original, idempotencyKey) {
        return Ok([]);
      }
      ghost var before := reversals;
      ghost var originals := OriginalsOf(Columns(rows), original);
      RefundPlanIs(Columns(rows), original, world.platformCash, refundAmount, policy, originalFee);
      var planned := PlanPartialRefund(Columns(rows), original, world.platformCash, refundAmount, policy, originalFee);
      if planned.Err? {
        return Err(Refused(planned.error));
      }
      var plan := planned.value;
      if FullyReversed(reversals, original, plan.originalAmount) {
        return Err(ReversedBefore);
      }
      if OverLimit(reversals, original, refundAmount, plan.originalAmount) {
        return Err(OverRefund);
      }
      r := PostReversal(original, RefundPartial, plan, policy, RoundHalfUp(plan.feeRefund), idempotencyKey, createdBy, faults);
      assert RefundDue(originals, plan.originalAmount, refundAmount, policy, originalFee, plan.lines, plan.feeRefund);
      if r.Ok? {
        ghost var first, header :|
          && ReversalWritten(world, header, plan.lines, first, r.value, RefundPartial, createdBy, old(drawn), drawn)
          && reversals == before
               + [Reversal(original, header.referenceId, RoundHalfUp(plan.refundAmount), policy,
                           RoundHalfUp(plan.feeRefund), idempotencyKey)];
      }
    }

    /** The shared tail of both reversals: post in the caller's transaction, record, commit, refresh. */
    method PostReversal(original: Id, referenceType: TransactionType, plan: Plan, policy: FeePolicy, fee: int,
                        idempotencyKey: string, createdBy: string, faults: seq<Option<nat>>)
      returns (r: Result<seq<Row>, Rejection>)
      requires Valid()
      modifies this
      ensures Valid()
      ensures PostedOrRefused(r, plan.lines, faults)
      ensures r.Err? ==> rows == old(rows) && snapshots == old(snapshots) && reversals == old(reversals)
      ensures r.Ok? ==>
                && rows == old(rows) + r.value
                && exists first, header ::
                     && ReversalWritten(world, header, plan.lines, first, r.value, referenceType, createdBy,
                                        old(drawn), drawn)
                     && reversals == old(reversals)
                          + [Reversal(original, header.referenceId, RoundHalfUp(plan.refundAmount), policy, fee,
                                      idempotencyKey)]
    {
      hide BookOk, CacheAgrees, Built, ChainValid, ReversalWritten, Accepted, RoundHalfUp, Orderly;
      var n := Draw();
      var reversalId := world.uuid(n);
      var attempt := 0;
      while true
        invariant Valid() && rows == old(rows) && snapshots == old(snapshots) && reversals == old(reversals)
        invariant n == old(drawn) < drawn
        invariant attempt < MAX_RETRIES && attempt <= |faults| && forall n :: 0 <= n < attempt ==> faults[n].Some?
        decreases MAX_RETRIES - attempt
      {
        if !Accepted(plan.lines) {
          return Err(InvalidJournal);
        }
        var m := Draw();
        var header := Header(world.uuid(m), referenceType, reversalId, world.clock(m), createdBy);
        var fault := if attempt < |faults| then faults[attempt] else None;
        var inserted, first := InsertLines(header, plan.lines, fault);
        if inserted.Ok? {
          ghost var before := rows;
          BuiltLength(world, header, plan.lines, first, inserted.value);
          CommitKeepsBook(world, rows, snapshots, header, plan.lines, first, inserted.value);
          rows := rows + inserted.value;
          reversals := reversals
            + [Reversal(original, reversalId, RoundHalfUp(plan.refundAmount), policy, fee, idempotencyKey)];
          RefreshSnapshots(inserted.value, before);
          WrittenAt(world, header, plan.lines, first, inserted.value, old(drawn), n, m, drawn);
          return Ok(inserted.value);
        }
        attempt := attempt + 1;
        if attempt == MAX_RETRIES {
          return Err(ConflictError);
        }
      }
    }

    /** verifyFullChain: read in order and verify. */
    method Verify(from: Option<nat>, to: Option<nat>) returns (verdict: Verdict)
      requires Valid() && Trusted(world.hashing)
      ensures verdict.Intact? <==>
              ReadForVerification(rows, from, to) == [] || from.None? || from.value <= rows[0].postedAt
    {
      EveryCutVerifies(world.hashing, rows, from, to);
      verdict := VerifyChain(world.hashing, ReadForVerification(rows, from, to));
    }
  }

  lemma LimitsHeldDuring(w: World, entries: seq<Entry>, checks: seq<LimitCheck>, from: nat, until: nat, from': nat, until': nat)
    requires from' <= from && until <= until'
    requires forall c :: c in checks ==> WithinLimitsDuring(w, entries, c, from, until)
    ensures forall c :: c in checks ==> WithinLimitsDuring(w, entries, c, from', until')
  {
    forall c | c in checks ensures WithinLimitsDuring(w, entries, c, from', until') {
      assert WithinLimitsDuring(w, entries, c, from, until);
    }
  }

  lemma HitHeldDuring(w: World, entries: seq<Entry>, check: LimitCheck, from: nat, until: nat, from': nat)
    requires from' <= from && LimitHitDuring(w, entries, check, from, until)
    ensures LimitHitDuring(w, entries, check, from', until)
  {
  }

  lemma NewestSnapshot(rows: seq<Row>, snapshots: seq<Snapshot>, added: Snapshot)
    requires added.balance == DeriveBalance(Columns(rows), added.account)
    ensures Cached(rows, snapshots + [added], added.account)
  {
    assert AgreesAt(rows, snapshots + [added], added.account, |snapshots|);
  }

  /** A new snapshot is the last line of its own account only. */
  lemma OtherLinesStay(rows: seq<Row>, snapshots: seq<Snapshot>, added: Snapshot)
    ensures forall account :: account != added.account && Cached(rows, snapshots, account) ==>
              Cached(rows, snapshots + [added], account)
  {
    forall account | account != added.account && Cached(rows, snapshots, account)
      ensures Cached(rows, snapshots + [added], account)
    {
      var p :| AgreesAt(rows, snapshots, account, p);
      assert AgreesAt(rows, snapshots + [added], account, p);
    }
  }

  lemma TouchedBefore(before: seq<Row>, posted: seq<Row>, account: Id)
    requires Touched(before + posted, account)
    requires forall k :: 0 <= k < |posted| ==> posted[k].entry.account != account
    ensures Touched(before, account)
  {
    var k :| 0 <= k < |before + posted| && (before + posted)[k].entry.account == account;
    assert k < |before| && before[k].entry.account == account;
  }

  lemma UntouchedInCache(before: seq<Row>, posted: seq<Row>, snapshots: seq<Snapshot>, account: Id)
    requires Cached(before, snapshots, account)
    requires forall k :: 0 <= k < |posted| ==> posted[k].entry.account != account
    ensures Cached(before + posted, snapshots, account)
  {
    var p :| AgreesAt(before, snapshots, account, p);
    UntouchedBalance(Columns(before), Columns(posted), account);
    assert Columns(before + posted) == Columns(before) + Columns(posted);
    assert AgreesAt(before + posted, snapshots, account, p);
  }
}
