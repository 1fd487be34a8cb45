/**
 Idempotent execution (src/transactions/transactions.service.ts `process`,
 src/transactions/idempotency.service.ts). Calls run one after another; what
 the database and the handler do during a call is part of the call.
 */
module Idempotency {
  import opened Money
  import opened Sums
  import Ledger
  import HashChain
  import Service = Posting

  /** (key, userId), the unique index of the key table; a record's id stands for it. */
  type KeyId = (string, string)

  const MAX_ATTEMPTS: nat := 3
  const STALE: int := 300_000

  datatype Status = Processing | Completed | Failed

  datatype Response = Response(transactionId: string, journalId: string)

  datatype Body = Stored(response: Response) | Message(text: string)

  datatype KeyRecord = KeyRecord(requestHash: string, status: Status, responseBody: Option<Body>, createdAt: int)

  /** A committed journal and the key it was posted under. */
  datatype Posting = Posting(under: Option<KeyId>, response: Response)

  datatype Store = Store(keys: map<KeyId, KeyRecord>, journals: seq<Posting>)

  /** How one serializable attempt ends: it commits, hits a write conflict, or fails otherwise. */
  datatype Attempt = Commits | Conflicts | Breaks

  /**
   What the handler does: it throws with nothing committed, it posts, or it posts
   and then throws, because balance snapshots are refreshed after the commit.
   */
  datatype Execution = Refuses(message: string) | Posts(response: Response) | PostsThenThrows(response: Response, message: string)

  /** `marks`: the final update of the key record goes through. */
  datatype Weather = Weather(attempt: nat -> Attempt, resolves: bool, execution: Execution, marks: bool, now: int)

  datatype Call =
    | Process(request: string, actor: string, key: Option<string>, userId: Option<string>, weather: Weather)
    | Cleanup(at: int)

  datatype Failure = KeyReused | Unavailable | UnknownAccount | Threw(message: string) | NotMarked

  type Outcome = Result<Body, Failure>

  function IdOf(call: Call): Option<KeyId>
    requires call.Process?
  {
    match call.key
    case None => None
    case Some(key) => Some((key, if call.userId.Some? then call.userId.value else call.actor))
  }

  // ---- checkAndReserve -------------------------------------------------------

  /** The attempt that decides: conflicts are retried while attempts remain. */
  function Settled(attempt: nat -> Attempt, k: nat): Attempt
    requires 1 <= k <= MAX_ATTEMPTS
    decreases MAX_ATTEMPTS - k
  {
    if attempt(k) == Conflicts && k < MAX_ATTEMPTS then Settled(attempt, k + 1) else attempt(k)
  }

  /** The reservation commits exactly if one of three attempts commits and those before it hit conflicts. */
  lemma SettledIff(attempt: nat -> Attempt)
    ensures Settled(attempt, 1) == Commits <==>
            || attempt(1) == Commits
            || (attempt(1) == Conflicts && attempt(2) == Commits)
            || (attempt(1) == Conflicts && attempt(2) == Conflicts && attempt(3) == Commits)
  {
    assert Settled(attempt, 3) == attempt(3);
  }

  datatype Reservation = Reservation(isNew: bool, keyRecord: KeyRecord)

  function Reserve(keys: map<KeyId, KeyRecord>, id: KeyId, requestHash: string, weather: Weather)
    : Result<Reservation, Failure>
  {
    if Settled(weather.attempt, 1) != Commits then Err(Unavailable)
    else if id !in keys then Ok(Reservation(true, KeyRecord(requestHash, Processing, None, weather.now)))
    else if keys[id].requestHash != requestHash then Err(KeyReused)
    else Ok(Reservation(false, keys[id]))
  }

  predicate CanReplay(record: KeyRecord) {
    record.status == Completed && record.responseBody.Some?
  }

  // ---- One call as a function of the store -----------------------------------

  function Commit(s: Store, under: Option<KeyId>, response: Response): Store {
    s.(journals := s.journals + [Posting(under, response)])
  }

  function Mark(s: Store, id: Option<KeyId>, status: Status, body: Body): Store
    requires id.Some? ==> id.value in s.keys
  {
    match id
    case None => s
    case Some(k) => s.(keys := s.keys[k := s.keys[k].(status := status, responseBody := Some(body))])
  }

  /** From the reservation on: resolve the accounts, run the handler, mark the key. */
  function Execute(s: Store, id: Option<KeyId>, weather: Weather): (Store, Outcome)
    requires id.Some? ==> id.value in s.keys
  {
    if !weather.resolves then (s, Err(UnknownAccount))
    else
      match weather.execution
      case Refuses(message) =>
        if id.None? || weather.marks then (Mark(s, id, Failed, Message(message)), Err(Threw(message)))
        else (s, Err(NotMarked))
      case PostsThenThrows(response, message) =>
        var posted := Commit(s, id, response);
        if id.None? || weather.marks then (Mark(posted, id, Failed, Message(message)), Err(Threw(message)))
        else (posted, Err(NotMarked))
      case Posts(response) =>
        var posted := Commit(s, id, response);
        if id.None? || weather.marks then (Mark(posted, id, Completed, Stored(response)), Ok(Stored(response)))
        else (posted, Err(NotMarked))
  }

  function Sweep(keys: map<KeyId, KeyRecord>, at: int): map<KeyId, KeyRecord> {
    map k | k in keys :: if Stale(keys[k], at) then keys[k].(status := Failed) else keys[k]
  }

  predicate Stale(record: KeyRecord, at: int) {
    record.status == Processing && record.createdAt < at - STALE
  }

  /** The idempotency check lets the call go on, or answers it. */
  datatype Admission = Proceed | Answer(outcome: Outcome)

  function Admit(s: Store, id: Option<KeyId>, requestHash: string, weather: Weather): (Store, Admission) {
    if id.None? then (s, Proceed)
    else
      match Reserve(s.keys, id.value, requestHash, weather)
      case Err(failure) => (s, Answer(Err(failure)))
      case Ok(reservation) =>
        if !reservation.isNew && CanReplay(reservation.keyRecord)
        then (s, Answer(Ok(reservation.keyRecord.responseBody.value)))
        else (s.(keys := s.keys[id.value := reservation.keyRecord]), Proceed)
  }

  function Step(s: Store, call: Call, hash: string -> string): (Store, Outcome) {
    match call
    case Cleanup(at) => (s.(keys := Sweep(s.keys, at)), Ok(Message("")))
    case Process(request, _, _, _, weather) =>
      var (reserved, admission) := Admit(s, IdOf(call), hash(request), weather);
      match admission
      case Answer(outcome) => (reserved, outcome)
      case Proceed => Execute(reserved, IdOf(call), weather)
  }

  // ---- The services ----------------------------------------------------------

  class TransactionsService {
    var keys: map<KeyId, KeyRecord>
    var journals: seq<Posting>
    const hash: string -> string

    ghost function Now(): Store
      reads this
    {
      Store(keys, journals)
    }

    constructor (hash: string -> string)
      ensures keys == map[] && journals == [] && this.hash == hash
    {
      this.hash := hash;
      keys, journals := map[], [];
    }

    method CheckAndReserve(id: KeyId, requestHash: string, weather: Weather)
      returns (r: Result<Reservation, Failure>)
      modifies this`keys
      ensures r == Reserve(old(keys), id, requestHash, weather)
      ensures keys == if r.Ok? then old(keys)[id := r.value.keyRecord] else old(keys)
    {
      for attempt := 1 to MAX_ATTEMPTS + 1
        invariant keys == old(keys)
        invariant attempt <= MAX_ATTEMPTS ==> Settled(weather.attempt, 1) == Settled(weather.attempt, attempt)
        invariant attempt <= MAX_ATTEMPTS
      {
        match weather.attempt(attempt) {
          case Commits =>
            if id in keys {
              if keys[id].requestHash != requestHash {
                return Err(KeyReused);
              }
              assert keys[id := keys[id]] == keys;
              return Ok(Reservation(false, keys[id]));
            }
            var keyRecord := KeyRecord(requestHash, Processing, None, weather.now);
            keys := keys[id := keyRecord];
            return Ok(Reservation(true, keyRecord));
          case Conflicts =>
            if attempt == MAX_ATTEMPTS {
              return Err(Unavailable);
            }
          case Breaks =>
            return Err(Unavailable);
        }
      }
    }

    method MarkCompleted(id: KeyId, response: Response)
      requires id in keys
      modifies this`keys
      ensures Now() == Mark(old(Now()), Some(id), Completed, Stored(response))
    {
      keys := keys[id := keys[id].(status := Completed, responseBody := Some(Stored(response)))];
    }

    method MarkFailed(id: KeyId, message: string)
      requires id in keys
      modifies this`keys
      ensures Now() == Mark(old(Now()), Some(id), Failed, Message(message))
    {
      keys := keys[id := keys[id].(status := Failed, responseBody := Some(Message(message)))];
    }

    method CleanupStaleKeys(at: int) returns (count: nat)
      modifies this`keys
      ensures keys == Sweep(old(keys), at) && keys.Keys == old(keys).Keys
      ensures forall k :: k in keys ==>
                keys[k] == if old(keys)[k].status == Processing && old(keys)[k].createdAt < at - 300_000
                           then old(keys)[k].(status := Failed) else old(keys)[k]
      ensures count == |set k | k in old(keys) && old(keys)[k].status == Processing && old(keys)[k].createdAt < at - 300_000|
    {
      var stale := set k | k in keys && Stale(keys[k], at);
      assert stale == set k | k in keys && keys[k].status == Processing && keys[k].createdAt < at - 300_000;
      count := |stale|;
      keys := map k | k in keys :: if k in stale then keys[k].(status := Failed) else keys[k];
    }

    /** process up to the resolution of the accounts. */
    method Check(request: string, actor: string, key: Option<string>, userId: Option<string>, weather: Weather)
      returns (id: Option<KeyId>, admission: Admission)
      modifies this`keys
      ensures id == IdOf(Call.Process(request, actor, key, userId, weather))
      ensures (Now(), admission) == Admit(old(Now()), id, hash(request), weather)
    {
      id := None;
      if key.Some? {
        var effectiveUserId := if userId.Some? then userId.value else actor;
        id := Some((key.value, effectiveUserId));
        var reserved := CheckAndReserve(id.value, hash(request), weather);
        if reserved.Err? {
          return id, Answer(Err(reserved.error));
        }
        var keyRecord := reserved.value.keyRecord;
        if !reserved.value.isNew {
          assert keys == old(keys);
          if keyRecord.status == Completed && keyRecord.responseBody.Some? {
            return id, Answer(Ok(keyRecord.responseBody.value));
          }
        }
      }
      return id, Proceed;
    }

    /** process from the handler's outcome on. */
    method Finish(id: Option<KeyId>, weather: Weather) returns (result: Outcome)
      requires weather.resolves && (id.Some? ==> id.value in keys)
      modifies this`keys, this`journals
      ensures (Now(), result) == Execute(old(Now()), id, weather)
    {
      if !weather.execution.Refuses? {
        journals := journals + [Posting(id, weather.execution.response)];
      }
      if !weather.execution.Posts? {
        if id.Some? {
          if !weather.marks {
            return Err(NotMarked);
          }
          MarkFailed(id.value, weather.execution.message);
        }
        return Err(Threw(weather.execution.message));
      }
      if id.Some? {
        if !weather.marks {
          return Err(NotMarked);
        }
        MarkCompleted(id.value, weather.execution.response);
      }
      return Ok(Stored(weather.execution.response));
    }

    method Process(request: string, actor: string, key: Option<string>, userId: Option<string>, weather: Weather)
      returns (result: Outcome)
      modifies this`keys, this`journals
      ensures (Now(), result) == Step(old(Now()), Call.Process(request, actor, key, userId, weather), hash)
    {
      var id, admission := Check(request, actor, key, userId, weather);
      if admission.Answer? {
        return admission.outcome;
      }
      if !weather.resolves {
        return Err(UnknownAccount);
      }
      result := Finish(id, weather);
    }

    /**
     process with the ledger behind it: what the handler does is what
     postJournalEntry does with the journal the handler has built. The call is
     one Step with that execution; a failed call has left the ledger's rows as
     they were, unless the refresh or the key's update failed after the commit.
     */
    method ProcessOnLedger(request: string, actor: string, key: Option<string>, userId: Option<string>, weather: Weather,
                           ledger: Service.LedgerService, built: Result<Journal, string>,
                           faults: seq<Option<nat>>, refreshFails: bool)
      returns (result: Outcome, ghost execution: Execution, ghost posted: seq<HashChain.Row>)
      requires ledger.Valid()
      modifies this`keys, this`journals, ledger
      ensures (Now(), result)
           == Step(old(Now()), Call.Process(request, actor, key, userId, weather.(execution := execution)), hash)
      ensures ledger.rows == old(ledger.rows) + posted
      ensures journals == old(journals) ==> posted == []
      ensures journals != old(journals) ==> built.Ok? && WrittenFor(ledger.world, built.value, actor, posted)
      ensures result.Err? && (result.error in {KeyReused, Unavailable, UnknownAccount} || execution.Refuses?) ==>
                ledger.rows == old(ledger.rows)
      ensures result.Err? && !refreshFails && weather.marks ==> ledger.rows == old(ledger.rows)
      ensures
        Admit(old(Now()), IdOf(Call.Process(request, actor, key, userId, weather)), hash(request), weather).1 == Proceed
        && weather.resolves ==>
          Caused(ledger.world, Service.Columns(old(ledger.rows)), built, faults, refreshFails,
                 old(ledger.drawn), ledger.drawn, execution)
      ensures execution.PostsThenThrows? ==> refreshFails
    {
      hide RefusalDue, Service.BookOk, Service.CacheAgrees, Ledger.Accepted;
      posted := [];
      execution := Refuses("");
      assert ledger.rows + posted == ledger.rows;
      var id, admission := Check(request, actor, key, userId, weather);
      if admission.Answer? {
        return admission.outcome, execution, posted;
      }
      if !weather.resolves {
        return Err(UnknownAccount), execution, posted;
      }
      var done;
      done, posted := ExecuteOnLedger(ledger, built, actor, faults, refreshFails);
      execution := done;
      result := Finish(id, weather.(execution := done));
    }
  }

  // ---- The handler's outcome, from the ledger --------------------------------

  /** What a handler hands to postJournalEntry. */
  datatype Journal = Journal(
    referenceType: Ledger.TransactionType, referenceId: string, effectiveDate: int, lines: seq<Ledger.Line>,
    checkBalanceOn: seq<string>, limitChecks: seq<Ledger.LimitCheck>)

  ghost predicate WrittenFor(w: Service.World, journal: Journal, actor: string, rows: seq<HashChain.Row>) {
    exists first, journalId ::
      Service.Built(w, Service.Header(journalId, journal.referenceType, journal.referenceId, journal.effectiveDate, actor),
                    journal.lines, first, rows)
  }

  function TextOf(rejection: Service.Rejection): string {
    match rejection
    case InvalidJournal => "Unbalanced or non-positive journal"
    case InsufficientBalance => "Insufficient balance"
    case LimitExceeded => "Limit exceeded"
    case ConflictError => "Write conflict"
    case _ => "Internal error"
  }

  /** One of the reasons for which postJournalEntry refuses a journal before it commits. */
  ghost predicate RefusalDue(w: Service.World, entries: seq<Ledger.Entry>, journal: Journal, faults: seq<Option<nat>>,
                             from: nat, until: nat)
  {
    || !Ledger.Accepted(journal.lines)
    || (exists a :: a in journal.checkBalanceOn && Ledger.Insufficient(entries, journal.lines, a))
    || (exists c :: c in journal.limitChecks && Service.LimitHitDuring(w, entries, c, from, until))
    || Service.AllConflict(faults)
  }

  /** The execution has its cause in the journal, the ledger it met and the conflicts on the way. */
  ghost predicate Caused(w: Service.World, entries: seq<Ledger.Entry>, built: Result<Journal, string>,
                         faults: seq<Option<nat>>, refreshFails: bool, from: nat, until: nat, execution: Execution)
  {
    match execution
    case Refuses(message) =>
      if built.Err? then message == built.error else RefusalDue(w, entries, built.value, faults, from, until)
    case PostsThenThrows(_, _) => built.Ok? && refreshFails && Ledger.Accepted(built.value.lines)
    case Posts(_) => built.Ok? && !refreshFails && Ledger.Accepted(built.value.lines)
  }

  /**
   handler.execute: it throws before posting, or posts. The three outcomes are
   what the ledger does, not an assumption: only a failed refresh throws after
   rows have been committed.
   */
  method ExecuteOnLedger(ledger: Service.LedgerService, built: Result<Journal, string>, actor: string,
                         faults: seq<Option<nat>>, refreshFails: bool)
    returns (execution: Execution, ghost posted: seq<HashChain.Row>)
    requires ledger.Valid()
    modifies ledger
    ensures ledger.rows == old(ledger.rows) + posted
    ensures execution.Refuses? ==> posted == []
    ensures Caused(ledger.world, Service.Columns(old(ledger.rows)), built, faults, refreshFails,
                   old(ledger.drawn), ledger.drawn, execution)
    ensures !execution.Refuses? ==> built.Ok? && WrittenFor(ledger.world, built.value, actor, posted)
  {
    hide Service.BookOk, Service.CacheAgrees, Service.Built, Service.WithinLimitsDuring, Service.LimitHitDuring,
      Service.AllConflict, Ledger.Accepted, Ledger.Insufficient;
    posted := [];
    assert ledger.rows + posted == ledger.rows;
    if built.Err? {
      return Refuses(built.error), posted;
    }
    var j := built.value;
    var r;
    r, posted := ledger.PostJournalEntry(j.referenceType, j.referenceId, j.effectiveDate, actor, j.lines,
                                         j.checkBalanceOn, j.limitChecks, faults, refreshFails);
    if r.Ok? {
      var journalId := if |r.value| > 0 then r.value[0].entry.journalId else "";
      return Posts(Response(j.referenceId, journalId)), posted;
    }
    if r.error == Service.RefreshFailed {
      return PostsThenThrows(Response(j.referenceId, ""), "Snapshot refresh failed"), posted;
    }
    return Refuses(TextOf(r.error)), posted;
  }

  // ---- Runs ------------------------------------------------------------------

  function Run(s: Store, calls: seq<Call>, hash: string -> string): Store {
    if |calls| == 0 then s
    else Step(Run(s, calls[..|calls| - 1], hash), calls[|calls| - 1], hash).0
  }

  function Under(id: KeyId): Posting -> int {
    (p: Posting) => if p.under == Some(id) then 1 else 0
  }

  function CommitsUnder(s: Store, id: KeyId): int {
    Total(s.journals, Under(id))
  }

  predicate Done(s: Store, id: KeyId) {
    id in s.keys && CanReplay(s.keys[id])
  }

  /** The call committed a journal under the key without getting the key completed. */
  predicate Loses(s: Store, call: Call, hash: string -> string, id: KeyId) {
    var after := Step(s, call, hash).0;
    after.journals != s.journals && call.Process? && IdOf(call) == Some(id) && !Done(after, id)
  }

  /** What in the call and the store makes it so: it gets to post, and then fails. */
  predicate FailsAfterCommit(s: Store, call: Call, hash: string -> string, id: KeyId) {
    && call.Process? && IdOf(call) == Some(id)
    && Settled(call.weather.attempt, 1) == Commits
    && (id in s.keys ==> s.keys[id].requestHash == hash(call.request) && !CanReplay(s.keys[id]))
    && call.weather.resolves && !call.weather.execution.Refuses?
    && (call.weather.execution.PostsThenThrows? || !call.weather.marks)
  }

  lemma LosesIff(s: Store, call: Call, hash: string -> string, id: KeyId)
    ensures Loses(s, call, hash, id) <==> FailsAfterCommit(s, call, hash, id)
  {
    var after := Step(s, call, hash).0;
    assert after.journals != s.journals ==> |after.journals| == |s.journals| + 1;
  }

  function Losses(s: Store, calls: seq<Call>, hash: string -> string, id: KeyId): nat {
    if |calls| == 0 then 0
    else
      var front, last := calls[..|calls| - 1], calls[|calls| - 1];
      Losses(s, front, hash, id) + (if Loses(Run(s, front, hash), last, hash, id) then 1 else 0)
  }

  function One(b: bool): nat {
    if b then 1 else 0
  }

  /** The key stays completed with the same response, and no journal is added under it. */
  predicate Kept(s: Store, after: Store, id: KeyId)
    requires Done(s, id)
  {
    Done(after, id) && after.keys[id] == s.keys[id] && CommitsUnder(after, id) == CommitsUnder(s, id)
  }

  /** What one call does to one key: a completed key is final, and every commit is either recorded or lost. */
  lemma StepAccounts(s: Store, call: Call, hash: string -> string, id: KeyId)
    ensures
      var after := Step(s, call, hash).0;
      && CommitsUnder(after, id) - One(Done(after, id))
         == CommitsUnder(s, id) - One(Done(s, id)) + One(Loses(s, call, hash, id))
      && (Done(s, id) ==> Kept(s, after, id))
  {
    AtMostOneMore(s, call, hash);
    KeyAfter(s, call, hash, id);
    hide Step, Done;
    var after := Step(s, call, hash).0;
    if after.journals != s.journals {
      var last := after.journals[|s.journals|];
      TotalConcat(s.journals, [last], Under(id));
      TotalSingle(last, Under(id));
    }
  }

  /** A completed key is final, and becomes so only by a commit under it. */
  lemma KeyAfter(s: Store, call: Call, hash: string -> string, id: KeyId)
    ensures
      var after := Step(s, call, hash).0;
      && (Done(s, id) ==>
            Done(after, id) && after.keys[id] == s.keys[id]
            && (after.journals == s.journals || (call.Process? && IdOf(call) != Some(id))))
      && (!Done(s, id) && Done(after, id) ==> after.journals != s.journals && call.Process? && IdOf(call) == Some(id))
  {
    hide Settled;
    var after := Step(s, call, hash).0;
    assert after.journals != s.journals ==> |after.journals| == |s.journals| + 1;
  }

  /** Over any run, the journals under a key are its losses plus one if it was completed on the way. */
  lemma {:induction false} EveryCommitIsAccountedFor(s: Store, calls: seq<Call>, hash: string -> string, id: KeyId)
    ensures
      var after := Run(s, calls, hash);
      && CommitsUnder(after, id) == CommitsUnder(s, id) + One(Done(after, id)) - One(Done(s, id)) + Losses(s, calls, hash, id)
      && (Done(s, id) ==> Kept(s, after, id))
  {
    if |calls| > 0 {
      EveryCommitIsAccountedFor(s, calls[..|calls| - 1], hash, id);
      StepAccounts(Run(s, calls[..|calls| - 1], hash), calls[|calls| - 1], hash, id);
    }
  }

  /** Nothing fails between the commit and the completed key. */
  predicate Reliable(call: Call) {
    call.Process? ==> call.weather.marks && !call.weather.execution.PostsThenThrows?
  }

  /** Every call under this key is reliable; what happens under other keys does not matter. */
  predicate ReliableUnder(calls: seq<Call>, id: KeyId) {
    forall k :: 0 <= k < |calls| && calls[k].Process? && IdOf(calls[k]) == Some(id) ==> Reliable(calls[k])
  }

  lemma {:induction false} ReliableCallsLoseNothing(s: Store, calls: seq<Call>, hash: string -> string, id: KeyId)
    requires ReliableUnder(calls, id)
    ensures Losses(s, calls, hash, id) == 0
  {
    if |calls| > 0 {
      ReliableCallsLoseNothing(s, calls[..|calls| - 1], hash, id);
      LosesIff(Run(s, calls[..|calls| - 1], hash), calls[|calls| - 1], hash, id);
    }
  }

  const EMPTY := Store(map[], [])

  /** Each key commits at most one journal, and exactly one if it ends up completed. */
  lemma AtMostOneJournal(calls: seq<Call>, hash: string -> string, id: KeyId)
    requires ReliableUnder(calls, id)
    ensures CommitsUnder(Run(EMPTY, calls, hash), id) == One(Done(Run(EMPTY, calls, hash), id)) <= 1
  {
    ReliableCallsLoseNothing(EMPTY, calls, hash, id);
    EveryCommitIsAccountedFor(EMPTY, calls, hash, id);
  }

  // ---- The hash of a key's request never changes ------------------------------

  lemma {:induction false} HashIsFixed(s: Store, calls: seq<Call>, hash: string -> string, id: KeyId)
    requires id in s.keys
    ensures id in Run(s, calls, hash).keys && Run(s, calls, hash).keys[id].requestHash == s.keys[id].requestHash
  {
    if |calls| > 0 {
      HashIsFixed(s, calls[..|calls| - 1], hash, id);
    }
  }

  ghost predicate CollisionFree(hash: string -> string) {
    forall x, y :: hash(x) == hash(y) ==> x == y
  }

  /**
   After a success, whatever calls come in between, a repeat with the same body
   returns the stored response (or fails to reach the database) and posts nothing.
   */
  lemma SuccessIsReplayed(s: Store, first: Call, between: seq<Call>, again: Call, hash: string -> string, id: KeyId)
    requires first.Process? && again.Process? && IdOf(first) == Some(id) && IdOf(again) == Some(id)
    requires again.request == first.request
    requires Step(s, first, hash).1.Ok?
    ensures
      var s1, response := Step(s, first, hash).0, Step(s, first, hash).1;
      var s2 := Run(s1, between, hash);
      && Step(s2, again, hash).0 == s2
      && Step(s2, again, hash).1 == if Settled(again.weather.attempt, 1) == Commits then response else Err(Unavailable)
  {
    var s1 := Step(s, first, hash).0;
    assert Done(s1, id) && s1.keys[id].requestHash == hash(first.request);
    EveryCommitIsAccountedFor(s1, between, hash, id);
  }

  /** Once a key has been used, a different body is always rejected and changes nothing. */
  lemma DifferentBodyIsRejected(s: Store, first: Call, between: seq<Call>, other: Call, hash: string -> string, id: KeyId)
    requires CollisionFree(hash)
    requires first.Process? && other.Process? && IdOf(first) == Some(id) && IdOf(other) == Some(id)
    requires other.request != first.request
    requires Step(s, first, hash).1.Err? ==> Step(s, first, hash).1.error !in {KeyReused, Unavailable}
    ensures
      var s2 := Run(Step(s, first, hash).0, between, hash);
      && Step(s2, other, hash).0 == s2
      && Step(s2, other, hash).1 == Err(if Settled(other.weather.attempt, 1) == Commits then KeyReused else Unavailable)
  {
    var s1 := Step(s, first, hash).0;
    assert id in s1.keys && s1.keys[id].requestHash == hash(first.request);
    HashIsFixed(s1, between, hash, id);
    assert hash(other.request) != hash(first.request);
  }

  /** A failed call has posted nothing, unless what failed came after the commit. */
  lemma FailedCallPostsNothing(s: Store, call: Call, hash: string -> string)
    requires call.Process? && Step(s, call, hash).1.Err?
    ensures
      var (after, outcome) := Step(s, call, hash);
      after.journals == s.journals <==>
      call.weather.execution.Refuses? || outcome.error in {KeyReused, Unavailable, UnknownAccount}
  {
    var (after, outcome) := Step(s, call, hash);
    assert after.journals != s.journals ==> |after.journals| == |s.journals| + 1;
  }

  /**
   What a call that was admitted leaves in the record of its key: the status and
   body of its outcome, or, if the accounts were unknown or the record could not
   be updated, what was there before, new keys being in process.
   */
  lemma RecordTellsTheOutcome(s: Store, call: Call, hash: string -> string, id: KeyId)
    requires call.Process? && IdOf(call) == Some(id)
    requires Settled(call.weather.attempt, 1) == Commits && !Done(s, id)
    requires id in s.keys ==> s.keys[id].requestHash == hash(call.request)
    ensures
      var (after, outcome) := Step(s, call, hash);
      var w := call.weather;
      && id in after.keys && after.keys[id].requestHash == hash(call.request)
      && after.keys[id].createdAt == (if id in s.keys then s.keys[id].createdAt else w.now)
      && (outcome.Ok? <==> w.resolves && w.marks && w.execution.Posts?)
      && (outcome.Ok? ==> after.keys[id].status == Completed && after.keys[id].responseBody == Some(outcome.value))
      && (w.resolves && w.marks && !w.execution.Posts? ==>
            && outcome == Err(Threw(w.execution.message))
            && after.keys[id].status == Failed && after.keys[id].responseBody == Some(Message(w.execution.message)))
      && (!w.resolves ==> outcome == Err(UnknownAccount))
      && (!w.resolves || !w.marks ==>
            after.keys[id] == if id in s.keys then s.keys[id] else KeyRecord(hash(call.request), Processing, None, w.now))
  {
    hide Settled;
  }

  /**
   A failed request can be retried: whatever calls come in between, as long as
   none of them completed the key, a repeat that goes well posts the journal,
   returns its response and completes the key.
   */
  lemma FailureCanBeRetried(s: Store, first: Call, between: seq<Call>, again: Call, hash: string -> string, id: KeyId)
    requires first.Process? && again.Process? && IdOf(first) == Some(id) && IdOf(again) == Some(id)
    requires again.request == first.request
    requires Step(s, first, hash).1.Err? && Step(s, first, hash).1.error !in {KeyReused, Unavailable}
    requires !Done(Run(Step(s, first, hash).0, between, hash), id)
    requires Settled(again.weather.attempt, 1) == Commits && again.weather.resolves
    requires again.weather.execution.Posts? && again.weather.marks
    ensures
      var s2 := Run(Step(s, first, hash).0, between, hash);
      var (s3, outcome) := Step(s2, again, hash);
      && outcome == Ok(Stored(again.weather.execution.response))
      && s3.journals == s2.journals + [Posting(Some(id), again.weather.execution.response)]
      && Done(s3, id)
  {
    var s1 := Step(s, first, hash).0;
    assert id in s1.keys && s1.keys[id].requestHash == hash(first.request);
    HashIsFixed(s1, between, hash, id);
  }

  // ---- Where the promise ends ------------------------------------------------

  /**
   A journal committed by a call that then fails, on the snapshot refresh or on
   marking the key, is not protected: the same request posts it again.
   */
  lemma LostCommitIsPostedTwice(first: Call, again: Call, hash: string -> string, id: KeyId)
    requires first.Process? && again.Process? && IdOf(first) == Some(id) && IdOf(again) == Some(id)
    requires again.request == first.request
    requires Settled(first.weather.attempt, 1) == Commits && first.weather.resolves
    requires first.weather.execution.PostsThenThrows? || (first.weather.execution.Posts? && !first.weather.marks)
    requires Settled(again.weather.attempt, 1) == Commits && again.weather.resolves
    requires again.weather.execution.Posts? && again.weather.marks
    ensures Losses(EMPTY, [first, again], hash, id) == 1
    ensures CommitsUnder(Run(EMPTY, [first, again], hash), id) == 2
  {
    var calls := [first, again];
    assert calls[..1] == [first] && calls[..1][..0] == [];
    var s1 := Step(EMPTY, first, hash).0;
    assert Run(EMPTY, calls[..1], hash) == s1;
    assert Loses(EMPTY, first, hash, id) && !Loses(s1, again, hash, id);
    assert Losses(EMPTY, calls[..1], hash, id) == 1;
    EveryCommitIsAccountedFor(EMPTY, calls, hash, id);
  }

  function Unkeyed(): Posting -> int {
    (p: Posting) => if p.under == None then 1 else 0
  }

  /** The call has no key and its handler posts. */
  predicate PostsWithoutKey(call: Call) {
    call.Process? && call.key == None && call.weather.resolves && !call.weather.execution.Refuses?
  }

  function CountUnkeyed(calls: seq<Call>): nat {
    if |calls| == 0 then 0
    else CountUnkeyed(calls[..|calls| - 1]) + (if PostsWithoutKey(calls[|calls| - 1]) then 1 else 0)
  }

  /**
   Without a key there is no protection: over any run, mixed with keyed calls
   and clean-ups, every keyless call whose handler posts adds a journal of its
   own, however often the same request is sent.
   */
  lemma {:induction false} NoKeyNoProtection(s: Store, calls: seq<Call>, hash: string -> string)
    ensures Total(Run(s, calls, hash).journals, Unkeyed()) == Total(s.journals, Unkeyed()) + CountUnkeyed(calls)
  {
    if |calls| > 0 {
      var front, last := calls[..|calls| - 1], calls[|calls| - 1];
      NoKeyNoProtection(s, front, hash);
      UnkeyedStep(Run(s, front, hash), last, hash);
    }
  }

  /** A call adds no journal, or one under its own key. */
  lemma AtMostOneMore(s: Store, call: Call, hash: string -> string)
    ensures
      var after := Step(s, call, hash).0;
      || (after.journals == s.journals && !PostsWithoutKey(call))
      || (&& call.Process? && |after.journals| == |s.journals| + 1
          && after.journals == s.journals + [after.journals[|s.journals|]]
          && after.journals[|s.journals|].under == IdOf(call)
          && (call.key == None ==> PostsWithoutKey(call)))
  {
    hide Settled;
  }

  lemma UnkeyedStep(s: Store, call: Call, hash: string -> string)
    ensures Total(Step(s, call, hash).0.journals, Unkeyed())
         == Total(s.journals, Unkeyed()) + (if PostsWithoutKey(call) then 1 else 0)
  {
    AtMostOneMore(s, call, hash);
    hide Step;
    var after := Step(s, call, hash).0;
    if after.journals != s.journals {
      var last := after.journals[|s.journals|];
      TotalConcat(s.journals, [last], Unkeyed());
      TotalSingle(last, Unkeyed());
    }
  }
}
