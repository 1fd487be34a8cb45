/**
 A key belongs to a user: what happens under one key of one user depends on the
 calls with that key and that user alone (src/transactions/transactions.service.ts:97-114,
 src/transactions/idempotency.service.ts:55-128). The user of a call is the one
 it names, or else the actor who makes it.
 */
module KeyIsolation {
  import opened Money
  import opened Idempotency

  predicate BelongsTo(call: Call, key: string, user: string) {
    && call.Process? && call.key == Some(key)
    && (call.userId == Some(user) || (call.userId == None && call.actor == user))
  }

  /** The journals committed under the key of the user, oldest first. */
  function JournalsOf(journals: seq<Posting>, key: string, user: string): seq<Response> {
    if |journals| == 0 then []
    else
      var last := journals[|journals| - 1];
      JournalsOf(journals[..|journals| - 1], key, user) + (if last.under == Some((key, user)) then [last.response] else [])
  }

  /** The record of the key, if there is one. */
  function RecordOf(s: Store, key: string, user: string): Option<KeyRecord> {
    if (key, user) in s.keys then Some(s.keys[(key, user)]) else None
  }

  ghost predicate Agree(s: Store, t: Store, key: string, user: string) {
    && RecordOf(s, key, user) == RecordOf(t, key, user)
    && JournalsOf(s.journals, key, user) == JournalsOf(t.journals, key, user)
  }

  lemma OneMoreJournal(journals: seq<Posting>, more: Posting, key: string, user: string)
    ensures JournalsOf(journals + [more], key, user)
         == JournalsOf(journals, key, user) + (if more.under == Some((key, user)) then [more.response] else [])
  {
    assert (journals + [more])[..|journals|] == journals;
  }

  /** What a call adds to the journals, if anything: one, under the key and the user of the call. */
  lemma JournalsAfter(s: Store, call: Call, hash: string -> string, key: string, user: string)
    ensures
      var after := Step(s, call, hash).0;
      || after.journals == s.journals
      || (&& call.Process? && !call.weather.execution.Refuses? && |after.journals| == |s.journals| + 1
          && after.journals == s.journals + [after.journals[|s.journals|]]
          && after.journals[|s.journals|].response == call.weather.execution.response
          && (after.journals[|s.journals|].under == Some((key, user)) <==> BelongsTo(call, key, user)))
  {
    hide Settled;
  }

  lemma RecordAfter(s: Store, call: Call, hash: string -> string, key: string, user: string)
    requires call.Process? && !BelongsTo(call, key, user)
    ensures RecordOf(Step(s, call, hash).0, key, user) == RecordOf(s, key, user)
  {
    hide Settled;
  }

  /** A call with another key or for another user leaves the record and the journals of this one alone. */
  lemma OtherCallsDoNotMatter(s: Store, call: Call, hash: string -> string, key: string, user: string)
    requires call.Process? && !BelongsTo(call, key, user)
    ensures Agree(Step(s, call, hash).0, s, key, user)
  {
    RecordAfter(s, call, hash, key, user);
    JournalsAfter(s, call, hash, key, user);
    hide Step;
    var after := Step(s, call, hash).0;
    if after.journals != s.journals {
      OneMoreJournal(s.journals, after.journals[|s.journals|], key, user);
    }
  }

  /** What an own call or a clean-up does to the record depends on the record alone; so does its outcome. */
  lemma OwnRecord(s: Store, t: Store, call: Call, hash: string -> string, key: string, user: string)
    requires call.Cleanup? || BelongsTo(call, key, user)
    requires RecordOf(s, key, user) == RecordOf(t, key, user)
    ensures RecordOf(Step(s, call, hash).0, key, user) == RecordOf(Step(t, call, hash).0, key, user)
    ensures Step(s, call, hash).1 == Step(t, call, hash).1
    ensures (Step(s, call, hash).0.journals == s.journals) <==> (Step(t, call, hash).0.journals == t.journals)
  {
    if call.Process? {
      var id, w := IdOf(call), call.weather;
      assert id == Some((key, user));
      AdmitAlike(s, t, key, user, hash(call.request), w);
      if Admit(s, id, hash(call.request), w).1 == Proceed {
        ExecuteAlike(Admit(s, id, hash(call.request), w).0, Admit(t, id, hash(call.request), w).0, key, user, w);
      }
      hide Admit, Execute;
    }
  }

  lemma AdmitAlike(s: Store, t: Store, key: string, user: string, requestHash: string, w: Weather)
    requires RecordOf(s, key, user) == RecordOf(t, key, user)
    ensures
      var (s', a) := Admit(s, Some((key, user)), requestHash, w);
      var (t', b) := Admit(t, Some((key, user)), requestHash, w);
      && a == b && s'.journals == s.journals && t'.journals == t.journals
      && RecordOf(s', key, user) == RecordOf(t', key, user)
      && (a == Proceed ==> (key, user) in s'.keys && (key, user) in t'.keys)
  {
    hide Settled;
  }

  lemma ExecuteAlike(s: Store, t: Store, key: string, user: string, w: Weather)
    requires (key, user) in s.keys && (key, user) in t.keys && RecordOf(s, key, user) == RecordOf(t, key, user)
    ensures
      var (s', a) := Execute(s, Some((key, user)), w);
      var (t', b) := Execute(t, Some((key, user)), w);
      && a == b && RecordOf(s', key, user) == RecordOf(t', key, user)
      && (s'.journals == s.journals <==> t'.journals == t.journals)
  {
    var s', t' := Execute(s, Some((key, user)), w).0, Execute(t, Some((key, user)), w).0;
    assert s'.journals == s.journals || |s'.journals| == |s.journals| + 1;
    assert t'.journals == t.journals || |t'.journals| == |t.journals| + 1;
  }

  lemma OwnCallsAgree(s: Store, t: Store, call: Call, hash: string -> string, key: string, user: string)
    requires (call.Cleanup? || BelongsTo(call, key, user)) && Agree(s, t, key, user)
    ensures Agree(Step(s, call, hash).0, Step(t, call, hash).0, key, user)
    ensures Step(s, call, hash).1 == Step(t, call, hash).1
  {
    OwnRecord(s, t, call, hash, key, user);
    JournalsAfter(s, call, hash, key, user);
    JournalsAfter(t, call, hash, key, user);
    hide Step;
    var s', t' := Step(s, call, hash).0, Step(t, call, hash).0;
    if s'.journals != s.journals {
      OneMoreJournal(s.journals, s'.journals[|s.journals|], key, user);
      OneMoreJournal(t.journals, t'.journals[|t.journals|], key, user);
    }
  }

  // ---- Runs ------------------------------------------------------------------

  /** The calls under the key of the user, and the clean-ups. */
  function OwnCalls(calls: seq<Call>, key: string, user: string): seq<Call> {
    if |calls| == 0 then []
    else
      var last := calls[|calls| - 1];
      OwnCalls(calls[..|calls| - 1], key, user) + (if last.Cleanup? || BelongsTo(last, key, user) then [last] else [])
  }

  /** What the calls under the key of the user are answered in a run. */
  function OwnAnswers(s: Store, calls: seq<Call>, hash: string -> string, key: string, user: string): seq<Outcome> {
    if |calls| == 0 then []
    else
      var front, last := calls[..|calls| - 1], calls[|calls| - 1];
      OwnAnswers(s, front, hash, key, user)
      + (if BelongsTo(last, key, user) then [Step(Run(s, front, hash), last, hash).1] else [])
  }

  /**
   Over any run, with whatever calls under other keys and for other users in
   between: the record and the journals of a key of a user, and every answer to
   its calls, are those of the run of its own calls and the clean-ups alone.
   */
  lemma {:induction false} KeysAreIsolated(s: Store, calls: seq<Call>, hash: string -> string, key: string, user: string)
    ensures Agree(Run(s, calls, hash), Run(s, OwnCalls(calls, key, user), hash), key, user)
    ensures OwnAnswers(s, calls, hash, key, user) == OwnAnswers(s, OwnCalls(calls, key, user), hash, key, user)
  {
    if |calls| > 0 {
      hide Step, BelongsTo, Agree;
      var front, last := calls[..|calls| - 1], calls[|calls| - 1];
      var own := OwnCalls(front, key, user);
      var here, alone := Run(s, front, hash), Run(s, own, hash);
      KeysAreIsolated(s, front, hash, key, user);
      if last.Cleanup? || BelongsTo(last, key, user) {
        OneMoreCall(s, own, last, hash, key, user);
        OwnCallsAgree(here, alone, last, hash, key, user);
      } else {
        OtherCallsDoNotMatter(here, last, hash, key, user);
        AgreeOn(Step(here, last, hash).0, here, alone, key, user);
        assert own + [] == own;
      }
    } else {
      assert OwnCalls(calls, key, user) == calls;
    }
  }

  lemma AgreeOn(s: Store, t: Store, u: Store, key: string, user: string)
    requires Agree(s, t, key, user) && Agree(t, u, key, user)
    ensures Agree(s, u, key, user)
  {
  }

  lemma OneMoreCall(s: Store, calls: seq<Call>, last: Call, hash: string -> string, key: string, user: string)
    ensures Run(s, calls + [last], hash) == Step(Run(s, calls, hash), last, hash).0
    ensures OwnAnswers(s, calls + [last], hash, key, user)
         == OwnAnswers(s, calls, hash, key, user)
            + (if BelongsTo(last, key, user) then [Step(Run(s, calls, hash), last, hash).1] else [])
  {
    hide Step, BelongsTo;
    assert (calls + [last])[..|calls|] == calls;
  }

  /** The same key and body sent for two users by one actor posts for both. */
  lemma TwoUsersPostTwice(request: string, actor: string, key: string, first: string, second: string,
                          w: Weather, w': Weather, hash: string -> string)
    requires first != second
    requires Settled(w.attempt, 1) == Commits && w.resolves && w.execution.Posts? && w.marks
    requires Settled(w'.attempt, 1) == Commits && w'.resolves && w'.execution.Posts? && w'.marks
    ensures
      var calls := [Call.Process(request, actor, Some(key), Some(first), w), Call.Process(request, actor, Some(key), Some(second), w')];
      var after := Run(EMPTY, calls, hash);
      && JournalsOf(after.journals, key, first) == [w.execution.response]
      && JournalsOf(after.journals, key, second) == [w'.execution.response]
  {
    hide Settled;
    var one := Call.Process(request, actor, Some(key), Some(first), w);
    var two := Call.Process(request, actor, Some(key), Some(second), w');
    assert [one, two][..1] == [one] && [one][..0] == [];
    var p, q := Posting(Some((key, first)), w.execution.response), Posting(Some((key, second)), w'.execution.response);
    assert Run(EMPTY, [one], hash).journals == [p];
    assert Run(EMPTY, [one, two], hash).journals == [p] + [q];
    hide *;
    BothJournals(p, q, key, first, second);
  }

  lemma BothJournals(p: Posting, q: Posting, key: string, first: string, second: string)
    requires first != second && p.under == Some((key, first)) && q.under == Some((key, second))
    ensures JournalsOf([p] + [q], key, first) == [p.response] && JournalsOf([p] + [q], key, second) == [q.response]
  {
    var none: seq<Posting> := [];
    assert (key, first).1 != (key, second).1;
    assert none + [p] == [p];
    OneMoreJournal(none, p, key, first);
    OneMoreJournal(none, p, key, second);
    OneMoreJournal([p], q, key, first);
    OneMoreJournal([p], q, key, second);
  }
}
