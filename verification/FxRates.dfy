/**
 Exchange rate windows (src/fx/fx-rate.repository.ts, src/fx/fx-rate.service.ts,
 database/triggers/003_immutability_triggers.sql:65-87).
 A rate is an int count of 1e-8.
 */
module FxRates {
  import opened Money

  datatype Rate = Rate(
    id: string, baseCurrency: string, quoteCurrency: string, rate: int, inverseRate: int, source: string,
    capturedAt: int, validFrom: int, validUntil: Option<int>)

  datatype RateInput = RateInput(
    baseCurrency: string, quoteCurrency: string, rate: real, source: string, validFrom: int, validUntil: Option<int>)

  /** 1e8: rates have eight decimals. */
  const SCALE: real := 100000000.0

  predicate IsPair(r: Rate, baseCurrency: string, quoteCurrency: string) {
    r.baseCurrency == baseCurrency && r.quoteCurrency == quoteCurrency
  }

  // ---- Ingestion -------------------------------------------------------------

  /** The update that closes the pair's open rates at the start of the new window. */
  function Close(r: Rate, input: RateInput): Rate {
    if IsPair(r, input.baseCurrency, input.quoteCurrency) && r.validUntil == None
    then r.(validUntil := Some(input.validFrom)) else r
  }

  function CloseAll(rates: seq<Rate>, input: RateInput): (closed: seq<Rate>)
    ensures |closed| == |rates|
    ensures forall k :: 0 <= k < |rates| ==> closed[k] == Close(rates[k], input)
  {
    seq(|rates|, k requires 0 <= k < |rates| => Close(rates[k], input))
  }

  /** DECIMAL(18,8): below 10^10 in absolute value, that is below 10^18 counts of 1e-8. */
  const COLUMN_LIMIT: int := 1_000_000_000_000_000_000

  /** VARCHAR(50). */
  const SOURCE_LIMIT: nat := 50

  predicate FitsColumn(x: real) {
    -COLUMN_LIMIT < RoundHalfUp(x * SCALE) < COLUMN_LIMIT
  }

  /**
   The insert succeeds: the rate has an inverse, both fit their columns once they
   are rounded, and the source fits its own (a text column holds no NUL).
   */
  predicate Storable(input: RateInput) {
    && input.rate != 0.0 && FitsColumn(input.rate) && FitsColumn(1.0 / input.rate)
    && |input.source| <= SOURCE_LIMIT && '\0' !in input.source
  }

  function NewRate(input: RateInput, id: string, now: int): Rate
    requires Storable(input)
  {
    Rate(id, input.baseCurrency, input.quoteCurrency, RoundHalfUp(input.rate * SCALE),
         RoundHalfUp(1.0 / input.rate * SCALE), input.source, now, input.validFrom, input.validUntil)
  }

  /**
   What the table holds after an ingestion. The open windows are closed first,
   and they stay closed when the insert that follows fails.
   */
  function Ingest(rates: seq<Rate>, input: RateInput, id: string, now: int): seq<Rate> {
    CloseAll(rates, input) + (if Storable(input) then [NewRate(input, id, now)] else [])
  }

  /** The UPDATE trigger of exchange_rate_snapshots lets this change through. */
  predicate TriggerAdmits(before: Rate, after: Rate) {
    && before.validUntil == None && after.validUntil.Some?
    && before.rate == after.rate && before.inverseRate == after.inverseRate
    && before.baseCurrency == after.baseCurrency && before.quoteCurrency == after.quoteCurrency
    && before.source == after.source
  }

  class FxRateRepository {
    var rates: seq<Rate>

    constructor ()
      ensures rates == []
    {
      rates := [];
    }

    method Create(input: RateInput, id: string, now: int) returns (ok: bool)
      modifies this
      ensures rates == Ingest(old(rates), input, id, now)
      ensures ok <==> Storable(input)
      ensures forall k :: 0 <= k < |old(rates)| ==>
                rates[k] == old(rates)[k] || TriggerAdmits(old(rates)[k], rates[k])
    {
      var k := 0;
      while k < |rates|
        invariant 0 <= k <= |rates| == |old(rates)|
        invariant forall j :: 0 <= j < k ==> rates[j] == Close(old(rates)[j], input)
        invariant forall j :: k <= j < |rates| ==> rates[j] == old(rates)[j]
      {
        if IsPair(rates[k], input.baseCurrency, input.quoteCurrency) && rates[k].validUntil == None {
          rates := rates[k := rates[k].(validUntil := Some(input.validFrom))];
        }
        k := k + 1;
      }
      assert rates == CloseAll(old(rates), input);
      ok := Storable(input);
      if ok {
        rates := rates + [NewRate(input, id, now)];
      }
    }
  }

  // ---- Lookups ---------------------------------------------------------------

  predicate Covers(r: Rate, baseCurrency: string, quoteCurrency: string, at: int) {
    && IsPair(r, baseCurrency, quoteCurrency)
    && r.validFrom <= at && (r.validUntil == None || at < r.validUntil.value)
  }

  /** findFirst with `orderBy: { validFrom: 'desc' }`: the position of the row that is returned. */
  function FindAtTime(rates: seq<Rate>, baseCurrency: string, quoteCurrency: string, at: int): (k: Option<nat>)
    ensures k.Some? ==> k.value < |rates| && Covers(rates[k.value], baseCurrency, quoteCurrency, at)
    ensures k.Some? ==> forall j :: 0 <= j < |rates| && Covers(rates[j], baseCurrency, quoteCurrency, at) ==>
                          rates[j].validFrom <= rates[k.value].validFrom
    ensures k.None? ==> forall j :: 0 <= j < |rates| ==> !Covers(rates[j], baseCurrency, quoteCurrency, at)
  {
    if |rates| == 0 then None
    else
      var n := |rates| - 1;
      var k := FindAtTime(rates[..n], baseCurrency, quoteCurrency, at);
      assert forall j :: 0 <= j < n ==> rates[..n][j] == rates[j];
      if Covers(rates[n], baseCurrency, quoteCurrency, at)
         && (k.None? || rates[n].validFrom > rates[k.value].validFrom) then Some(n) else k
  }

  datatype RateError = NoRate | Stale

  /** getCurrentRate: the rate covering `now`, unless it was captured too long ago. */
  function CurrentRate(rates: seq<Rate>, baseCurrency: string, quoteCurrency: string, now: int, maxAge: int):
    Result<int, RateError>
  {
    match FindAtTime(rates, baseCurrency, quoteCurrency, now)
    case None => Err(NoRate)
    case Some(k) => if now - rates[k].capturedAt > maxAge then Err(Stale) else Ok(rates[k].rate)
  }

  /** getRateAtTime. */
  function RateAtTime(rates: seq<Rate>, baseCurrency: string, quoteCurrency: string, at: int): Result<int, RateError> {
    match FindAtTime(rates, baseCurrency, quoteCurrency, at)
    case None => Err(NoRate)
    case Some(k) => Ok(rates[k].rate)
  }

  // ---- Historical rates are stable -------------------------------------------

  lemma CoverageStable(r: Rate, input: RateInput, baseCurrency: string, quoteCurrency: string, at: int)
    requires at < input.validFrom
    ensures Covers(Close(r, input), baseCurrency, quoteCurrency, at) == Covers(r, baseCurrency, quoteCurrency, at)
  {
  }

  lemma {:induction false} ClosingKeepsAnswer(rates: seq<Rate>, input: RateInput, baseCurrency: string,
                                              quoteCurrency: string, at: int)
    requires at < input.validFrom
    ensures FindAtTime(CloseAll(rates, input), baseCurrency, quoteCurrency, at)
         == FindAtTime(rates, baseCurrency, quoteCurrency, at)
  {
    if |rates| > 0 {
      var n := |rates| - 1;
      assert CloseAll(rates, input)[..n] == CloseAll(rates[..n], input);
      ClosingKeepsAnswer(rates[..n], input, baseCurrency, quoteCurrency, at);
      CoverageStable(rates[n], input, baseCurrency, quoteCurrency, at);
    }
  }

  /**
   For any history: ingesting a rate that becomes valid after `at` does not
   change which snapshot answers a lookup at `at`, nor its rate.
   */
  lemma HistoryIsStable(rates: seq<Rate>, input: RateInput, id: string, now: int,
                        baseCurrency: string, quoteCurrency: string, at: int)
    requires at < input.validFrom
    ensures FindAtTime(Ingest(rates, input, id, now), baseCurrency, quoteCurrency, at)
         == FindAtTime(rates, baseCurrency, quoteCurrency, at)
    ensures RateAtTime(Ingest(rates, input, id, now), baseCurrency, quoteCurrency, at)
         == RateAtTime(rates, baseCurrency, quoteCurrency, at)
  {
    var closed := CloseAll(rates, input);
    ClosingKeepsAnswer(rates, input, baseCurrency, quoteCurrency, at);
    if Storable(input) {
      assert Ingest(rates, input, id, now)[..|rates|] == closed;
    } else {
      assert Ingest(rates, input, id, now) == closed;
    }
  }

  // ---- Which rows a lookup may return ----------------------------------------

  /** With equal validFrom the query leaves open which row comes first: any of these may be returned. */
  predicate MayReturn(rates: seq<Rate>, baseCurrency: string, quoteCurrency: string, at: int, k: nat) {
    && k < |rates| && Covers(rates[k], baseCurrency, quoteCurrency, at)
    && forall j :: 0 <= j < |rates| && Covers(rates[j], baseCurrency, quoteCurrency, at) ==>
         rates[j].validFrom <= rates[k].validFrom
  }

  ghost predicate SameAnswers(rates: seq<Rate>, rates': seq<Rate>, baseCurrency: string, quoteCurrency: string, at: int) {
    forall k: nat ::
      MayReturn(rates, baseCurrency, quoteCurrency, at, k) == MayReturn(rates', baseCurrency, quoteCurrency, at, k)
  }

  /** An open row answers the lookup, or the new row will. */
  ghost predicate Disturbs(rates: seq<Rate>, input: RateInput, at: int) {
    || (exists k: nat :: MayReturn(rates, input.baseCurrency, input.quoteCurrency, at, k) && rates[k].validUntil == None)
    || (&& Storable(input) && (input.validUntil == None || at < input.validUntil.value)
        && forall j :: 0 <= j < |rates| && Covers(rates[j], input.baseCurrency, input.quoteCurrency, at) ==>
             rates[j].validFrom <= input.validFrom)
  }

  lemma CoversAfter(rates: seq<Rate>, input: RateInput, id: string, now: int,
                    baseCurrency: string, quoteCurrency: string, at: int, j: nat)
    requires j < |Ingest(rates, input, id, now)|
    ensures
      var r := Ingest(rates, input, id, now)[j];
      && (j < |rates| ==>
            && r.validFrom == rates[j].validFrom
            && (Covers(r, baseCurrency, quoteCurrency, at) <==>
                Covers(rates[j], baseCurrency, quoteCurrency, at)
                && !(IsPair(rates[j], input.baseCurrency, input.quoteCurrency) && rates[j].validUntil == None
                     && input.validFrom <= at)))
      && (j == |rates| ==>
            && r.validFrom == input.validFrom && Storable(input)
            && (Covers(r, baseCurrency, quoteCurrency, at) <==>
                && input.baseCurrency == baseCurrency && input.quoteCurrency == quoteCurrency
                && input.validFrom <= at && (input.validUntil == None || at < input.validUntil.value)))
  {
    hide RoundHalfUp;
  }

  lemma IngestLength(rates: seq<Rate>, input: RateInput, id: string, now: int)
    ensures |Ingest(rates, input, id, now)| == |rates| + (if Storable(input) then 1 else 0)
  {
  }

  /** If every row keeps its coverage and the new one does not cover, the answers are the same. */
  lemma SameCoverSameAnswers(rates: seq<Rate>, input: RateInput, id: string, now: int,
                             baseCurrency: string, quoteCurrency: string, at: int)
    requires
      || at < input.validFrom
      || input.baseCurrency != baseCurrency || input.quoteCurrency != quoteCurrency
    ensures SameAnswers(rates, Ingest(rates, input, id, now), baseCurrency, quoteCurrency, at)
  {
    hide Ingest, Covers;
    var after := Ingest(rates, input, id, now);
    IngestLength(rates, input, id, now);
    forall j: nat | j < |after|
      ensures j < |rates| ==> after[j].validFrom == rates[j].validFrom
      ensures j < |rates| ==> Covers(after[j], baseCurrency, quoteCurrency, at) == Covers(rates[j], baseCurrency, quoteCurrency, at)
      ensures j == |rates| ==> !Covers(after[j], baseCurrency, quoteCurrency, at)
    {
      CoversAfter(rates, input, id, now, baseCurrency, quoteCurrency, at, j);
      OnePair(if j < |rates| then rates[j] else after[j], baseCurrency, quoteCurrency, at);
    }
  }

  lemma OnePair(r: Rate, baseCurrency: string, quoteCurrency: string, at: int)
    ensures Covers(r, baseCurrency, quoteCurrency, at) ==>
              r.baseCurrency == baseCurrency && r.quoteCurrency == quoteCurrency
  {
  }

  /** Of one pair and not later than `at`: open rows stop covering, the rest stays, the new row may cover. */
  lemma BackdatedAnswers(rates: seq<Rate>, input: RateInput, id: string, now: int, at: int)
    requires input.validFrom <= at
    ensures SameAnswers(rates, Ingest(rates, input, id, now), input.baseCurrency, input.quoteCurrency, at)
       <==> !Disturbs(rates, input, at)
  {
    hide Ingest, Covers;
    var b, q := input.baseCurrency, input.quoteCurrency;
    var after := Ingest(rates, input, id, now);
    IngestLength(rates, input, id, now);
    forall j: nat | j < |after|
      ensures j < |rates| ==> after[j].validFrom == rates[j].validFrom
      ensures j < |rates| ==> (Covers(after[j], b, q, at) <==> Covers(rates[j], b, q, at) && rates[j].validUntil != None)
      ensures j == |rates| ==> after[j].validFrom == input.validFrom
      ensures j == |rates| ==> (Covers(after[j], b, q, at) <==> input.validUntil == None || at < input.validUntil.value)
    {
      CoversAfter(rates, input, id, now, b, q, at, j);
      if j < |rates| {
        OnePair(rates[j], b, q, at);
      }
    }
    BackdatedByCover(rates, after, input, at);
  }

  lemma BackdatedByCover(rates: seq<Rate>, after: seq<Rate>, input: RateInput, at: int)
    requires |after| == |rates| + (if Storable(input) then 1 else 0)
    requires forall j :: 0 <= j < |rates| ==>
      && after[j].validFrom == rates[j].validFrom
      && (Covers(after[j], input.baseCurrency, input.quoteCurrency, at) <==>
          Covers(rates[j], input.baseCurrency, input.quoteCurrency, at) && rates[j].validUntil != None)
    requires Storable(input) ==>
      && after[|rates|].validFrom == input.validFrom
      && (Covers(after[|rates|], input.baseCurrency, input.quoteCurrency, at) <==>
          input.validUntil == None || at < input.validUntil.value)
    ensures SameAnswers(rates, after, input.baseCurrency, input.quoteCurrency, at) <==> !Disturbs(rates, input, at)
  {
    hide Covers;
    var b, q := input.baseCurrency, input.quoteCurrency;
    if Disturbs(rates, input, at) {
      if k: nat :| MayReturn(rates, b, q, at, k) && rates[k].validUntil == None {
        assert !MayReturn(after, b, q, at, k);
      } else {
        assert MayReturn(after, b, q, at, |rates|);
        assert !MayReturn(rates, b, q, at, |rates|);
      }
    } else {
      forall k: nat ensures MayReturn(rates, b, q, at, k) == MayReturn(after, b, q, at, k) {
        NoDisturbance(rates, after, input, at, k);
      }
    }
  }

  lemma NoDisturbance(rates: seq<Rate>, after: seq<Rate>, input: RateInput, at: int, k: nat)
    requires |after| == |rates| + (if Storable(input) then 1 else 0)
    requires forall j :: 0 <= j < |rates| ==>
      && after[j].validFrom == rates[j].validFrom
      && (Covers(after[j], input.baseCurrency, input.quoteCurrency, at) <==>
          Covers(rates[j], input.baseCurrency, input.quoteCurrency, at) && rates[j].validUntil != None)
    requires Storable(input) ==>
      && after[|rates|].validFrom == input.validFrom
      && (Covers(after[|rates|], input.baseCurrency, input.quoteCurrency, at) <==>
          input.validUntil == None || at < input.validUntil.value)
    requires !Disturbs(rates, input, at)
    ensures MayReturn(rates, input.baseCurrency, input.quoteCurrency, at, k)
         == MayReturn(after, input.baseCurrency, input.quoteCurrency, at, k)
  {
    hide Covers;
    var b, q := input.baseCurrency, input.quoteCurrency;
    var best := FindAtTime(rates, b, q, at);
    if best.Some? {
      assert MayReturn(rates, b, q, at, best.value);
      assert rates[best.value].validUntil != None;
      assert Covers(after[best.value], b, q, at);
    }
  }

  /**
   Exactly which ingestions change which rows a lookup at `at` may return, for
   any history: those of the pair that start no later than `at` and either close
   the row that answers it or bring one that starts no earlier than any other.
   */
  lemma IngestChangesAnswersIff(rates: seq<Rate>, input: RateInput, id: string, now: int,
                                baseCurrency: string, quoteCurrency: string, at: int)
    ensures !SameAnswers(rates, Ingest(rates, input, id, now), baseCurrency, quoteCurrency, at) <==>
            && input.baseCurrency == baseCurrency && input.quoteCurrency == quoteCurrency
            && input.validFrom <= at && Disturbs(rates, input, at)
  {
    hide SameAnswers, Disturbs, Ingest;
    if input.baseCurrency == baseCurrency && input.quoteCurrency == quoteCurrency && input.validFrom <= at {
      BackdatedAnswers(rates, input, id, now, at);
    } else {
      SameCoverSameAnswers(rates, input, id, now, baseCurrency, quoteCurrency, at);
    }
  }

  /** Whatever row is returned among equals, an ingestion after `at` leaves its rate what it was. */
  lemma AnsweredRateIsStable(rates: seq<Rate>, input: RateInput, id: string, now: int,
                             baseCurrency: string, quoteCurrency: string, at: int, k: nat)
    requires at < input.validFrom
    ensures MayReturn(Ingest(rates, input, id, now), baseCurrency, quoteCurrency, at, k)
       <==> MayReturn(rates, baseCurrency, quoteCurrency, at, k)
    ensures MayReturn(rates, baseCurrency, quoteCurrency, at, k) ==>
              Ingest(rates, input, id, now)[k].rate == rates[k].rate
  {
    hide Covers;
    SameCoverSameAnswers(rates, input, id, now, baseCurrency, quoteCurrency, at);
    assert SameAnswers(rates, Ingest(rates, input, id, now), baseCurrency, quoteCurrency, at);
  }

  // ---- Windows tile the time line --------------------------------------------

  datatype Ingestion = Ingestion(input: RateInput, id: string, now: int)

  function IngestAll(history: seq<Ingestion>): seq<Rate> {
    if |history| == 0 then []
    else
      var last := history[|history| - 1];
      Ingest(IngestAll(history[..|history| - 1]), last.input, last.id, last.now)
  }

  /** Feeds of the pair have no explicit expiry and start no earlier than the feed before them. */
  ghost predicate Feed(history: seq<Ingestion>, baseCurrency: string, quoteCurrency: string) {
    && (forall j :: 0 <= j < |history| ==>
          && OfPair(history[j], baseCurrency, quoteCurrency)
          && history[j].input.validUntil == None && Storable(history[j].input))
    && (forall j, k :: 0 <= j < k < |history| ==> history[j].input.validFrom <= history[k].input.validFrom)
  }

  predicate OfPair(i: Ingestion, baseCurrency: string, quoteCurrency: string) {
    i.input.baseCurrency == baseCurrency && i.input.quoteCurrency == quoteCurrency
  }

  /** The row of an ingestion, with the end its window has been given: rate and inverse to eight decimals, and when it was captured. */
  predicate IsWindow(r: Rate, i: Ingestion, end: Option<int>) {
    && r.id == i.id && IsPair(r, i.input.baseCurrency, i.input.quoteCurrency)
    && r.validFrom == i.input.validFrom && r.validUntil == end
    && r.rate == RoundHalfUp(i.input.rate * 100_000_000.0)
    && i.input.rate != 0.0 && r.inverseRate == RoundHalfUp(1.0 / i.input.rate * 100_000_000.0)
    && r.source == i.input.source && r.capturedAt == i.now
  }

  lemma CloseGivesAnEnd(r: Rate, i: Ingestion, end: Option<int>, input: RateInput)
    requires IsWindow(r, i, end)
    requires input.baseCurrency == i.input.baseCurrency && input.quoteCurrency == i.input.quoteCurrency
    ensures IsWindow(Close(r, input), i, if end == None then Some(input.validFrom) else end)
  {
    hide RoundHalfUp;
  }

  lemma NewRateIsWindow(i: Ingestion)
    requires Storable(i.input) && i.input.validUntil == None
    ensures IsWindow(NewRate(i.input, i.id, i.now), i, None)
  {
    hide RoundHalfUp;
  }

  function NextStart(history: seq<Ingestion>, k: nat): Option<int> {
    if k + 1 < |history| then Some(history[k + 1].input.validFrom) else None
  }

  /** Fed alone, window k reaches from its own start to the start of window k + 1; the last one is open. */
  lemma {:induction false} FeedsTile(history: seq<Ingestion>, baseCurrency: string, quoteCurrency: string)
    requires Feed(history, baseCurrency, quoteCurrency)
    ensures
      var rates := IngestAll(history);
      |rates| == |history| && forall k :: 0 <= k < |rates| ==> IsWindow(rates[k], history[k], NextStart(history, k))
  {
    hide IsWindow, NewRate, Close;
    if |history| > 0 {
      var n := |history| - 1;
      var front, last := history[..n], history[n];
      FeedsTile(front, baseCurrency, quoteCurrency);
      var before := IngestAll(front);
      var closed := CloseAll(before, last.input);
      assert OfPair(last, baseCurrency, quoteCurrency);
      assert IngestAll(history) == closed + [NewRate(last.input, last.id, last.now)];
      NewRateIsWindow(last);
      forall k | 0 <= k < n ensures IsWindow(closed[k], history[k], NextStart(history, k)) {
        assert OfPair(history[k], baseCurrency, quoteCurrency);
        assert front[k] == history[k];
        CloseGivesAnEnd(before[k], history[k], NextStart(front, k), last.input);
      }
    }
  }

  lemma WindowCoversIff(history: seq<Ingestion>, rate: Rate, j: nat, k: nat, baseCurrency: string, quoteCurrency: string, at: int)
    requires Feed(history, baseCurrency, quoteCurrency) && j < |history| && k < |history|
    requires IsWindow(rate, history[j], NextStart(history, j))
    requires history[k].input.validFrom <= at && forall m :: k < m < |history| ==> at < history[m].input.validFrom
    ensures Covers(rate, baseCurrency, quoteCurrency, at) <==> j == k
  {
    hide RoundHalfUp;
    assert OfPair(history[j], baseCurrency, quoteCurrency);
    if j < k {
      assert history[j + 1].input.validFrom <= history[k].input.validFrom || j + 1 == k;
    }
  }

  // ---- Histories that mix pairs ----------------------------------------------

  function PairRows(rates: seq<Rate>, baseCurrency: string, quoteCurrency: string): seq<Rate> {
    if |rates| == 0 then []
    else
      var front, last := PairRows(rates[..|rates| - 1], baseCurrency, quoteCurrency), rates[|rates| - 1];
      if IsPair(last, baseCurrency, quoteCurrency) then front + [last] else front
  }

  function PairFeeds(history: seq<Ingestion>, baseCurrency: string, quoteCurrency: string): seq<Ingestion> {
    if |history| == 0 then []
    else
      var front, last := PairFeeds(history[..|history| - 1], baseCurrency, quoteCurrency), history[|history| - 1];
      if OfPair(last, baseCurrency, quoteCurrency) then front + [last] else front
  }

  lemma {:induction false} PairRowsConcat(rates: seq<Rate>, more: seq<Rate>, baseCurrency: string, quoteCurrency: string)
    ensures PairRows(rates + more, baseCurrency, quoteCurrency)
         == PairRows(rates, baseCurrency, quoteCurrency) + PairRows(more, baseCurrency, quoteCurrency)
  {
    if |more| == 0 {
      assert rates + more == rates;
    } else {
      assert (rates + more)[..|rates + more| - 1] == rates + more[..|more| - 1];
      PairRowsConcat(rates, more[..|more| - 1], baseCurrency, quoteCurrency);
    }
  }

  /** Closing the windows of one pair commutes with looking at one pair only. */
  lemma {:induction false} ClosingAPair(rates: seq<Rate>, input: RateInput, baseCurrency: string, quoteCurrency: string)
    ensures PairRows(CloseAll(rates, input), baseCurrency, quoteCurrency)
         == if input.baseCurrency == baseCurrency && input.quoteCurrency == quoteCurrency
            then CloseAll(PairRows(rates, baseCurrency, quoteCurrency), input)
            else PairRows(rates, baseCurrency, quoteCurrency)
  {
    if |rates| > 0 {
      var n := |rates| - 1;
      assert CloseAll(rates, input)[..n] == CloseAll(rates[..n], input);
      ClosingAPair(rates[..n], input, baseCurrency, quoteCurrency);
    }
  }

  /** The rows of a pair are what its own feeds would have built alone. */
  lemma {:induction false} PairsDoNotMix(history: seq<Ingestion>, baseCurrency: string, quoteCurrency: string)
    ensures PairRows(IngestAll(history), baseCurrency, quoteCurrency)
         == IngestAll(PairFeeds(history, baseCurrency, quoteCurrency))
  {
    hide RoundHalfUp;
    if |history| > 0 {
      var front, last := history[..|history| - 1], history[|history| - 1];
      PairsDoNotMix(front, baseCurrency, quoteCurrency);
      var before := IngestAll(front);
      var more := if !Storable(last.input) then [] else [NewRate(last.input, last.id, last.now)];
      PairRowsConcat(CloseAll(before, last.input), more, baseCurrency, quoteCurrency);
      ClosingAPair(before, last.input, baseCurrency, quoteCurrency);
      assert more != [] ==> more[..0] == [];
      if OfPair(last, baseCurrency, quoteCurrency) {
        var feeds := PairFeeds(history, baseCurrency, quoteCurrency);
        assert feeds[..|feeds| - 1] == PairFeeds(front, baseCurrency, quoteCurrency);
      }
    }
  }

  /** In any history the rows of a pair fed in order tile: each window ends where the pair's next one starts. */
  lemma WindowsAreAdjacent(history: seq<Ingestion>, baseCurrency: string, quoteCurrency: string)
    requires Feed(PairFeeds(history, baseCurrency, quoteCurrency), baseCurrency, quoteCurrency)
    ensures
      var own, feeds := PairRows(IngestAll(history), baseCurrency, quoteCurrency), PairFeeds(history, baseCurrency, quoteCurrency);
      |own| == |feeds| && forall k :: 0 <= k < |own| ==> IsWindow(own[k], feeds[k], NextStart(feeds, k))
  {
    hide IngestAll, PairRows, PairFeeds, IsWindow, Feed;
    PairsDoNotMix(history, baseCurrency, quoteCurrency);
    FeedsTile(PairFeeds(history, baseCurrency, quoteCurrency), baseCurrency, quoteCurrency);
  }

  /** If one row of the pair covers the instant, one row of the table does, and it is that row. */
  lemma {:induction false} OneInThePairOneInTheTable(rates: seq<Rate>, baseCurrency: string, quoteCurrency: string, at: int, j: nat)
      returns (k: nat)
    requires
      var own := PairRows(rates, baseCurrency, quoteCurrency);
      j < |own| && forall m :: 0 <= m < |own| ==> (Covers(own[m], baseCurrency, quoteCurrency, at) <==> m == j)
    ensures k < |rates| && rates[k] == PairRows(rates, baseCurrency, quoteCurrency)[j]
    ensures forall m :: 0 <= m < |rates| ==> (Covers(rates[m], baseCurrency, quoteCurrency, at) <==> m == k)
  {
    var n := |rates| - 1;
    var front, own := rates[..n], PairRows(rates, baseCurrency, quoteCurrency);
    var before := PairRows(front, baseCurrency, quoteCurrency);
    if IsPair(rates[n], baseCurrency, quoteCurrency) && j == |own| - 1 {
      forall m | 0 <= m < |before| ensures !Covers(before[m], baseCurrency, quoteCurrency, at) {
        assert own[m] == before[m];
      }
      NoneInThePair(front, baseCurrency, quoteCurrency, at);
      k := n;
    } else {
      forall m | 0 <= m < |before| ensures Covers(before[m], baseCurrency, quoteCurrency, at) <==> m == j {
        assert own[m] == before[m];
      }
      k := OneInThePairOneInTheTable(front, baseCurrency, quoteCurrency, at, j);
      assert IsPair(rates[n], baseCurrency, quoteCurrency) ==> own[|own| - 1] == rates[n];
    }
  }

  ghost predicate NoCover(rates: seq<Rate>, baseCurrency: string, quoteCurrency: string, at: int) {
    forall m :: 0 <= m < |rates| ==> !Covers(rates[m], baseCurrency, quoteCurrency, at)
  }

  lemma {:induction false} NoneInThePair(rates: seq<Rate>, baseCurrency: string, quoteCurrency: string, at: int)
    requires NoCover(PairRows(rates, baseCurrency, quoteCurrency), baseCurrency, quoteCurrency, at)
    ensures NoCover(rates, baseCurrency, quoteCurrency, at)
  {
    hide Covers;
    if |rates| > 0 {
      var n := |rates| - 1;
      var before, own := PairRows(rates[..n], baseCurrency, quoteCurrency), PairRows(rates, baseCurrency, quoteCurrency);
      if IsPair(rates[n], baseCurrency, quoteCurrency) {
        assert own == before + [rates[n]];
        assert forall m :: 0 <= m < |before| ==> before[m] == own[m];
        assert rates[n] == own[|before|];
      } else {
        NotThePair(rates[n], baseCurrency, quoteCurrency, at);
      }
      NoneInThePair(rates[..n], baseCurrency, quoteCurrency, at);
    }
  }

  lemma NotThePair(r: Rate, baseCurrency: string, quoteCurrency: string, at: int)
    requires !IsPair(r, baseCurrency, quoteCurrency)
    ensures !Covers(r, baseCurrency, quoteCurrency, at)
  {
  }

  /** Row k is the only one that covers the instant, and it is the row of the last feed started by then. */
  ghost predicate OnlyCover(history: seq<Ingestion>, baseCurrency: string, quoteCurrency: string, at: int, k: nat, m: nat) {
    var rates, feeds := IngestAll(history), PairFeeds(history, baseCurrency, quoteCurrency);
    && k < |rates| && m < |feeds|
    && (forall j :: 0 <= j < |rates| ==> (Covers(rates[j], baseCurrency, quoteCurrency, at) <==> j == k))
    && IsWindow(rates[k], feeds[m], NextStart(feeds, m))
    && feeds[m].input.validFrom <= at && forall j :: m < j < |feeds| ==> at < feeds[j].input.validFrom
  }

  /**
   In any history, whatever other pairs are fed in between: if the feeds of a
   pair start in order and carry no expiry, then from the first one on exactly
   one snapshot covers each instant of the pair, that of the last feed started
   by then, and the lookup returns it.
   */
  lemma ExactlyOneCovers(history: seq<Ingestion>, baseCurrency: string, quoteCurrency: string, at: int)
    requires Feed(PairFeeds(history, baseCurrency, quoteCurrency), baseCurrency, quoteCurrency)
    requires
      var feeds := PairFeeds(history, baseCurrency, quoteCurrency);
      |feeds| > 0 && feeds[0].input.validFrom <= at
    ensures exists k: nat, m: nat :: OnlyCover(history, baseCurrency, quoteCurrency, at, k, m)
                    && FindAtTime(IngestAll(history), baseCurrency, quoteCurrency, at) == Some(k)
  {
    hide IngestAll, PairFeeds, PairRows, FindAtTime, RoundHalfUp, IsWindow, Covers, Feed;
    var rates, feeds := IngestAll(history), PairFeeds(history, baseCurrency, quoteCurrency);
    var own := PairRows(rates, baseCurrency, quoteCurrency);
    WindowsAreAdjacent(history, baseCurrency, quoteCurrency);
    var m := LastStarted(feeds, at, |feeds|);
    forall j | 0 <= j < |own| ensures Covers(own[j], baseCurrency, quoteCurrency, at) <==> j == m {
      WindowCoversIff(feeds, own[j], j, m, baseCurrency, quoteCurrency, at);
    }
    var k := OneInThePairOneInTheTable(rates, baseCurrency, quoteCurrency, at, m);
    assert OnlyCover(history, baseCurrency, quoteCurrency, at, k, m);
    var found := FindAtTime(rates, baseCurrency, quoteCurrency, at);
    assert found == Some(k);
  }

  /** Feed m is the last of the pair's that has started by `at`. */
  ghost predicate IsLastStarted(feeds: seq<Ingestion>, m: nat, at: int) {
    m < |feeds| && feeds[m].input.validFrom <= at && forall j :: m < j < |feeds| ==> at < feeds[j].input.validFrom
  }

  /**
   What the two lookups answer, in terms of the feeds: the rate of the last feed
   started, to eight decimals; the current one only while it was captured no
   longer ago than allowed, and otherwise that it is stale.
   */
  lemma RatesAreTheLastFeeds(history: seq<Ingestion>, baseCurrency: string, quoteCurrency: string, at: int, maxAge: int)
    requires Feed(PairFeeds(history, baseCurrency, quoteCurrency), baseCurrency, quoteCurrency)
    requires
      var feeds := PairFeeds(history, baseCurrency, quoteCurrency);
      |feeds| > 0 && feeds[0].input.validFrom <= at
    ensures
      var feeds := PairFeeds(history, baseCurrency, quoteCurrency);
      forall m: nat :: IsLastStarted(feeds, m, at) ==>
        var rate := RoundHalfUp(feeds[m].input.rate * 100_000_000.0);
        && RateAtTime(IngestAll(history), baseCurrency, quoteCurrency, at) == Ok(rate)
        && CurrentRate(IngestAll(history), baseCurrency, quoteCurrency, at, maxAge)
             == if feeds[m].now < at - maxAge then Err(Stale) else Ok(rate)
    ensures exists m: nat :: IsLastStarted(PairFeeds(history, baseCurrency, quoteCurrency), m, at)
  {
    hide IngestAll, PairFeeds, PairRows, FindAtTime, RoundHalfUp, Covers, Feed;
    ExactlyOneCovers(history, baseCurrency, quoteCurrency, at);
    var k: nat, last: nat :| OnlyCover(history, baseCurrency, quoteCurrency, at, k, last)
                             && FindAtTime(IngestAll(history), baseCurrency, quoteCurrency, at) == Some(k);
    var feeds := PairFeeds(history, baseCurrency, quoteCurrency);
    assert IsLastStarted(feeds, last, at);
    forall m: nat | IsLastStarted(feeds, m, at) ensures m == last {
    }
  }

  /** Before the first feed of a pair neither lookup finds a rate. */
  lemma NoRateBeforeTheFirstFeed(history: seq<Ingestion>, baseCurrency: string, quoteCurrency: string, at: int, maxAge: int)
    requires Feed(PairFeeds(history, baseCurrency, quoteCurrency), baseCurrency, quoteCurrency)
    requires
      var feeds := PairFeeds(history, baseCurrency, quoteCurrency);
      forall m :: 0 <= m < |feeds| ==> at < feeds[m].input.validFrom
    ensures RateAtTime(IngestAll(history), baseCurrency, quoteCurrency, at) == Err(NoRate)
    ensures CurrentRate(IngestAll(history), baseCurrency, quoteCurrency, at, maxAge) == Err(NoRate)
  {
    hide IngestAll, PairFeeds, PairRows, FindAtTime, Feed, Covers;
    var rates := IngestAll(history);
    WindowsAreAdjacent(history, baseCurrency, quoteCurrency);
    forall m | 0 <= m < |PairRows(rates, baseCurrency, quoteCurrency)|
      ensures !Covers(PairRows(rates, baseCurrency, quoteCurrency)[m], baseCurrency, quoteCurrency, at)
    {
      NotStarted(PairRows(rates, baseCurrency, quoteCurrency)[m], baseCurrency, quoteCurrency, at);
    }
    NoneInThePair(rates, baseCurrency, quoteCurrency, at);
    var found := FindAtTime(rates, baseCurrency, quoteCurrency, at);
    assert found == None;
  }

  lemma NotStarted(r: Rate, baseCurrency: string, quoteCurrency: string, at: int)
    requires at < r.validFrom
    ensures !Covers(r, baseCurrency, quoteCurrency, at)
  {
  }

  // ---- Ingestions whose insert fails -----------------------------------------

  /** Rates that are too small, so that their inverse is too large, or too large themselves; those just inside are stored. */
  lemma ExtremeRatesAreNotStored(input: RateInput)
    requires |input.source| <= 50 && '\0' !in input.source
    ensures !Storable(input.(rate := 0.0000000001)) && !Storable(input.(rate := 10000000000.0))
    ensures Storable(input.(rate := 0.00000001)) && Storable(input.(rate := 9999999999.0))
  {
    assert 1.0 / 0.0000000001 == 10000000000.0;
    assert 10000000000.0 * SCALE == COLUMN_LIMIT as real;
    RoundWhole(COLUMN_LIMIT);
    assert 1.0 / 0.00000001 == 100000000.0;
    assert 0.00000001 * SCALE == 1.0 && 100000000.0 * SCALE == 10000000000000000.0;
    RoundWhole(1);
    RoundWhole(10000000000000000);
    assert 9999999999.0 * SCALE == 999999999900000000.0;
    RoundWhole(999999999900000000);
    assert 0.0 <= 1.0 / 9999999999.0 * SCALE <= 1.0;
    RoundMonotone(1.0 / 9999999999.0 * SCALE, 1.0);
    RoundMonotone(0.0, 1.0 / 9999999999.0 * SCALE);
    RoundWhole(0);
  }

  /** Neither is an ordinary rate with a source of more than fifty characters; shortened to fifty it is. */
  lemma LongSourceIsNotStored(rates: seq<Rate>, input: RateInput, id: string, now: int)
    requires input.rate == 1.0 && |input.source| > 50 && '\0' !in input.source
    ensures Ingest(rates, input, id, now) == CloseAll(rates, input)
    ensures Storable(input.(source := input.source[..50]))
  {
    assert 1.0 * SCALE == 100_000_000 as real && 1.0 / 1.0 == 1.0;
    RoundWhole(100_000_000);
  }

  /**
   A feed that is accepted but not stored leaves a gap: after feeds in order,
   no snapshot of the pair covers any instant from its start on, and every
   lookup there finds nothing.
   */
  lemma RefusedFeedLeavesAGap(history: seq<Ingestion>, input: RateInput, id: string, now: int, at: int)
    requires Feed(PairFeeds(history, input.baseCurrency, input.quoteCurrency), input.baseCurrency, input.quoteCurrency)
    requires
      forall i :: i in PairFeeds(history, input.baseCurrency, input.quoteCurrency) ==> i.input.validFrom <= input.validFrom
    requires !Storable(input) && input.validFrom <= at
    ensures
      var rates := Ingest(IngestAll(history), input, id, now);
      && NoCover(rates, input.baseCurrency, input.quoteCurrency, at)
      && RateAtTime(rates, input.baseCurrency, input.quoteCurrency, at) == Err(NoRate)
  {
    hide IngestAll, PairFeeds, PairRows, Feed, IsWindow, Covers, FindAtTime, CloseAll, Storable;
    var b, q := input.baseCurrency, input.quoteCurrency;
    var before, feeds := IngestAll(history), PairFeeds(history, b, q);
    var rates := Ingest(before, input, id, now);
    assert rates == CloseAll(before, input);
    WindowsAreAdjacent(history, b, q);
    ClosingAPair(before, input, b, q);
    var own, after := PairRows(before, b, q), PairRows(rates, b, q);
    assert after == CloseAll(own, input);
    forall k | 0 <= k < |after| ensures !Covers(after[k], b, q, at) {
      assert feeds[k] in feeds;
      assert k + 1 < |feeds| ==> feeds[k + 1] in feeds;
      ClosedBefore(own[k], feeds[k], NextStart(feeds, k), input, at);
    }
    NoneInThePair(rates, b, q, at);
    var found := FindAtTime(rates, b, q, at);
    assert found == None;
  }

  lemma ClosedBefore(r: Rate, i: Ingestion, end: Option<int>, input: RateInput, at: int)
    requires IsWindow(r, i, end) && input.validFrom <= at
    requires end.Some? ==> end.value <= input.validFrom
    ensures !Covers(Close(r, input), input.baseCurrency, input.quoteCurrency, at)
  {
    hide RoundHalfUp;
  }

  /** The last of the first n ingestions that has started by `at`. */
  lemma {:induction false} LastStarted(history: seq<Ingestion>, at: int, n: nat) returns (k: nat)
    requires 0 < n <= |history| && history[0].input.validFrom <= at
    ensures k < n && history[k].input.validFrom <= at
    ensures forall j :: k < j < n ==> at < history[j].input.validFrom
  {
    if history[n - 1].input.validFrom <= at {
      k := n - 1;
    } else {
      k := LastStarted(history, at, n - 1);
    }
  }
}
