/** Nightly FX revaluation (src/fx/fx-revaluation.service.ts). */
module Revaluation {
  import opened Money
  import opened Sums
  import opened Calendar
  import opened Ledger
  import opened FxRates
  import opened ForeignPositions

  datatype RevaluationError = RateMissing(error: RateError) | AccountMissing

  // ---- Steps 2 to 4: one position --------------------------------------------

  /** A foreign amount in home ticks at a rate. */
  function ValueAt(balance: int, rate: int): int {
    RoundHalfUp(balance as real * rate as real / SCALE)
  }

  /** The rate 24 hours before, or else the current one. */
  function BasisRate(desk: Desk, rates: seq<Rate>, currency: string, asOf: int, now: int): Result<int, RateError> {
    match RateAtTime(rates, currency, HOME, asOf - DAY as int)
    case Ok(rate) => Ok(rate)
    case Err(_) => CurrentRate(rates, currency, HOME, now, desk.maxAge)
  }

  function ClosingRate(desk: Desk, rates: seq<Rate>, currency: string, now: int): Result<int, RateError> {
    CurrentRate(rates, currency, HOME, now, desk.maxAge)
  }

  /** A position without a usable current rate is skipped. */
  function Change(balance: int, basis: Result<int, RateError>, closing: Result<int, RateError>): int {
    if basis.Ok? && closing.Ok? then ValueAt(balance, closing.value) - ValueAt(balance, basis.value) else 0
  }

  function Unrealised(desk: Desk, rates: seq<Rate>, asOf: int, now: int): Position -> int {
    (p: Position) =>
      Change(p.balance, BasisRate(desk, rates, p.currency, asOf, now), ClosingRate(desk, rates, p.currency, now))
  }

  predicate HasBasis(desk: Desk, rates: seq<Rate>, asOf: int, now: int, p: Position) {
    BasisRate(desk, rates, p.currency, asOf, now).Ok?
  }

  function Gain(desk: Desk, rates: seq<Rate>, asOf: int, now: int): Position -> int {
    (p: Position) => var u := Unrealised(desk, rates, asOf, now)(p); if u > 0 then u else 0
  }

  function Loss(desk: Desk, rates: seq<Rate>, asOf: int, now: int): Position -> int {
    (p: Position) => var u := Unrealised(desk, rates, asOf, now)(p); if u < 0 then -u else 0
  }

  // ---- Step 5: the consolidated journal --------------------------------------

  function JournalLines(desk: Desk, gain: int, loss: int): seq<Line>
    requires desk.gainAccount.Some? && desk.lossAccount.Some?
  {
    (if gain > 0
     then [Line(desk.suspense, Debit, gain as real, HOME, "unrealised gain"),
           Line(desk.gainAccount.value, Credit, gain as real, HOME, "unrealised gain")]
     else [])
    + (if loss > 0
       then [Line(desk.lossAccount.value, Debit, loss as real, HOME, "unrealised loss"),
             Line(desk.suspense, Credit, loss as real, HOME, "unrealised loss")]
       else [])
  }

  datatype Run = Run(totalGain: int, totalLoss: int, journal: seq<Line>)

  /**
   runRevaluation. A missing basis aborts the run; a missing closing rate skips
   the position. Nothing is posted when gains and losses cancel.
   */
  method RunRevaluation(desk: Desk, entries: seq<Entry>, rates: seq<Rate>, asOf: int, now: int)
    returns (r: Result<Run, RevaluationError>)
    ensures r == Revalue(desk, entries, rates, asOf, now)
  {
    hide ValueAt, BasisRate, ClosingRate, Positions, JournalLines, FirstFailure;
    var positions := Positions(desk, entries, asOf);
    var totalGain, totalLoss := 0, 0;
    for k := 0 to |positions|
      invariant forall j :: 0 <= j < k ==> HasBasis(desk, rates, asOf, now, positions[j])
      invariant totalGain == Total(positions[..k], Gain(desk, rates, asOf, now))
      invariant totalLoss == Total(positions[..k], Loss(desk, rates, asOf, now))
    {
      var p := positions[k];
      assert positions[..k + 1][..k] == positions[..k];
      var basis := BasisRate(desk, rates, p.currency, asOf, now);
      if basis.Err? {
        assert p in positions && !HasBasis(desk, rates, asOf, now, p);
        NoBasisIsTheSameError(desk, rates, asOf, now, positions, k);
        return Err(RateMissing(basis.error));
      }
      var closing := ClosingRate(desk, rates, p.currency, now);
      ghost var gain, loss := Gain(desk, rates, asOf, now), Loss(desk, rates, asOf, now);
      assert Total(positions[..k + 1], gain) == Total(positions[..k], gain) + gain(p);
      assert Total(positions[..k + 1], loss) == Total(positions[..k], loss) + loss(p);
      if closing.Err? {
        assert Unrealised(desk, rates, asOf, now)(p) == 0;
        continue;
      }
      assert Unrealised(desk, rates, asOf, now)(p) == ValueAt(p.balance, closing.value) - ValueAt(p.balance, basis.value);
      var unrealised := ValueAt(p.balance, closing.value) - ValueAt(p.balance, basis.value);
      if unrealised > 0 {
        totalGain := totalGain + unrealised;
      } else if unrealised < 0 {
        totalLoss := totalLoss - unrealised;
      }
    }
    assert positions[..|positions|] == positions;
    NoFailure(desk, rates, asOf, now, positions);
    if totalGain == totalLoss {
      return Ok(Run(totalGain, totalLoss, []));
    }
    if desk.gainAccount.None? || desk.lossAccount.None? {
      return Err(AccountMissing);
    }
    return Ok(Run(totalGain, totalLoss, JournalLines(desk, totalGain, totalLoss)));
  }

  function FirstFailure(desk: Desk, rates: seq<Rate>, asOf: int, now: int, positions: seq<Position>): Option<RateError> {
    if |positions| == 0 then None
    else match BasisRate(desk, rates, positions[0].currency, asOf, now)
         case Err(error) => Some(error)
         case Ok(_) => FirstFailure(desk, rates, asOf, now, positions[1..])
  }

  function Revalue(desk: Desk, entries: seq<Entry>, rates: seq<Rate>, asOf: int, now: int):
    Result<Run, RevaluationError>
  {
    var positions := Positions(desk, entries, asOf);
    match FirstFailure(desk, rates, asOf, now, positions)
    case Some(error) => Err(RateMissing(error))
    case None =>
      var gain := Total(positions, Gain(desk, rates, asOf, now));
      var loss := Total(positions, Loss(desk, rates, asOf, now));
      if gain == loss then Ok(Run(gain, loss, []))
      else if desk.gainAccount.None? || desk.lossAccount.None? then Err(AccountMissing)
      else Ok(Run(gain, loss, JournalLines(desk, gain, loss)))
  }

  lemma {:induction false} NoBasisIsTheSameError(desk: Desk, rates: seq<Rate>, asOf: int, now: int,
                                                 positions: seq<Position>, k: nat)
    requires k < |positions| && !HasBasis(desk, rates, asOf, now, positions[k])
    requires forall j :: 0 <= j < k ==> HasBasis(desk, rates, asOf, now, positions[j])
    ensures FirstFailure(desk, rates, asOf, now, positions)
         == Some(BasisRate(desk, rates, positions[k].currency, asOf, now).error)
  {
    if k > 0 {
      assert HasBasis(desk, rates, asOf, now, positions[0]);
      NoBasisIsTheSameError(desk, rates, asOf, now, positions[1..], k - 1);
    }
  }

  lemma {:induction false} NoFailure(desk: Desk, rates: seq<Rate>, asOf: int, now: int, positions: seq<Position>)
    ensures FirstFailure(desk, rates, asOf, now, positions) == None
       <==> forall j :: 0 <= j < |positions| ==> HasBasis(desk, rates, asOf, now, positions[j])
  {
    if |positions| > 0 {
      NoFailure(desk, rates, asOf, now, positions[1..]);
      assert forall j :: 0 <= j < |positions[1..]| ==> positions[1..][j] == positions[j + 1];
      if forall j :: 0 <= j < |positions[1..]| ==> HasBasis(desk, rates, asOf, now, positions[1..][j]) {
        assert forall j :: 0 < j < |positions| ==> positions[j] == positions[1..][j - 1];
      }
    }
  }

  /** By how much the position is worth more at its closing rate than at its basis; 0 if it has no closing rate. */
  function WorthMore(desk: Desk, rates: seq<Rate>, asOf: int, now: int): Position -> int {
    (p: Position) =>
      match ClosingRate(desk, rates, p.currency, now)
      case Err(_) => 0
      case Ok(closing) =>
        match BasisRate(desk, rates, p.currency, asOf, now)
        case Err(_) => 0
        case Ok(basis) =>
          var more := ValueAt(p.balance, closing) - ValueAt(p.balance, basis);
          if more > 0 then more else 0
  }

  function WorthLess(desk: Desk, rates: seq<Rate>, asOf: int, now: int): Position -> int {
    (p: Position) =>
      match ClosingRate(desk, rates, p.currency, now)
      case Err(_) => 0
      case Ok(closing) =>
        match BasisRate(desk, rates, p.currency, asOf, now)
        case Err(_) => 0
        case Ok(basis) =>
          var less := ValueAt(p.balance, basis) - ValueAt(p.balance, closing);
          if less > 0 then less else 0
  }

  lemma WorthIs(desk: Desk, rates: seq<Rate>, asOf: int, now: int, p: Position)
    ensures WorthMore(desk, rates, asOf, now)(p) == Gain(desk, rates, asOf, now)(p)
    ensures WorthLess(desk, rates, asOf, now)(p) == Loss(desk, rates, asOf, now)(p)
  {
    hide CurrentRate, RateAtTime, ValueAt;
    var u := Unrealised(desk, rates, asOf, now)(p);
    var basis, closing := BasisRate(desk, rates, p.currency, asOf, now), ClosingRate(desk, rates, p.currency, now);
    assert u == Change(p.balance, basis, closing);
    match closing {
      case Err(_) => assert u == 0;
      case Ok(c) =>
        match basis {
          case Err(_) => assert u == 0;
          case Ok(b) => assert u == ValueAt(p.balance, c) - ValueAt(p.balance, b);
        }
    }
  }

  /**
   The outcome of a run: it stops at a position without a basis, exactly if there
   is one; it totals what the positions with a closing rate are worth more and
   what they are worth less; and it posts nothing exactly if the two are equal.
   */
  lemma RunTotals(desk: Desk, entries: seq<Entry>, rates: seq<Rate>, asOf: int, now: int)
    ensures
      var positions := Positions(desk, entries, asOf);
      var run := Revalue(desk, entries, rates, asOf, now);
      var gain, loss := Total(positions, WorthMore(desk, rates, asOf, now)), Total(positions, WorthLess(desk, rates, asOf, now));
      && ((run.Err? && run.error.RateMissing?) <==> exists p :: p in positions && !HasBasis(desk, rates, asOf, now, p))
      && (run == Err(AccountMissing) ==> gain != loss && (desk.gainAccount.None? || desk.lossAccount.None?))
      && (run.Ok? ==> run.value.totalGain == gain && run.value.totalLoss == loss)
      && (run.Ok? ==> (run.value.journal == [] <==> gain == loss))
  {
    hide Positions, ClosingRate, BasisRate, ValueAt;
    var positions := Positions(desk, entries, asOf);
    NoFailure(desk, rates, asOf, now, positions);
    if exists p :: p in positions && !HasBasis(desk, rates, asOf, now, p) {
      var p :| p in positions && !HasBasis(desk, rates, asOf, now, p);
      var k :| 0 <= k < |positions| && positions[k] == p;
    }
    forall p | p in positions
      ensures WorthMore(desk, rates, asOf, now)(p) == Gain(desk, rates, asOf, now)(p)
      ensures WorthLess(desk, rates, asOf, now)(p) == Loss(desk, rates, asOf, now)(p)
    {
      WorthIs(desk, rates, asOf, now, p);
    }
    TotalEqual(positions, WorthMore(desk, rates, asOf, now), Gain(desk, rates, asOf, now));
    TotalEqual(positions, WorthLess(desk, rates, asOf, now), Loss(desk, rates, asOf, now));
    TotalNonNegative(positions, Gain(desk, rates, asOf, now));
    TotalNonNegative(positions, Loss(desk, rates, asOf, now));
  }

  // ---- The journal moves the suspense account by the net ---------------------

  /** A balanced journal of whole amounts in the home currency. */
  ghost predicate HomeJournal(lines: seq<Line>) {
    Accepted(lines) && WholeAmounts(lines) && forall l :: l in lines ==> l.currency == HOME
  }

  /** Appending a matching debit and credit keeps a home journal one. */
  lemma AppendPair(lines: seq<Line>, debit: Line, credit: Line)
    requires HomeJournal(lines)
    requires debit.entryType == Debit && credit.entryType == Credit && debit.amount == credit.amount > 0.0
    requires IsWhole(debit.amount) && debit.currency == HOME && credit.currency == HOME
    ensures HomeJournal(lines + [debit] + [credit])
  {
    hide DebitTotal, CreditTotal, StoredNet, LineWeight;
    OneMoreLine(lines, debit, HOME);
    OneMoreLine(lines + [debit], credit, HOME);
  }

  lemma JournalByPairs(desk: Desk, gain: nat, loss: nat)
    requires desk.gainAccount.Some? && desk.lossAccount.Some?
    ensures
      var up, income := Line(desk.suspense, Debit, gain as real, HOME, "unrealised gain"),
                        Line(desk.gainAccount.value, Credit, gain as real, HOME, "unrealised gain");
      var cost, down := Line(desk.lossAccount.value, Debit, loss as real, HOME, "unrealised loss"),
                        Line(desk.suspense, Credit, loss as real, HOME, "unrealised loss");
      var first := if gain > 0 then [] + [up] + [income] else [];
      JournalLines(desk, gain, loss) == if loss > 0 then first + [cost] + [down] else first
  {
  }

  /** What the journal does to an account: gains from the gain account to suspense, losses from suspense to the loss account. */
  function JournalMoves(desk: Desk, gain: int, loss: int, account: Id): int
    requires desk.gainAccount.Some? && desk.lossAccount.Some?
  {
    (if account == desk.suspense then gain - loss else 0)
    - (if account == desk.gainAccount.value then gain else 0)
    + (if account == desk.lossAccount.value then loss else 0)
  }

  /** The journal is accepted, conserves every currency and moves each account as it should. */
  lemma JournalIsSound(desk: Desk, gain: nat, loss: nat)
    requires desk.gainAccount.Some? && desk.lossAccount.Some?
    ensures
      var lines := JournalLines(desk, gain, loss);
      && Accepted(lines) && ConservesEachCurrency(lines)
      && (forall journalId: Id, asOf: int, runId: Id, account: Id ::
            Balance(StoredAll(journalId, asOf, FxConversion, runId, lines), account)
              == JournalMoves(desk, gain, loss, account))
  {
    hide RoundHalfUp, Balance, StoredAll, Balanced, AllPositive, ConservesEachCurrency, JournalLines, HomeJournal;
    var up, income := Line(desk.suspense, Debit, gain as real, HOME, "unrealised gain"),
                      Line(desk.gainAccount.value, Credit, gain as real, HOME, "unrealised gain");
    var cost, down := Line(desk.lossAccount.value, Debit, loss as real, HOME, "unrealised loss"),
                      Line(desk.suspense, Credit, loss as real, HOME, "unrealised loss");
    var none: seq<Line> := [];
    var first := if gain > 0 then none + [up] + [income] else none;
    var lines := JournalLines(desk, gain, loss);
    JournalByPairs(desk, gain, loss);
    RoundWhole(gain);
    RoundWhole(loss);
    EmptyJournal();
    if gain > 0 {
      AppendPair(none, up, income);
    }
    if loss > 0 {
      AppendPair(first, cost, down);
    }
    HomeIsSound(lines);
    forall journalId: Id, asOf: int, runId: Id, account: Id
      ensures Balance(StoredAll(journalId, asOf, FxConversion, runId, lines), account)
           == JournalMoves(desk, gain, loss, account)
    {
      NoRows(journalId, asOf, runId, account);
      OneMoreRow(journalId, asOf, FxConversion, runId, none, up, account);
      OneMoreRow(journalId, asOf, FxConversion, runId, none + [up], income, account);
      OneMoreRow(journalId, asOf, FxConversion, runId, first, cost, account);
      OneMoreRow(journalId, asOf, FxConversion, runId, first + [cost], down, account);
    }
  }

  lemma JournalMovesSuspense(desk: Desk, gain: nat, loss: nat, journalId: Id, asOf: int, runId: Id)
    requires desk.gainAccount.Some? && desk.lossAccount.Some?
    requires desk.suspense != desk.gainAccount.value && desk.suspense != desk.lossAccount.value
    ensures Balance(StoredAll(journalId, asOf, FxConversion, runId, JournalLines(desk, gain, loss)), desk.suspense)
         == gain - loss
  {
    hide Accepted, ConservesEachCurrency;
    JournalIsSound(desk, gain, loss);
    assert JournalMoves(desk, gain, loss, desk.suspense) == gain - loss;
  }

  lemma EmptyJournal()
    ensures HomeJournal([])
  {
  }

  lemma HomeIsSound(lines: seq<Line>)
    requires HomeJournal(lines)
    ensures Accepted(lines) && ConservesEachCurrency(lines)
  {
    hide ConservesEachCurrency;
    StoredBalanced(lines, HOME);
  }

  lemma NoRows(journalId: Id, asOf: int, runId: Id, account: Id)
    ensures Balance(StoredAll(journalId, asOf, FxConversion, runId, []), account) == 0
  {
  }

  lemma GainsMinusLosses(desk: Desk, rates: seq<Rate>, asOf: int, now: int, positions: seq<Position>)
    ensures Total(positions, Gain(desk, rates, asOf, now)) - Total(positions, Loss(desk, rates, asOf, now))
         == Total(positions, Unrealised(desk, rates, asOf, now))
    ensures Total(positions, Gain(desk, rates, asOf, now)) >= 0 && Total(positions, Loss(desk, rates, asOf, now)) >= 0
  {
    TotalSplit(positions, Gain(desk, rates, asOf, now), Unrealised(desk, rates, asOf, now), Loss(desk, rates, asOf, now));
    TotalNonNegative(positions, Gain(desk, rates, asOf, now));
    TotalNonNegative(positions, Loss(desk, rates, asOf, now));
  }

  // ---- Consecutive nights ----------------------------------------------------

  /** What is posted and ingested before one nightly run; the job runs at the time it revalues for. */
  datatype Night = Night(postings: seq<Entry>, ingestions: seq<Ingestion>, journalId: Id, runId: Id)

  datatype Book = Book(entries: seq<Entry>, rates: seq<Rate>)

  function IngestOn(rates: seq<Rate>, ingestions: seq<Ingestion>): seq<Rate> {
    if |ingestions| == 0 then rates
    else
      var last := ingestions[|ingestions| - 1];
      Ingest(IngestOn(rates, ingestions[..|ingestions| - 1]), last.input, last.id, last.now)
  }

  function AfterNight(desk: Desk, book: Book, night: Night, at: int): Book {
    var entries, rates := book.entries + night.postings, IngestOn(book.rates, night.ingestions);
    match Revalue(desk, entries, rates, at, at)
    case Err(_) => Book(entries, rates)
    case Ok(run) => Book(entries + StoredAll(night.journalId, at, FxConversion, night.runId, run.journal), rates)
  }

  /** The k-th run takes place 24 hours after the one before it. */
  function TimeOf(start: int, k: nat): int {
    start + k * DAY
  }

  function AfterNights(desk: Desk, book: Book, nights: seq<Night>, start: int): Book {
    if |nights| == 0 then book
    else
      var n := |nights| - 1;
      AfterNight(desk, AfterNights(desk, book, nights[..n], start), nights[n], TimeOf(start, n))
  }

  /** The rates that run k sees. */
  function RatesAt(desk: Desk, book: Book, nights: seq<Night>, start: int, k: nat): seq<Rate>
    requires k < |nights|
  {
    IngestOn(AfterNights(desk, book, nights[..k], start).rates, nights[k].ingestions)
  }

  /** All that was posted between the runs. */
  function Traffic(nights: seq<Night>): seq<Entry> {
    if |nights| == 0 then [] else Traffic(nights[..|nights| - 1]) + nights[|nights| - 1].postings
  }

  /** Between the runs anything may be posted in the home currency, on any account. */
  ghost predicate HomeTraffic(nights: seq<Night>) {
    forall k, e :: 0 <= k < |nights| && e in nights[k].postings ==> e.currency == HOME
  }

  /** No ingestion is dated at or before a run that has already taken place. */
  ghost predicate NoBackdating(nights: seq<Night>, start: int) {
    forall k, j :: 0 < k < |nights| && 0 <= j < |nights[k].ingestions| ==>
      TimeOf(start, k - 1) < nights[k].ingestions[j].input.validFrom
  }

  /** Every run finds a fresh rate for every position, and a basis. */
  ghost predicate RatesFresh(desk: Desk, book: Book, nights: seq<Night>, start: int, positions: seq<Position>) {
    forall k, p :: 0 <= k < |nights| && p in positions ==>
      ClosingRate(desk, RatesAt(desk, book, nights, start, k), p.currency, TimeOf(start, k)).Ok?
  }

  ghost predicate DeskOk(desk: Desk) {
    && desk.gainAccount.Some? && desk.lossAccount.Some?
    && desk.suspense != desk.gainAccount.value && desk.suspense != desk.lossAccount.value
  }

  /** All foreign rows are dated by the first run: the foreign balances stay constant. */
  ghost predicate ForeignIsOld(desk: Desk, entries: seq<Entry>, start: int) {
    forall e :: e in entries && IsForeign(desk, e) ==> e.effectiveDate <= start
  }

  lemma {:induction false} SelectionStable(desk: Desk, entries: seq<Entry>, more: seq<Entry>, start: int, at: int)
    requires ForeignIsOld(desk, entries, start) && start <= at
    requires forall e :: e in more ==> e.currency == HOME
    ensures Selected(desk, entries + more, at) == Selected(desk, entries, start)
  {
    if |more| > 0 {
      assert (entries + more)[..|entries + more| - 1] == entries + more[..|more| - 1];
      SelectionStable(desk, entries, more[..|more| - 1], start, at);
    } else {
      assert entries + more == entries;
      if |entries| > 0 {
        assert entries[|entries| - 1] in entries;
        SelectionStable(desk, entries[..|entries| - 1], [], start, at);
        assert entries[..|entries| - 1] + [] == entries[..|entries| - 1];
      }
    }
  }

  lemma PrefixIsNotBackdated(nights: seq<Night>, start: int, n: nat)
    requires n <= |nights| && NoBackdating(nights, start)
    ensures NoBackdating(nights[..n], start)
  {
  }

  lemma PositionsStable(desk: Desk, entries: seq<Entry>, more: seq<Entry>, start: int, at: int)
    requires ForeignIsOld(desk, entries, start) && start <= at
    requires forall e :: e in more ==> e.currency == HOME
    ensures Positions(desk, entries + more, at) == Positions(desk, entries, start)
  {
    SelectionStable(desk, entries, more, start, at);
  }

  lemma JournalIsHome(desk: Desk, entries: seq<Entry>, rates: seq<Rate>, at: int, journalId: Id, runId: Id)
    ensures
      var run := Revalue(desk, entries, rates, at, at);
      run.Ok? ==> forall e :: e in StoredAll(journalId, at, FxConversion, runId, run.value.journal) ==> e.currency == HOME
  {
    hide Positions, Gain, Loss, FirstFailure;
  }

  /** With home-currency traffic between the runs, only rows in the home currency are added. */
  lemma {:induction false} OnlyHomeRows(desk: Desk, book: Book, nights: seq<Night>, start: int) returns (more: seq<Entry>)
    requires HomeTraffic(nights)
    ensures AfterNights(desk, book, nights, start).entries == book.entries + more
    ensures forall e :: e in more ==> e.currency == HOME
  {
    hide Revalue, Ingest, RateAtTime, Stored;
    if |nights| == 0 {
      more := [];
    } else {
      var n := |nights| - 1;
      var before := AfterNights(desk, book, nights[..n], start);
      var front := OnlyHomeRows(desk, book, nights[..n], start);
      front := front + nights[n].postings;
      var entries := before.entries + nights[n].postings;
      var rates := IngestOn(before.rates, nights[n].ingestions);
      assert book.entries + front == entries;
      match Revalue(desk, entries, rates, TimeOf(start, n), TimeOf(start, n))
      case Err(_) => more := front;
      case Ok(run) =>
        JournalIsHome(desk, entries, rates, TimeOf(start, n), nights[n].journalId, nights[n].runId);
        more := front + StoredAll(nights[n].journalId, TimeOf(start, n), FxConversion, nights[n].runId, run.journal);
    }
  }

  lemma {:induction false} StableOverIngestions(rates: seq<Rate>, ingestions: seq<Ingestion>, currency: string, at: int)
    requires forall j :: 0 <= j < |ingestions| ==> at < ingestions[j].input.validFrom
    ensures RateAtTime(IngestOn(rates, ingestions), currency, HOME, at) == RateAtTime(rates, currency, HOME, at)
  {
    if |ingestions| > 0 {
      var front, last := ingestions[..|ingestions| - 1], ingestions[|ingestions| - 1];
      StableOverIngestions(rates, front, currency, at);
      HistoryIsStable(IngestOn(rates, front), last.input, last.id, last.now, currency, HOME, at);
    }
  }

  /** A run leaves the rates that it saw. */
  lemma RatesAreKept(desk: Desk, book: Book, nights: seq<Night>, start: int, k: nat)
    requires 0 < k < |nights|
    ensures AfterNights(desk, book, nights[..k], start).rates == RatesAt(desk, book, nights, start, k - 1)
  {
    hide Ingest, Revalue, IngestOn, StoredAll;
    assert nights[..k][..k - 1] == nights[..k - 1];
  }

  lemma NotBackdated(nights: seq<Night>, start: int, k: nat)
    requires 0 < k < |nights| && NoBackdating(nights, start)
    ensures forall j :: 0 <= j < |nights[k].ingestions| ==>
              TimeOf(start, k - 1) < nights[k].ingestions[j].input.validFrom
  {
  }

  /** The basis of a run is the closing rate of the run before it. */
  lemma BasisIsLastClosing(desk: Desk, book: Book, nights: seq<Night>, start: int, k: nat, p: Position)
    requires 0 < k < |nights| && NoBackdating(nights, start)
    requires ClosingRate(desk, RatesAt(desk, book, nights, start, k - 1), p.currency, TimeOf(start, k - 1)).Ok?
    ensures BasisRate(desk, RatesAt(desk, book, nights, start, k), p.currency, TimeOf(start, k), TimeOf(start, k))
         == ClosingRate(desk, RatesAt(desk, book, nights, start, k - 1), p.currency, TimeOf(start, k - 1))
  {
    hide Ingest, FindAtTime, Revalue, NoBackdating, IngestOn, AfterNights, StoredAll;
    assert forall j :: 0 <= j < |nights[k].ingestions| ==>
      TimeOf(start, k - 1) < nights[k].ingestions[j].input.validFrom by {
      NotBackdated(nights, start, k);
    }
    var earlier := RatesAt(desk, book, nights, start, k - 1);
    RatesAreKept(desk, book, nights, start, k);
    StableOverIngestions(earlier, nights[k].ingestions, p.currency, TimeOf(start, k - 1));
    assert TimeOf(start, k) - DAY as int == TimeOf(start, k - 1);
  }

  // ---- Telescoping -----------------------------------------------------------

  function Closing(desk: Desk, rates: seq<Rate>, at: int): Position -> int {
    (p: Position) =>
      match ClosingRate(desk, rates, p.currency, at)
      case Ok(rate) => ValueAt(p.balance, rate)
      case Err(_) => 0
  }

  function Basis(desk: Desk, rates: seq<Rate>, at: int): Position -> int {
    (p: Position) =>
      match BasisRate(desk, rates, p.currency, at, at)
      case Ok(rate) => ValueAt(p.balance, rate)
      case Err(_) => 0
  }

  /** One run moves the suspense account by closing value minus basis value. */
  lemma OneRun(desk: Desk, entries: seq<Entry>, rates: seq<Rate>, at: int, journalId: Id, runId: Id)
    requires DeskOk(desk)
    requires forall p :: p in Positions(desk, entries, at) ==> ClosingRate(desk, rates, p.currency, at).Ok?
    ensures
      var positions := Positions(desk, entries, at);
      var run := Revalue(desk, entries, rates, at, at);
      && run.Ok?
      && Balance(StoredAll(journalId, at, FxConversion, runId, run.value.journal), desk.suspense)
         == Total(positions, Closing(desk, rates, at)) - Total(positions, Basis(desk, rates, at))
  {
    var positions := Positions(desk, entries, at);
    forall j | 0 <= j < |positions| ensures HasBasis(desk, rates, at, at, positions[j]) {
      assert positions[j] in positions;
    }
    NoFailure(desk, rates, at, at, positions);
    GainsMinusLosses(desk, rates, at, at, positions);
    TotalSplit(positions, Closing(desk, rates, at), Unrealised(desk, rates, at, at), Basis(desk, rates, at));
    JournalMovesSuspense(desk, Total(positions, Gain(desk, rates, at, at)), Total(positions, Loss(desk, rates, at, at)),
                         journalId, at, runId);
    NoRows(journalId, at, runId, desk.suspense);
  }

  /** The last night: its traffic and its run on the suspense account. */
  lemma NightMoves(desk: Desk, book: Book, nights: seq<Night>, start: int)
    requires DeskOk(desk) && |nights| > 0 && HomeTraffic(nights) && ForeignIsOld(desk, book.entries, start)
    requires
      var n := |nights| - 1;
      forall p :: p in Positions(desk, book.entries, start) ==>
        ClosingRate(desk, RatesAt(desk, book, nights, start, n), p.currency, TimeOf(start, n)).Ok?
    ensures
      var n, positions := |nights| - 1, Positions(desk, book.entries, start);
      var rates, at := RatesAt(desk, book, nights, start, n), TimeOf(start, n);
      Balance(AfterNights(desk, book, nights, start).entries, desk.suspense)
        == Balance(AfterNights(desk, book, nights[..n], start).entries, desk.suspense)
         + Balance(nights[n].postings, desk.suspense)
         + Total(positions, Closing(desk, rates, at)) - Total(positions, Basis(desk, rates, at))
  {
    hide Positions, Ingest, CurrentRate, RateAtTime, ValueAt, BasisRate, ClosingRate, Revalue, ForeignIsOld;
    var n := |nights| - 1;
    var front, night, at := nights[..n], nights[n], TimeOf(start, n);
    var before := AfterNights(desk, book, front, start).entries;
    var entries, rates := before + night.postings, RatesAt(desk, book, nights, start, n);
    var more := OnlyHomeRows(desk, book, front, start);
    more := more + night.postings;
    assert book.entries + more == entries;
    PositionsStable(desk, book.entries, more, start, at);
    OneRun(desk, entries, rates, at, night.journalId, night.runId);
    var run := Revalue(desk, entries, rates, at, at).value;
    TotalConcat(before, night.postings, OnAccount(desk.suspense));
    TotalConcat(entries, StoredAll(night.journalId, at, FxConversion, night.runId, run.journal), OnAccount(desk.suspense));
  }

  lemma FreshAt(desk: Desk, book: Book, nights: seq<Night>, start: int, k: nat, positions: seq<Position>)
    requires k < |nights| && RatesFresh(desk, book, nights, start, positions)
    ensures forall p :: p in positions ==>
              ClosingRate(desk, RatesAt(desk, book, nights, start, k), p.currency, TimeOf(start, k)).Ok?
  {
    hide ClosingRate, RatesAt, TimeOf;
  }

  lemma TrafficAdds(nights: seq<Night>, account: Id)
    requires |nights| > 0
    ensures Balance(Traffic(nights), account)
         == Balance(Traffic(nights[..|nights| - 1]), account) + Balance(nights[|nights| - 1].postings, account)
  {
    TotalConcat(Traffic(nights[..|nights| - 1]), nights[|nights| - 1].postings, OnAccount(account));
  }

  lemma NoNightsNoChange(desk: Desk, book: Book, start: int, account: Id)
    ensures AfterNights(desk, book, [], start) == book && Balance(Traffic([]), account) == 0
    ensures TimeOf(start, 0) == start
  {
  }

  /** The nights before the last one are as they are in the whole. */
  lemma FrontIsLikewise(desk: Desk, book: Book, nights: seq<Night>, start: int, positions: seq<Position>)
    requires |nights| > 1 && HomeTraffic(nights) && NoBackdating(nights, start)
    requires RatesFresh(desk, book, nights, start, positions)
    ensures
      var front := nights[..|nights| - 1];
      && HomeTraffic(front) && NoBackdating(front, start) && RatesFresh(desk, book, front, start, positions)
      && RatesAt(desk, book, front, start, |front| - 1) == RatesAt(desk, book, nights, start, |front| - 1)
      && RatesAt(desk, book, front, start, 0) == RatesAt(desk, book, nights, start, 0)
  {
    hide ClosingRate, AfterNights, IngestOn, NoBackdating;
    var n := |nights| - 1;
    var front := nights[..n];
    assert forall k :: 0 <= k < n ==> front[k] == nights[k] && front[..k] == nights[..k];
    forall k, p | 0 <= k < n && p in positions
      ensures ClosingRate(desk, RatesAt(desk, book, front, start, k), p.currency, TimeOf(start, k)).Ok?
    {
      assert RatesAt(desk, book, front, start, k) == RatesAt(desk, book, nights, start, k);
    }
    PrefixIsNotBackdated(nights, start, n);
  }

  lemma BasisTotalIsLastClosing(desk: Desk, book: Book, nights: seq<Night>, start: int, k: nat, positions: seq<Position>)
    requires 0 < k < |nights| && NoBackdating(nights, start) && RatesFresh(desk, book, nights, start, positions)
    ensures Total(positions, Basis(desk, RatesAt(desk, book, nights, start, k), TimeOf(start, k)))
         == Total(positions, Closing(desk, RatesAt(desk, book, nights, start, k - 1), TimeOf(start, k - 1)))
  {
    hide ClosingRate, BasisRate, RatesAt, TimeOf, NoBackdating, ValueAt;
    var rates, earlier := RatesAt(desk, book, nights, start, k), RatesAt(desk, book, nights, start, k - 1);
    forall p | p in positions
      ensures Basis(desk, rates, TimeOf(start, k))(p) == Closing(desk, earlier, TimeOf(start, k - 1))(p)
    {
      BasisIsLastClosing(desk, book, nights, start, k, p);
    }
    TotalEqual(positions, Basis(desk, rates, TimeOf(start, k)), Closing(desk, earlier, TimeOf(start, k - 1)));
  }

  /**
   Over any number of nightly runs, with anything posted in the home currency in
   between, the suspense account moves by exactly the positions' value at the last
   closing rates minus their value at the first basis rates, plus what the traffic
   itself posted on it.
   */
  lemma {:induction false} RevaluationTelescopes(desk: Desk, book: Book, nights: seq<Night>, start: int)
    requires DeskOk(desk) && |nights| > 0 && HomeTraffic(nights)
    requires ForeignIsOld(desk, book.entries, start) && NoBackdating(nights, start)
    requires RatesFresh(desk, book, nights, start, Positions(desk, book.entries, start))
    ensures
      var positions := Positions(desk, book.entries, start);
      var n := |nights| - 1;
      Balance(AfterNights(desk, book, nights, start).entries, desk.suspense) - Balance(book.entries, desk.suspense)
        == Total(positions, Closing(desk, RatesAt(desk, book, nights, start, n), TimeOf(start, n)))
         - Total(positions, Basis(desk, RatesAt(desk, book, nights, start, 0), start))
         + Balance(Traffic(nights), desk.suspense)
  {
    hide *;
    var positions := Positions(desk, book.entries, start);
    var n := |nights| - 1;
    FreshAt(desk, book, nights, start, n, positions);
    NightMoves(desk, book, nights, start);
    TrafficAdds(nights, desk.suspense);
    if n > 0 {
      var front := nights[..n];
      FrontIsLikewise(desk, book, nights, start, positions);
      RevaluationTelescopes(desk, book, front, start);
      BasisTotalIsLastClosing(desk, book, nights, start, n, positions);
    } else {
      assert nights[..n] == [];
      NoNightsNoChange(desk, book, start, desk.suspense);
    }
  }

  // ---- In terms of the rates -------------------------------------------------

  /** A position is valued at the tick nearest to balance times rate. */
  lemma ValueIsNear(balance: int, rate: int)
    ensures
      var exact := balance as real * rate as real / 100_000_000.0;
      -0.5 <= ValueAt(balance, rate) as real - exact <= 0.5
  {
  }

  function TotalReal(positions: seq<Position>, weight: Position -> real): real {
    if |positions| == 0 then 0.0
    else TotalReal(positions[..|positions| - 1], weight) + weight(positions[|positions| - 1])
  }

  function RateOr0(rate: Result<int, RateError>): int {
    if rate.Ok? then rate.value else 0
  }

  /** What a position gains exactly when its rate goes from its basis in one book of rates to its closing rate in another. */
  function ExactChange(desk: Desk, first: seq<Rate>, start: int, last: seq<Rate>, at: int): Position -> real {
    (p: Position) =>
      p.balance as real
      * (RateOr0(ClosingRate(desk, last, p.currency, at)) - RateOr0(BasisRate(desk, first, p.currency, start, start))) as real
      / 100_000_000.0
  }

  lemma OneChangeIsNear(balance: int, closing: int, basis: int)
    ensures
      var exact := balance as real * (closing - basis) as real / 100_000_000.0;
      -1.0 <= (ValueAt(balance, closing) - ValueAt(balance, basis)) as real - exact <= 1.0
  {
    hide ValueAt;
    ValueIsNear(balance, closing);
    ValueIsNear(balance, basis);
    var b, c, d := balance as real, closing as real, basis as real;
    assert (closing - basis) as real == c - d;
    Distributes(b, c, d);
    hide *;
    Within1(ValueAt(balance, closing), ValueAt(balance, basis), b * c / 100_000_000.0, b * d / 100_000_000.0);
  }

  lemma Within1(v: int, w: int, x: real, y: real)
    requires -0.5 <= v as real - x <= 0.5 && -0.5 <= w as real - y <= 0.5
    ensures -1.0 <= (v - w) as real - (x - y) <= 1.0
  {
    assert (v - w) as real == v as real - w as real;
  }

  lemma Distributes(b: real, c: real, d: real)
    ensures b * (c - d) / 100_000_000.0 == b * c / 100_000_000.0 - b * d / 100_000_000.0
  {
    assert b * (c - d) == b * c - b * d;
  }

  ghost predicate Priced(desk: Desk, first: seq<Rate>, start: int, last: seq<Rate>, at: int, positions: seq<Position>) {
    forall p :: p in positions ==>
      ClosingRate(desk, last, p.currency, at).Ok? && BasisRate(desk, first, p.currency, start, start).Ok?
  }

  lemma {:induction false} ChangesAreNear(desk: Desk, first: seq<Rate>, start: int, last: seq<Rate>, at: int,
                                          positions: seq<Position>)
    requires Priced(desk, first, start, last, at, positions)
    ensures
      var moved := Total(positions, Closing(desk, last, at)) - Total(positions, Basis(desk, first, start));
      var exact := TotalReal(positions, ExactChange(desk, first, start, last, at));
      -(|positions| as real) <= moved as real - exact <= |positions| as real
  {
    if |positions| > 0 {
      hide ClosingRate, BasisRate, ValueAt, Closing, Basis, ExactChange;
      var front, p := positions[..|positions| - 1], positions[|positions| - 1];
      ChangesAreNear(desk, first, start, last, at, front);
      PositionIsNear(desk, first, start, last, at, p);
    }
  }

  lemma PositionIsNear(desk: Desk, first: seq<Rate>, start: int, last: seq<Rate>, at: int, p: Position)
    requires ClosingRate(desk, last, p.currency, at).Ok? && BasisRate(desk, first, p.currency, start, start).Ok?
    ensures -1.0 <= (Closing(desk, last, at)(p) - Basis(desk, first, start)(p)) as real
                    - ExactChange(desk, first, start, last, at)(p) <= 1.0
  {
    hide ClosingRate, BasisRate, ValueAt;
    OneChangeIsNear(p.balance, ClosingRate(desk, last, p.currency, at).value,
                    BasisRate(desk, first, p.currency, start, start).value);
  }

  /** A night that finds closing rates finds bases too. */
  lemma FreshMeansPriced(desk: Desk, book: Book, nights: seq<Night>, start: int, positions: seq<Position>)
    requires |nights| > 0 && RatesFresh(desk, book, nights, start, positions)
    ensures
      var n := |nights| - 1;
      Priced(desk, RatesAt(desk, book, nights, start, 0), start, RatesAt(desk, book, nights, start, n), TimeOf(start, n),
             positions)
  {
    hide RatesAt, CurrentRate, RateAtTime;
    FreshAt(desk, book, nights, start, 0, positions);
    FreshAt(desk, book, nights, start, |nights| - 1, positions);
  }

  /**
   Over any number of nights the suspense account moves, apart from the traffic
   on it, by the sum over the positions of balance times the change of the rate,
   to within a tick per position.
   */
  lemma SuspenseFollowsTheRates(desk: Desk, book: Book, nights: seq<Night>, start: int)
    requires DeskOk(desk) && |nights| > 0 && HomeTraffic(nights)
    requires ForeignIsOld(desk, book.entries, start) && NoBackdating(nights, start)
    requires RatesFresh(desk, book, nights, start, Positions(desk, book.entries, start))
    ensures
      var positions := Positions(desk, book.entries, start);
      var n := |nights| - 1;
      var moved := Balance(AfterNights(desk, book, nights, start).entries, desk.suspense)
                   - Balance(book.entries, desk.suspense) - Balance(Traffic(nights), desk.suspense);
      var exact := TotalReal(positions, ExactChange(desk, RatesAt(desk, book, nights, start, 0), start,
                                                    RatesAt(desk, book, nights, start, n), TimeOf(start, n)));
      -(|positions| as real) <= moved as real - exact <= |positions| as real
  {
    hide *;
    var positions := Positions(desk, book.entries, start);
    RevaluationTelescopes(desk, book, nights, start);
    FreshMeansPriced(desk, book, nights, start, positions);
    ChangesAreNear(desk, RatesAt(desk, book, nights, start, 0), start, RatesAt(desk, book, nights, start, |nights| - 1),
                   TimeOf(start, |nights| - 1), positions);
  }

  /** The only foreign balance of the asset accounts. */
  ghost predicate OnlyBalance(desk: Desk, entries: seq<Entry>, start: int, account: Id, currency: string, balance: int) {
    && account in desk.assets && currency != HOME && ForeignBalance(entries, account, currency, start) == balance != 0
    && forall a, c :: a in desk.assets && c != HOME && (a != account || c != currency) ==>
         ForeignBalance(entries, a, c, start) == 0
  }

  lemma OnlyPosition(desk: Desk, entries: seq<Entry>, start: int, account: Id, currency: string, balance: int)
    requires OnlyBalance(desk, entries, start, account, currency, balance)
    ensures Positions(desk, entries, start) == [Position(account, currency, balance)]
  {
    hide Positions, ForeignBalance;
    var positions := Positions(desk, entries, start);
    PositionsAreExact(desk, entries, start);
    var only := Position(account, currency, balance);
    assert only in positions;
    forall k | 0 <= k < |positions| ensures positions[k] == only {
      assert positions[k] in positions;
    }
    assert |positions| > 1 ==> !SameKey(positions[0], positions[1]);
  }

  /** With one foreign balance B: the suspense account moves by B times the change of its rate, to within a tick. */
  lemma OneBalanceFollowsItsRate(desk: Desk, book: Book, nights: seq<Night>, start: int,
                                 account: Id, currency: string, balance: int, firstRate: int, lastRate: int)
    requires DeskOk(desk) && |nights| > 0 && HomeTraffic(nights)
    requires ForeignIsOld(desk, book.entries, start) && NoBackdating(nights, start)
    requires OnlyBalance(desk, book.entries, start, account, currency, balance)
    requires RatesFresh(desk, book, nights, start, [Position(account, currency, balance)])
    requires BasisRate(desk, RatesAt(desk, book, nights, start, 0), currency, start, start) == Ok(firstRate)
    requires
      var n := |nights| - 1;
      ClosingRate(desk, RatesAt(desk, book, nights, start, n), currency, TimeOf(start, n)) == Ok(lastRate)
    ensures
      var moved := Balance(AfterNights(desk, book, nights, start).entries, desk.suspense)
                   - Balance(book.entries, desk.suspense) - Balance(Traffic(nights), desk.suspense);
      -1.0 <= moved as real - balance as real * (lastRate - firstRate) as real / 100_000_000.0 <= 1.0
  {
    hide Positions, BasisRate, ClosingRate, RatesAt, AfterNights, Traffic, Balance, HomeTraffic, ForeignIsOld,
      NoBackdating, RatesFresh, OnlyBalance, TimeOf;
    OnlyPosition(desk, book.entries, start, account, currency, balance);
    SuspenseFollowsTheRates(desk, book, nights, start);
    var p := Position(account, currency, balance);
    assert [p][..0] == [];
  }

  /** With home-currency traffic between the runs, none of them changes a balance in a foreign currency. */
  lemma ForeignBalancesUntouched(desk: Desk, book: Book, nights: seq<Night>, start: int, account: Id, currency: string)
    requires currency != HOME && HomeTraffic(nights)
    ensures BalanceIn(AfterNights(desk, book, nights, start).entries, account, currency)
         == BalanceIn(book.entries, account, currency)
  {
    var more := OnlyHomeRows(desk, book, nights, start);
    TotalConcat(book.entries, more, OnAccountIn(account, currency));
    TotalZero(more, OnAccountIn(account, currency));
  }
}
