/** The retry loop of `refresh_bars`: a budget of attempts for each symbol. */
module BarRefresh {
  import opened Common
  import opened MarketContracts
  import opened MarketStore
  import opened ProviderStates
  import opened QuoteStream
  import opened QuoteStreamFacts

  /** What one call of the provider's `bars` does, and what the database does then. */
  datatype Fetched =
    | Gives(bars: seq<MarketBar>, at: Time, saved: bool, recorded: bool, noted: bool, error: string)
    | Fails(at: Time, detail: string, recorded: bool, jitter: nat)
    | Aborts

  /** `bars(symbol, attempt)`: the outcome of each attempt for each symbol, by position. */
  type BarScript = (nat, nat) -> Fetched

  datatype Refresh = Refresh(phase: Phase, count: nat, sleptMs: nat, rows: BarTable, state: Option<ProviderState>)

  function LastReceived(bars: seq<MarketBar>): Option<Time> {
    if bars == [] then None else Later(LastReceived(bars[..|bars| - 1]), Some(bars[|bars| - 1].receivedAt))
  }

  function RefreshFails(l: Refresh, at: Time, noted: bool, error: string, last: Option<Time>): Refresh {
    l.(phase := PersistenceRaised,
       state := if noted then Some(RecordFailure(l.state, at, "persistence:" + error, true, last)) else l.state)
  }

  /** One attempt for one symbol. */
  function Attempt(l: Refresh, f: Fetched, attempt: nat, attempts: nat, durable: bool): Refresh {
    match f
    case Aborts => l.(phase := Aborted)
    case Fails(at, detail, recorded, jitter) =>
      var exhausted := attempt + 1 == attempts;
      if durable && !recorded then l.(phase := DatabaseRaised)
      else
        var noted := if durable then l.(state := Some(RecordFailure(l.state, at, detail, exhausted, None))) else l;
        if exhausted then noted.(phase := ProviderRaised)
        else noted.(sleptMs := l.sleptMs + Backoff(attempt, jitter))
    case Gives(bars, at, saved, recorded, noted, error) =>
      if !durable then l.(count := l.count + |bars|)
      else if !saved then RefreshFails(l, at, noted, error, LastReceived(bars))
      else
        var stored := l.(rows := AddBars(l.rows, BarRowsOf(bars)));
        if !recorded then RefreshFails(stored, at, noted, error, None)
        else stored.(state := Some(RecordSuccess(l.state, at, None, attempt > 0)), count := l.count + |bars|)
  }

  /** The attempts for one symbol, up to the first that gives bars or raises. */
  function Attempts(l: Refresh, bars: BarScript, symbol: nat, attempts: nat, n: nat, durable: bool): (Refresh, bool) {
    if n == 0 then (l, false)
    else
      var (before, given) := Attempts(l, bars, symbol, attempts, n - 1, durable);
      if given || !before.phase.Streaming? then (before, given)
      else (Attempt(before, bars(symbol, n - 1), n - 1, attempts, durable), bars(symbol, n - 1).Gives?)
  }

  function Symbols(l: Refresh, bars: BarScript, n: nat, attempts: nat, durable: bool): Refresh {
    if n == 0 then l
    else
      var before := Symbols(l, bars, n - 1, attempts, durable);
      if before.phase.Streaming? then Attempts(before, bars, n - 1, attempts, attempts, durable).0 else before
  }

  // ---- what the loops amount to ----

  ghost predicate CleanBars(bars: BarScript) {
    forall s: nat, a: nat :: match bars(s, a)
                             case Gives(_, _, saved, recorded, _, _) => saved && recorded
                             case Fails(_, _, recorded, _) => recorded
                             case Aborts => false
  }

  /** The first `n` attempts for the symbol all fail. */
  ghost predicate AllFail(bars: BarScript, symbol: nat, n: nat) {
    forall a: nat :: a < n ==> bars(symbol, a).Fails?
  }

  /** The bars of the first attempt that gives any. */
  ghost function FirstGiven(bars: BarScript, symbol: nat, n: nat): seq<MarketBar> {
    if n == 0 then []
    else if AllFail(bars, symbol, n - 1) && bars(symbol, n - 1).Gives? then bars(symbol, n - 1).bars
    else FirstGiven(bars, symbol, n - 1)
  }

  lemma {:induction false} AttemptsAreExact(l: Refresh, bars: BarScript, symbol: nat, attempts: nat, n: nat, durable: bool)
    requires l.phase.Streaming? && CleanBars(bars) && n <= attempts
    ensures var (r, given) := Attempts(l, bars, symbol, attempts, n, durable);
            && (given <==> !AllFail(bars, symbol, n))
            && (r.phase.ProviderRaised? <==> n == attempts && n > 0 && AllFail(bars, symbol, n))
            && (r.phase.ProviderRaised? || r.phase.Streaming?)
            && r.count == l.count + |FirstGiven(bars, symbol, n)|
            && (durable ==> r.rows == AddBars(l.rows, BarRowsOf(FirstGiven(bars, symbol, n))))
            && (durable && given ==>
                 && r.state.Some? && r.state.value.status == HEALTHY && r.state.value.consecutiveFailures == 0
                 && r.state.value.reconnectCount == Reconnects(l.state) + if bars(symbol, 0).Fails? then 1 else 0)
            && (durable && !given && n > 0 ==>
                 && r.state.Some? && r.state.value.consecutiveFailures == Failures(l.state) + n
                 && r.state.value.reconnectCount == Reconnects(l.state))
  {
    if n > 0 {
      AttemptsAreExact(l, bars, symbol, attempts, n - 1, durable);
      assert AllFail(bars, symbol, n) <==> AllFail(bars, symbol, n - 1) && bars(symbol, n - 1).Fails?;
      if AllFail(bars, symbol, n - 1) {
        NoneGiven(bars, symbol, n - 1);
      }
      assert bars(symbol, n - 1).Gives? || bars(symbol, n - 1).Fails?;
    }
  }

  lemma {:induction false} NoneGiven(bars: BarScript, symbol: nat, n: nat)
    requires AllFail(bars, symbol, n)
    ensures FirstGiven(bars, symbol, n) == []
  {
    if n > 0 {
      NoneGiven(bars, symbol, n - 1);
    }
  }

  /** The last of a sequence of bars to be received, whatever their order. */
  lemma {:induction false} LastReceivedIsLatest(bars: seq<MarketBar>)
    ensures LastReceived(bars).None? <==> bars == []
    ensures bars != [] ==> exists b :: b in bars && LastReceived(bars) == Some(b.receivedAt)
    ensures forall b :: b in bars ==> LastReceived(bars).Some? && b.receivedAt <= LastReceived(bars).value
  {
    if bars != [] {
      var init, last := bars[..|bars| - 1], bars[|bars| - 1];
      LastReceivedIsLatest(init);
      assert bars == init + [last];
      assert last in bars && forall b :: b in init ==> b in bars;
    }
  }

  /** What the first `n` failures of a symbol wait. */
  ghost function FailedWaits(bars: BarScript, symbol: nat, n: nat): nat {
    if n == 0 then 0
    else
      FailedWaits(bars, symbol, n - 1)
      + if bars(symbol, n - 1).Fails? then WaitAfter(n, bars(symbol, n - 1).jitter) else 0
  }

  ghost predicate SmallBarJitter(bars: BarScript, symbol: nat) {
    forall a: nat :: bars(symbol, a).Fails? ==> bars(symbol, a).jitter < 51
  }

  /** The row of the provider after failed attempts: the last failure, unavailable if it was the last attempt. */
  ghost predicate NotesAttempt(before: Option<ProviderState>, after: Option<ProviderState>, last: Fetched, exhausted: bool) {
    && last.Fails? && after.Some?
    && after.value.heartbeatAt == last.at && after.value.lastFailureAt == Some(last.at) && after.value.detail == Some(last.detail)
    && after.value.status == (if exhausted then UNAVAILABLE else DEGRADED)
    && after.value.lastSuccessAt == (if before.Some? then before.value.lastSuccessAt else None)
    && after.value.lastMessageReceivedAt == LastMessage(before)
  }

  /** While all attempts fail: each waits but the last, each is noted, and bars never move the time of the last message. */
  lemma {:induction false} FailuresAreExact(l: Refresh, bars: BarScript, symbol: nat, attempts: nat, n: nat)
    requires l.phase.Streaming? && CleanBars(bars) && SmallBarJitter(bars, symbol) && 0 < n <= attempts && AllFail(bars, symbol, n)
    ensures var (r, given) := Attempts(l, bars, symbol, attempts, n, true);
            && !given && r.rows == l.rows && r.count == l.count
            && r.sleptMs == l.sleptMs + FailedWaits(bars, symbol, if n == attempts then n - 1 else n)
            && NotesAttempt(l.state, r.state, bars(symbol, n - 1), n == attempts)
            && r.phase == (if n == attempts then ProviderRaised else Streaming)
  {
    BackoffTable(n - 1, bars(symbol, n - 1).jitter);
    if n > 1 {
      FailuresAreExact(l, bars, symbol, attempts, n - 1);
    } else {
      assert Attempts(l, bars, symbol, attempts, 0, true) == (l, false);
    }
  }

  /** The attempt after `k` failures gives bars: they are saved, and the success is noted without a message time. */
  lemma {:induction false} SuccessIsExact(l: Refresh, bars: BarScript, symbol: nat, attempts: nat, k: nat)
    requires l.phase.Streaming? && CleanBars(bars) && SmallBarJitter(bars, symbol) && k < attempts
    requires AllFail(bars, symbol, k) && bars(symbol, k).Gives?
    ensures var (r, given) := Attempts(l, bars, symbol, attempts, k + 1, true);
            && given && r.phase.Streaming? && r.sleptMs == l.sleptMs + FailedWaits(bars, symbol, k)
            && r.rows == AddBars(l.rows, BarRowsOf(bars(symbol, k).bars)) && r.count == l.count + |bars(symbol, k).bars|
            && r.state.Some? && r.state.value.heartbeatAt == bars(symbol, k).at
            && r.state.value.lastSuccessAt == Some(bars(symbol, k).at) && r.state.value.detail == None
            && r.state.value.lastMessageReceivedAt == LastMessage(l.state)
            && r.state.value.reconnectCount == Reconnects(l.state) + (if k > 0 then 1 else 0)
  {
    AttemptsAreExact(l, bars, symbol, attempts, k, true);
    if k > 0 {
      FailuresAreExact(l, bars, symbol, attempts, k);
    } else {
      assert Attempts(l, bars, symbol, attempts, 0, true) == (l, false);
    }
  }

  /**
   * Bars that cannot be saved leave the rows as they are; bars whose success cannot be recorded are stored. Either
   * way the refresh raises and notes it if it can; a failure that cannot be recorded raises the database's error.
   */
  lemma {:induction false} FailedBars(l: Refresh, f: Fetched, attempt: nat, attempts: nat)
    requires l.phase.Streaming? && attempt < attempts
    ensures var r := Attempt(l, f, attempt, attempts, true);
            && (f.Gives? && !(f.saved && f.recorded) ==>
                 && r.phase == PersistenceRaised && r.count == l.count
                 && r.rows == (if f.saved then AddBars(l.rows, BarRowsOf(f.bars)) else l.rows)
                 && (if f.noted then NotesFailure(l.state, r.state, f.at, f.error, if f.saved then None else LastReceived(f.bars))
                     else r.state == l.state))
            && (f.Fails? && !f.recorded ==> r == l.(phase := DatabaseRaised))
            && (f.Aborts? ==> r == l.(phase := Aborted))
  {
  }

  /** Without a database the bars are counted and nothing is stored or noted. */
  lemma {:induction false} InMemoryAttempt(l: Refresh, f: Fetched, attempt: nat, attempts: nat)
    ensures var r := Attempt(l, f, attempt, attempts, false);
            r.rows == l.rows && r.state == l.state && r.count == l.count + if f.Gives? then |f.bars| else 0
  {
  }

  ghost function TotalGiven(bars: BarScript, n: nat, attempts: nat): nat {
    if n == 0 then 0 else TotalGiven(bars, n - 1, attempts) + |FirstGiven(bars, n - 1, attempts)|
  }

  /**
   * Without database errors `refresh_bars` raises if and only if all attempts for some symbol fail;
   * the budget starts afresh with each symbol. Otherwise it has counted the bars each symbol gave.
   */
  lemma {:induction false} RefreshBarsIsExact(l: Refresh, bars: BarScript, n: nat, attempts: nat, durable: bool)
    requires l.phase.Streaming? && l.count == 0 && CleanBars(bars) && attempts >= 1
    ensures var r := Symbols(l, bars, n, attempts, durable);
            && (r.phase.ProviderRaised? <==> exists s: nat :: s < n && AllFail(bars, s, attempts))
            && (r.phase.ProviderRaised? || r.phase.Streaming?)
            && (r.phase.Streaming? ==> r.count == TotalGiven(bars, n, attempts))
  {
    if n > 0 {
      RefreshBarsIsExact(l, bars, n - 1, attempts, durable);
      var before := Symbols(l, bars, n - 1, attempts, durable);
      if before.phase.Streaming? {
        AttemptsAreExact(before, bars, n - 1, attempts, attempts, durable);
      }
    }
  }
}
