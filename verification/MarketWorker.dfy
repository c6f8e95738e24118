/** The polling loop of `market_worker` over the replay provider: round after round of bar refreshes into one store. */
module MarketWorker {
  import opened Common
  import opened MarketContracts
  import opened MarketStore
  import opened ProviderStates
  import opened QuoteStream
  import opened BarRefresh
  import opened ReplayMarket

  const WATCHLIST := ["ACME", "SPY"]

  /**
   * One `ingest_once`: what the bar fetches do, when the two successful ones are made, and the provider
   * row as the quote refresh before them leaves it.
   */
  datatype Round = Round(bars: BarScript, times: seq<Time>, state: Option<ProviderState>)

  /** The bar rows after one round. */
  function RoundRows(table: BarTable, r: Round, attempts: nat): BarTable {
    Symbols(Refresh(Streaming, 0, 0, table, r.state), r.bars, |WATCHLIST|, attempts, true).rows
  }

  function WorkerRows(rounds: seq<Round>, attempts: nat): BarTable {
    if rounds == [] then [] else RoundRows(WorkerRows(rounds[..|rounds| - 1], attempts), rounds[|rounds| - 1], attempts)
  }

  /** Both symbols get their window within the attempts, whatever failed before. */
  ghost predicate Delivers(r: Round, attempts: nat) {
    && |r.times| == |WATCHLIST| && CleanBars(r.bars)
    && forall s :: 0 <= s < |WATCHLIST| ==> SymbolDelivers(r, s, attempts)
  }

  ghost predicate SymbolDelivers(r: Round, s: nat, attempts: nat)
    requires s < |WATCHLIST| == |r.times|
  {
    !AllFail(r.bars, s, attempts) && FirstGiven(r.bars, s, attempts) == Window(WATCHLIST[s], r.times[s], POLL_LIMIT)
  }

  function RoundFetch(r: Round, s: nat): Fetch
    requires s < |WATCHLIST| == |r.times|
  {
    Fetch(WATCHLIST[s], r.times[s])
  }

  /** The fetches of a round up to a symbol are polls. */
  lemma {:induction false} SymbolsArePolls(l: Refresh, r: Round, n: nat, attempts: nat)
    requires l.phase.Streaming? && attempts >= 1 && n <= |WATCHLIST| && Delivers(r, attempts)
    ensures var after := Symbols(l, r.bars, n, attempts, true);
            && after.phase.Streaming?
            && after.rows == (if n == 0 then l.rows
                              else Poll(Symbols(l, r.bars, n - 1, attempts, true).rows, RoundFetch(r, n - 1)))
  {
    if n > 0 {
      SymbolsArePolls(l, r, n - 1, attempts);
      assert SymbolDelivers(r, n - 1, attempts);
      AttemptsAreExact(Symbols(l, r.bars, n - 1, attempts, true), r.bars, n - 1, attempts, attempts, true);
    }
  }

  lemma {:induction false} RoundIsTwoPolls(table: BarTable, r: Round, attempts: nat)
    requires attempts >= 1 && Delivers(r, attempts)
    ensures RoundRows(table, r, attempts) == Poll(Poll(table, Fetch("ACME", r.times[0])), Fetch("SPY", r.times[1]))
  {
    var l := Refresh(Streaming, 0, 0, table, r.state);
    SymbolsArePolls(l, r, 1, attempts);
    SymbolsArePolls(l, r, 2, attempts);
  }

  /** All fetches of the rounds, in order. */
  function Fetches(rounds: seq<Round>): seq<Fetch>
    requires forall i :: 0 <= i < |rounds| ==> |rounds[i].times| == |WATCHLIST|
  {
    if rounds == [] then []
    else
      var last := rounds[|rounds| - 1];
      Fetches(rounds[..|rounds| - 1]) + [RoundFetch(last, 0), RoundFetch(last, 1)]
  }

  lemma {:induction false} TwoMorePolls(fetches: seq<Fetch>, a: Fetch, b: Fetch)
    ensures RunPolls(fetches + [a, b]) == Poll(Poll(RunPolls(fetches), a), b)
  {
    var more := fetches + [a, b];
    assert more[..|more| - 1] == fetches + [a] && (fetches + [a])[..|fetches|] == fetches;
  }

  lemma {:induction false} WorkerPolls(rounds: seq<Round>, attempts: nat)
    requires forall i :: 0 <= i < |rounds| ==> |rounds[i].times| == |WATCHLIST|
    requires attempts >= 1 && forall i :: 0 <= i < |rounds| ==> Delivers(rounds[i], attempts)
    ensures WorkerRows(rounds, attempts) == RunPolls(Fetches(rounds))
  {
    if rounds != [] {
      var init, last := rounds[..|rounds| - 1], rounds[|rounds| - 1];
      WorkerPolls(init, attempts);
      RoundIsTwoPolls(WorkerRows(init, attempts), last, attempts);
      TwoMorePolls(Fetches(init), RoundFetch(last, 0), RoundFetch(last, 1));
    }
  }

  /** The clock does not go back: not within a round, and not from one round to a later one. */
  ghost predicate ClockRuns(rounds: seq<Round>) {
    && (forall i :: 0 <= i < |rounds| ==> |rounds[i].times| == |WATCHLIST| && rounds[i].times[0] <= rounds[i].times[1])
    && (forall i, j :: 0 <= i < j < |rounds| ==> rounds[i].times[1] <= rounds[j].times[0])
  }

  lemma {:induction false} FetchesAreARun(rounds: seq<Round>)
    requires ClockRuns(rounds)
    ensures PollRun(Fetches(rounds))
    ensures forall i :: 0 <= i < |Fetches(rounds)| ==> Fetches(rounds)[i].now <= rounds[|rounds| - 1].times[1]
  {
    if rounds != [] {
      FetchesAreARun(rounds[..|rounds| - 1]);
    }
  }

  lemma {:induction false} LastPolls(fetches: seq<Fetch>, a: Fetch, b: Fetch)
    requires a.symbol != b.symbol
    ensures LastPoll(fetches + [a, b], a.symbol) == Some(a.now / MINUTE)
    ensures LastPoll(fetches + [a, b], b.symbol) == Some(b.now / MINUTE)
  {
    var more := fetches + [a, b];
    assert more[..|more| - 1] == fetches + [a];
  }

  /**
   * After any number of rounds, with any failed attempts in between, reading the store gives for each
   * symbol the bars that the provider gave in the last round.
   */
  lemma {:induction false} WorkerStoreEqualsProvider(rounds: seq<Round>, attempts: nat, s: nat, limit: int)
    requires rounds != [] && ClockRuns(rounds) && attempts >= 1 && s < |WATCHLIST| && 1 <= limit <= POLL_LIMIT
    requires forall i :: 0 <= i < |rounds| ==> Delivers(rounds[i], attempts)
    ensures var symbol, now := WATCHLIST[s], rounds[|rounds| - 1].times[s];
            var r := Bars(WorkerRows(rounds, attempts), BarQuery("replay-market", symbol, "1m", None, true), limit);
            var window := Window(symbol, now, limit);
            && |r| == |window| == limit
            && forall i :: 0 <= i < limit ==> SameButReceipt(r[i].bar, window[i])
  {
    var last := rounds[|rounds| - 1];
    WorkerPolls(rounds, attempts);
    FetchesAreARun(rounds);
    assert WATCHLIST[0][0] != WATCHLIST[1][0];
    LastPolls(Fetches(rounds[..|rounds| - 1]), RoundFetch(last, 0), RoundFetch(last, 1));
    StoreReadEqualsProviderRead(Fetches(rounds), WATCHLIST[s], last.times[s], limit);
  }
}
