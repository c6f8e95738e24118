/** `SqlMarketRepository` and `MarketDataService` as objects, tied to the specifications of the other modules. */
module MarketService {
  import opened Common
  import opened MarketContracts
  import opened MarketStore
  import opened ProviderStates
  import opened QuoteStream
  import opened QuoteStreamFacts
  import opened BarRefresh
  import opened MarketReads

  function QuoteOf(row: Option<QuoteRow>): Option<MarketQuote> {
    if row.Some? then Some(row.value.quote) else None
  }

  class SqlMarketRepository {
    var quotes: QuoteTable
    var barRows: BarTable
    var states: map<string, ProviderState>

    function State(provider: string): Option<ProviderState>
      reads this
    {
      if provider in states then Some(states[provider]) else None
    }

    /** The fingerprints are primary keys. */
    ghost predicate Valid()
      reads this
    {
      DistinctQuotes(quotes) && DistinctBars(barRows)
    }

    /** A repository over the tables as they are. */
    constructor (quotes: QuoteTable, barRows: BarTable, states: map<string, ProviderState>)
      requires DistinctQuotes(quotes) && DistinctBars(barRows)
      ensures Valid() && this.quotes == quotes && this.barRows == barRows && this.states == states
    {
      this.quotes, this.barRows, this.states := quotes, barRows, states;
    }

    method SaveQuote(quote: MarketQuote) returns (inserted: bool)
      requires Valid()
      modifies this
      ensures Valid()
      ensures quotes == AddQuote(old(quotes), QuoteRowOf(quote))
      ensures inserted == !HasQuote(old(quotes), QuoteHash(quote))
      ensures barRows == old(barRows) && states == old(states)
    {
      AddQuoteKeepsDistinct(quotes, QuoteRowOf(quote));
      var hash := QuoteHash(quote);
      if HasQuote(quotes, hash) {
        return false;
      }
      quotes := quotes + [QuoteRow(hash, quote)];
      return true;
    }

    /** Counts the rows it inserts. */
    method SaveBars(bars: seq<MarketBar>) returns (inserted: nat)
      requires Valid()
      modifies this
      ensures Valid()
      ensures barRows == AddBars(old(barRows), BarRowsOf(bars))
      ensures |barRows| == |old(barRows)| + inserted
      ensures quotes == old(quotes) && states == old(states)
    {
      AddBarsKeepsDistinct(barRows, BarRowsOf(bars));
      inserted := 0;
      for i := 0 to |bars|
        invariant barRows == AddBars(old(barRows), BarRowsOf(bars)[..i])
        invariant |barRows| == |old(barRows)| + inserted
        invariant quotes == old(quotes) && states == old(states)
      {
        assert BarRowsOf(bars)[..i + 1][..i] == BarRowsOf(bars)[..i];
        var row := BarRowOf(bars[i]);
        if HasBar(barRows, row.hash) {
          continue;
        }
        barRows := barRows + [row];
        inserted := inserted + 1;
      }
      assert BarRowsOf(bars)[..|bars|] == BarRowsOf(bars);
    }

    /** The quote of the one visible row that no other visible row comes after, or None if there is no visible row. */
    method LatestQuote(provider: string, symbol: string, asOf: Option<Time>) returns (quote: Option<MarketQuote>)
      requires Valid()
      ensures quote.None? <==> forall row :: row in quotes ==> !QuoteAsked(row, provider, Upper(symbol), asOf)
      ensures quote.Some? ==> exists row :: LatestAsked(row, quotes, provider, Upper(symbol), asOf) && row.quote == quote.value
      ensures exists row :: IsLatest(row, quotes, provider, Upper(symbol), asOf) && quote == QuoteOf(row)
    {
      LatestIsMaximum(quotes, provider, Upper(symbol), asOf);
      ReadGivesLatest(quotes, provider, Upper(symbol), asOf);
      var row := LatestRow(quotes, provider, Upper(symbol), asOf);
      quote := if row.Some? then Some(row.value.quote) else None;
    }

    /** The selection loop over the ordered rows of the query: the newest starts, each with its newest revision. */
    method Bars(provider: string, symbol: string, timeframe: string, limit: int, asOf: Option<Time>, finalOnly: bool)
      returns (selection: BarTable)
      requires Valid()
      ensures forall i :: 0 <= i < |selection| ==>
                NewestAsked(selection[i], barRows, provider, Upper(symbol), timeframe, asOf, finalOnly)
      ensures NewestBars(barRows, BarQuery(provider, Upper(symbol), timeframe, asOf, finalOnly), limit, selection)
      ensures selection == MarketStore.Bars(barRows, BarQuery(provider, Upper(symbol), timeframe, asOf, finalOnly), limit)
    {
      var rows := QueryBars(barRows, BarQuery(provider, Upper(symbol), timeframe, asOf, finalOnly));
      var selected: BarTable := [];
      var seenStarts: set<Time> := {};
      for n := 0 to |rows|
        invariant selected == Select(rows, limit, n) && seenStarts == Starts(selected)
        invariant !Full(selected, limit)
      {
        var row := rows[n];
        if row.bar.timestamp in seenStarts {
          continue;
        }
        seenStarts := seenStarts + {row.bar.timestamp};
        assert Starts(selected + [row]) == seenStarts;
        selected := selected + [row];
        if |selected| == limit {
          FullStays(rows, limit, n + 1, |rows|);
          break;
        }
      }
      selection := Reverse(selected);
      BarsAreNewest(barRows, BarQuery(provider, Upper(symbol), timeframe, asOf, finalOnly), limit);
      ReadGivesNewestBars(barRows, provider, Upper(symbol), timeframe, limit, asOf, finalOnly);
    }

    /**
     * Creates the provider's row or updates it field by field: healthy, no failures in a row, one reconnect
     * more if this is one, and the last message never goes back.
     */
    method RecordSuccess(provider: string, at: Time, lastMessage: Option<Time>, reconnected: bool)
      modifies this`states
      ensures states.Keys == old(states).Keys + {provider}
      ensures forall other :: other in old(states) && other != provider ==> states[other] == old(states)[other]
      ensures var row, before := states[provider], old(State(provider));
              && row.status == HEALTHY && row.consecutiveFailures == 0 && row.detail == None
              && row.reconnectCount == Reconnects(before) + (if reconnected then 1 else 0)
              && row.lastMessageReceivedAt == Later(LastMessage(before), lastMessage)
              && row.heartbeatAt == at && row.lastSuccessAt == Some(at)
              && row.lastFailureAt == (if before.Some? then before.value.lastFailureAt else None)
      ensures State(provider) == Some(ProviderStates.RecordSuccess(old(State(provider)), at, lastMessage, reconnected))
    {
      if provider !in states {
        states := states[provider := ProviderState(
          at, lastMessage, Some(at), None, 0, if reconnected then 1 else 0, HEALTHY, None)];
        return;
      }
      var state := states[provider];
      state := state.(heartbeatAt := at);
      var current := state.lastMessageReceivedAt;
      if lastMessage.Some? && (current.None? || lastMessage.value > current.value) {
        state := state.(lastMessageReceivedAt := lastMessage);
      }
      state := state.(lastSuccessAt := Some(at), consecutiveFailures := 0);
      if reconnected {
        state := state.(reconnectCount := state.reconnectCount + 1);
      }
      state := state.(status := HEALTHY, detail := None);
      states := states[provider := state];
    }

    /**
     * Creates the provider's row or updates it field by field: one failure in a row more, unavailable if
     * the attempts are exhausted, and the last message never goes back.
     */
    method RecordFailure(provider: string, at: Time, detail: string, exhausted: bool, lastMessage: Option<Time>)
      modifies this`states
      ensures states.Keys == old(states).Keys + {provider}
      ensures forall other :: other in old(states) && other != provider ==> states[other] == old(states)[other]
      ensures var row, before := states[provider], old(State(provider));
              && row.status == (if exhausted then UNAVAILABLE else DEGRADED)
              && row.consecutiveFailures == Failures(before) + 1 && row.detail == Some(detail)
              && row.reconnectCount == Reconnects(before)
              && row.lastMessageReceivedAt == Later(LastMessage(before), lastMessage)
              && row.heartbeatAt == at && row.lastFailureAt == Some(at)
              && row.lastSuccessAt == (if before.Some? then before.value.lastSuccessAt else None)
      ensures State(provider) == Some(ProviderStates.RecordFailure(old(State(provider)), at, detail, exhausted, lastMessage))
    {
      var status := if exhausted then UNAVAILABLE else DEGRADED;
      if provider !in states {
        states := states[provider := ProviderState(at, lastMessage, None, Some(at), 1, 0, status, Some(detail))];
        return;
      }
      var state := states[provider];
      state := state.(heartbeatAt := at);
      var current := state.lastMessageReceivedAt;
      if lastMessage.Some? && (current.None? || lastMessage.value > current.value) {
        state := state.(lastMessageReceivedAt := lastMessage);
      }
      state := state.(lastFailureAt := Some(at), consecutiveFailures := state.consecutiveFailures + 1);
      state := state.(status := status, detail := Some(detail));
      states := states[provider := state];
    }
  }

  /** The greatest visible row is unique, so it is the one the specification finds. */
  lemma {:induction false} LatestIsUnique(
      row: Option<QuoteRow>, table: QuoteTable, provider: string, symbol: string, asOf: Option<Time>)
    requires DistinctQuotes(table) && IsLatest(row, table, provider, symbol, asOf)
    ensures row == LatestRow(table, provider, symbol, asOf)
  {
    LatestIsMaximum(table, provider, symbol, asOf);
  }

  lemma {:induction false} FullStays(rows: BarTable, limit: int, n: nat, m: nat)
    requires n <= m <= |rows| && Full(Select(rows, limit, n), limit)
    ensures Select(rows, limit, m) == Select(rows, limit, n)
  {
    if n < m {
      FullStays(rows, limit, n, m - 1);
    }
  }

  datatype UsageError = ReadOnlyService | AttemptsNotPositive | UnsupportedTimeframe

  /** The local variables of `refresh_watchlist`. */
  datatype Locals = Locals(phase: Phase, count: nat, lastMessage: Option<Time>, failures: nat, pending: bool)

  class MarketDataService {
    const providerName: string
    const persistence: SqlMarketRepository?
    const providerReadsEnabled: bool
    var latest: Cache

    ghost predicate Valid()
      reads persistence
    {
      persistence != null ==> persistence.Valid()
    }

    constructor (providerName: string, persistence: SqlMarketRepository?, providerReadsEnabled: bool)
      ensures this.providerName == providerName && this.persistence == persistence
      ensures this.providerReadsEnabled == providerReadsEnabled && latest == map[]
    {
      this.providerName, this.persistence, this.providerReadsEnabled := providerName, persistence, providerReadsEnabled;
      latest := map[];
    }

    function Quotes(): QuoteTable
      reads persistence
    {
      if persistence == null then [] else persistence.quotes
    }

    function BarTableNow(): BarTable
      reads persistence
    {
      if persistence == null then [] else persistence.barRows
    }

    function StateNow(): Option<ProviderState>
      reads persistence
    {
      if persistence == null then None else persistence.State(providerName)
    }

    /** The quote is cached exactly if none is yet or it is above the cached one in market time, receipt or id. */
    method RememberQuote(quote: MarketQuote)
      modifies this
      ensures latest == if quote.symbol in old(latest) && NotAbove(quote, old(latest)[quote.symbol]) then old(latest)
                        else old(latest)[quote.symbol := quote]
      ensures forall symbol :: symbol in old(latest) ==> symbol in latest && NotAbove(old(latest)[symbol], latest[symbol])
      ensures latest == Remember(old(latest), quote)
    {
      if quote.symbol in latest {
        NotAboveIff(quote, latest[quote.symbol]);
      }
      if quote.symbol !in latest || RankAbove(quote, latest[quote.symbol]) {
        latest := latest[quote.symbol := quote];
      }
    }

    /** `latest` of a service that reads the store only; an unknown symbol is a KeyError. */
    method LatestFromStore(symbol: string, asOf: Option<Time>) returns (quote: Option<MarketQuote>)
      requires persistence != null && Valid()
      modifies this
      ensures quote == QuoteOf(LatestRow(persistence.quotes, providerName, Upper(Upper(symbol)), asOf))
      ensures latest == if quote.Some? then Remember(old(latest), quote.value) else old(latest)
    {
      quote := persistence.LatestQuote(providerName, Upper(symbol), asOf);
      ghost var row :| IsLatest(row, persistence.quotes, providerName, Upper(Upper(symbol)), asOf) && quote == QuoteOf(row);
      LatestIsUnique(row, persistence.quotes, providerName, Upper(Upper(symbol)), asOf);
      if quote.Some? {
        RememberQuote(quote.value);
      }
    }

    /** `latest` of a service that asks the provider: saved first, published after, or not at all. */
    method LatestFromProvider(quote: MarketQuote, at: Time, saved: bool, noted: bool, error: string) returns (ok: bool)
      requires Valid()
      modifies this, persistence
      ensures Valid()
      ensures ok == (persistence == null || saved)
      ensures StateNow() == if ok || !noted then old(StateNow())
                            else Some(ProviderStates.RecordFailure(
                              old(StateNow()), at, "persistence:" + error, true, Some(quote.receivedAt)))
      ensures ok ==> latest == Remember(old(latest), quote)
      ensures ok && persistence != null ==> Quotes() == AddQuote(old(Quotes()), QuoteRowOf(quote))
      ensures !ok ==> latest == old(latest) && Quotes() == old(Quotes())
      ensures persistence != null && old(Published(latest, Quotes())) ==> Published(latest, Quotes())
    {
      if persistence != null {
        if !saved {
          if noted {
            persistence.RecordFailure(providerName, at, "persistence:" + error, true, Some(quote.receivedAt));
          }
          return false;
        }
        if Published(latest, Quotes()) {
          SaveThenRemember(latest, Quotes(), quote);
        }
        var _ := persistence.SaveQuote(quote);
      }
      RememberQuote(quote);
      return true;
    }

    /** What the local variables and the objects amount to in the specification's terms. */
    ghost predicate Shows(l: Loop, v: Locals)
      reads this, persistence
    {
      && l.phase == v.phase && l.count == v.count && l.lastMessage == v.lastMessage
      && l.failures == v.failures && l.pending == v.pending
      && l.cache == latest && l.rows == Quotes() && l.state == StateNow()
    }

    /** Saves a quote and its success, then publishes it; or fails before publishing. */
    method HandleQuote(h: Happening, v: Locals, ghost l: Loop) returns (w: Locals)
      requires Valid() && h.Arrives? && v.phase.Streaming? && Shows(l, v)
      modifies this, persistence
      ensures Valid()
      ensures Shows(Arrive(l, h, persistence != null), w)
    {
      if persistence != null {
        if !h.saved {
          if h.noted {
            persistence.RecordFailure(providerName, h.at, "persistence:" + h.error, true, Some(h.quote.receivedAt));
          }
          return v.(phase := PersistenceRaised);
        }
        var _ := persistence.SaveQuote(h.quote);
      }
      var lastMessage := Later(v.lastMessage, Some(h.quote.receivedAt));
      if persistence != null {
        if !h.recorded {
          if h.noted {
            persistence.RecordFailure(providerName, h.at, "persistence:" + h.error, true, lastMessage);
          }
          return v.(phase := PersistenceRaised, lastMessage := lastMessage);
        }
        persistence.RecordSuccess(providerName, h.at, lastMessage, v.pending);
      }
      RememberQuote(h.quote);
      return Locals(Streaming, v.count + 1, lastMessage, 0, false);
    }

    /** Records a failure, and raises if the budget is used up. */
    method HandleFailure(h: Happening, attempts: nat, v: Locals, ghost l: Loop) returns (w: Locals)
      requires Valid() && h.Breaks? && v.phase.Streaming? && Shows(l, v)
      modifies persistence
      ensures Valid()
      ensures Shows(Break(l, h, attempts, persistence != null), w)
    {
      var failures := v.failures + 1;
      var exhausted := failures >= attempts;
      if persistence != null {
        if !h.recorded {
          return v.(phase := PersistenceRaised, failures := failures);
        }
        persistence.RecordFailure(providerName, h.at, h.detail, exhausted, v.lastMessage);
      }
      return if exhausted then v.(phase := ProviderRaised, failures := failures)
             else v.(failures := failures, pending := true);
    }

    /** One happening, whatever it is. */
    method Handle(h: Happening, attempts: nat, v: Locals, ghost l: Loop) returns (w: Locals)
      requires Valid() && v.phase.Streaming? && Shows(l, v)
      modifies this, persistence
      ensures Valid()
      ensures Shows(QuoteStream.Next(l, h, attempts, persistence != null), w)
    {
      match h
      case Ends => return v.(phase := Returned(v.count));
      case Aborts => return v.(phase := Aborted);
      case Arrives(_, _, _, _, _, _) => w := HandleQuote(h, v, l);
      case Breaks(_, _, _, _) => w := HandleFailure(h, attempts, v, l);
    }

    /**
     * The reconnect loop: the outer loop opens connections, the inner one reads one of them up to and
     * with its failure. The result is Streaming if the script stops before the loop does.
     */
    method RefreshWatchlist(script: seq<Happening>, attempts: int) returns (r: Result<Phase, UsageError>)
      requires Valid()
      modifies this, persistence
      ensures Valid()
      ensures !providerReadsEnabled ==> r == Err(ReadOnlyService)
      ensures providerReadsEnabled && attempts < 1 ==> r == Err(AttemptsNotPositive)
      ensures r.Err? ==> latest == old(latest) && Quotes() == old(Quotes()) && StateNow() == old(StateNow())
      ensures providerReadsEnabled && attempts >= 1 ==>
                var end := Run(Start(old(latest), old(Quotes()), old(StateNow())), script, attempts, persistence != null);
                r == Ok(end.phase) && latest == end.cache && Quotes() == end.rows && StateNow() == end.state
    {
      if !providerReadsEnabled {
        return Err(ReadOnlyService);
      }
      if attempts < 1 {
        return Err(AttemptsNotPositive);
      }
      ghost var start := Start(latest, Quotes(), StateNow());
      ghost var l := start;
      var v := Locals(Streaming, 0, None, 0, false);
      var i := 0;
      while i < |script| && v.phase.Streaming?
        invariant 0 <= i <= |script| && Valid()
        invariant l == Run(start, script[..i], attempts, persistence != null) && Shows(l, v)
        decreases |script| - i
      {
        ghost var first := i;
        var connected := true;
        while i < |script| && v.phase.Streaming? && connected
          invariant Valid() && first <= i <= |script| && (i == first ==> connected && v.phase.Streaming?)
          invariant l == Run(start, script[..i], attempts, persistence != null) && Shows(l, v)
          decreases |script| - i
        {
          RunOneMore(start, script, i, attempts, persistence != null);
          v := Handle(script[i], attempts, v, l);
          l := QuoteStream.Next(l, script[i], attempts, persistence != null);
          connected := !script[i].Breaks?;
          i := i + 1;
        }
      }
      LeftStays(start, script, i, attempts, persistence != null);
      return Ok(v.phase);
    }

    /** One attempt for one symbol: fetch, save, record. */
    method AttemptBars(f: Fetched, attempt: nat, attempts: nat, count: nat, ghost l: Refresh)
      returns (phase: Phase, newCount: nat)
      requires Valid() && l.phase.Streaming? && l.count == count && l.rows == BarTableNow() && l.state == StateNow()
      modifies persistence
      ensures Valid()
      ensures var r := Attempt(l, f, attempt, attempts, persistence != null);
              phase == r.phase && newCount == r.count && r.rows == BarTableNow() && r.state == StateNow()
    {
      newCount := count;
      match f
      case Aborts =>
        return Aborted, count;
      case Fails(at, detail, recorded, _) =>
        var exhausted := attempt == attempts - 1;
        if persistence != null {
          if !recorded {
            return DatabaseRaised, count;
          }
          persistence.RecordFailure(providerName, at, detail, exhausted, None);
        }
        return if exhausted then ProviderRaised else Streaming, count;
      case Gives(bars, at, saved, recorded, noted, error) =>
        if persistence != null {
          if !saved {
            if noted {
              persistence.RecordFailure(providerName, at, "persistence:" + error, true, LastReceived(bars));
            }
            return PersistenceRaised, count;
          }
          var _ := persistence.SaveBars(bars);
          if !recorded {
            if noted {
              persistence.RecordFailure(providerName, at, "persistence:" + error, true, None);
            }
            return PersistenceRaised, count;
          }
          persistence.RecordSuccess(providerName, at, None, attempt > 0);
        }
        return Streaming, count + |bars|;
    }

    /** The bar refresh over a number of symbols; Streaming stands for a normal return of the count. */
    method RefreshBars(symbols: nat, bars: BarScript, timeframe: string, attempts: int)
      returns (r: Result<(Phase, nat), UsageError>)
      requires Valid()
      modifies persistence
      ensures Valid()
      ensures !providerReadsEnabled ==> r == Err(ReadOnlyService)
      ensures providerReadsEnabled && timeframe !in {"1m", "5m", "15m", "1h", "1d"} ==> r == Err(UnsupportedTimeframe)
      ensures providerReadsEnabled && timeframe in {"1m", "5m", "15m", "1h", "1d"} && attempts < 1 ==> r == Err(AttemptsNotPositive)
      ensures r.Err? ==> BarTableNow() == old(BarTableNow()) && StateNow() == old(StateNow())
      ensures providerReadsEnabled && timeframe in {"1m", "5m", "15m", "1h", "1d"} && attempts >= 1 ==>
                var end := Symbols(
                  Refresh(Streaming, 0, 0, old(BarTableNow()), old(StateNow())), bars, symbols, attempts, persistence != null);
                r == Ok((end.phase, end.count)) && BarTableNow() == end.rows && StateNow() == end.state
    {
      if !providerReadsEnabled {
        return Err(ReadOnlyService);
      }
      if !KnownTimeframe(timeframe) {
        return Err(UnsupportedTimeframe);
      }
      if attempts < 1 {
        return Err(AttemptsNotPositive);
      }
      ghost var durable := persistence != null;
      ghost var start := Refresh(Streaming, 0, 0, BarTableNow(), StateNow());
      ghost var l := start;
      var phase, count := Streaming, 0;
      for s := 0 to symbols
        invariant Valid() && l == Symbols(start, bars, s, attempts, durable)
        invariant l.phase == phase && l.count == count && l.rows == BarTableNow() && l.state == StateNow()
      {
        ghost var first := l;
        var given := false;
        var attempt := 0;
        while attempt < attempts && !given && phase.Streaming?
          invariant 0 <= attempt <= attempts && Valid()
          invariant first.phase.Streaming? ==> (l, given) == Attempts(first, bars, s, attempts, attempt, durable)
          invariant !first.phase.Streaming? ==> l == first
          invariant l.phase == phase && l.count == count && l.rows == BarTableNow() && l.state == StateNow()
        {
          var f := bars(s, attempt);
          phase, count := AttemptBars(f, attempt, attempts, count, l);
          given := f.Gives?;
          l := Attempt(l, f, attempt, attempts, durable);
          attempt := attempt + 1;
        }
        if first.phase.Streaming? {
          AttemptsStay(first, bars, s, attempts, attempt, attempts, durable);
        }
      }
      return Ok((phase, count));
    }
  }

  lemma {:induction false} RunOneMore(l: Loop, script: seq<Happening>, i: nat, attempts: nat, durable: bool)
    requires i < |script|
    ensures Run(l, script[..i + 1], attempts, durable)
            == QuoteStream.Next(Run(l, script[..i], attempts, durable), script[i], attempts, durable)
  {
    assert script[..i + 1][..i] == script[..i];
  }

  lemma {:induction false} LeftStays(l: Loop, script: seq<Happening>, n: nat, attempts: nat, durable: bool)
    requires n <= |script| && (n < |script| ==> !Run(l, script[..n], attempts, durable).phase.Streaming?)
    ensures Run(l, script, attempts, durable) == Run(l, script[..n], attempts, durable)
  {
    if n < |script| {
      assert script[..|script| - 1][..n] == script[..n];
      LeftStays(l, script[..|script| - 1], n, attempts, durable);
    } else {
      assert script[..n] == script;
    }
  }

  lemma {:induction false} AttemptsStay(
      l: Refresh, bars: BarScript, symbol: nat, attempts: nat, n: nat, m: nat, durable: bool)
    requires n <= m
    requires var (r, given) := Attempts(l, bars, symbol, attempts, n, durable); n < m ==> given || !r.phase.Streaming?
    ensures Attempts(l, bars, symbol, attempts, m, durable) == Attempts(l, bars, symbol, attempts, n, durable)
  {
    if n < m {
      AttemptsStay(l, bars, symbol, attempts, n, m - 1, durable);
    }
  }
}
