/**
 * A market service over its whole life: refreshes of the watchlist and provider reads, one after the
 * other, on one cache and one store.
 */
module QuoteCalls {
  import opened Common
  import opened MarketContracts
  import opened MarketStore
  import opened ProviderStates
  import opened QuoteStream
  import opened QuoteStreamFacts
  import opened QuoteTies
  import opened MarketReads

  /** `refresh_watchlist` with what happens to it, or `latest` with the quote of the provider. */
  datatype ServiceCall =
    | Refresh(script: seq<Happening>, attempts: nat)
    | Latest(quote: MarketQuote, at: Time, saved: bool, noted: bool, error: string)

  datatype Service = Service(cache: Cache, rows: QuoteTable, state: Option<ProviderState>)

  function Begin(s: Service): Loop {
    Start(s.cache, s.rows, s.state)
  }

  function AfterCall(s: Service, c: ServiceCall): Service {
    match c
    case Refresh(script, attempts) =>
      var r := Run(Begin(s), script, attempts, true);
      Service(r.cache, r.rows, r.state)
    case Latest(quote, at, saved, noted, error) =>
      if saved then Service(Remember(s.cache, quote), AddQuote(s.rows, QuoteRowOf(quote)), s.state)
      else s.(state := if noted then Some(RecordFailure(s.state, at, "persistence:" + error, true, Some(quote.receivedAt))) else s.state)
  }

  /** The service after the calls, from an empty cache and an empty quote table. */
  function AfterCalls(before: Option<ProviderState>, calls: seq<ServiceCall>): Service {
    if calls == [] then Service(map[], [], before)
    else AfterCall(AfterCalls(before, calls[..|calls| - 1]), calls[|calls| - 1])
  }

  /** The quotes that the calls have taken in. */
  ghost function TakenBy(s: Service, c: ServiceCall): seq<MarketQuote> {
    match c
    case Refresh(script, attempts) => Taken(Begin(s), script, attempts)
    case Latest(quote, _, saved, _, _) => if saved then [quote] else []
  }

  ghost function TakenByAll(before: Option<ProviderState>, calls: seq<ServiceCall>): seq<MarketQuote> {
    if calls == [] then []
    else
      var n := |calls| - 1;
      TakenByAll(before, calls[..n]) + TakenBy(AfterCalls(before, calls[..n]), calls[n])
  }

  /** Without database errors. */
  ghost predicate CleanCall(c: ServiceCall) {
    match c
    case Refresh(script, _) => Clean(script)
    case Latest(_, _, saved, _, _) => saved
  }

  ghost predicate CallFrom(c: ServiceCall, provider: string) {
    match c
    case Refresh(script, _) => FromProvider(script, provider)
    case Latest(quote, _, _, _, _) => quote.provider == provider && ValidSymbol(quote.symbol)
  }

  ghost predicate CleanCalls(calls: seq<ServiceCall>) {
    forall i :: 0 <= i < |calls| ==> CleanCall(calls[i])
  }

  ghost predicate CallsFrom(calls: seq<ServiceCall>, provider: string) {
    forall i :: 0 <= i < |calls| ==> CallFrom(calls[i], provider)
  }

  // ---- persist before publish ----

  /** After any calls, database errors included, the cache is not ahead of the store. */
  lemma {:induction false} CallsPersistBeforePublish(before: Option<ProviderState>, calls: seq<ServiceCall>)
    ensures var s := AfterCalls(before, calls); Published(s.cache, s.rows)
  {
    if calls != [] {
      var n := |calls| - 1;
      CallsPersistBeforePublish(before, calls[..n]);
      var s := AfterCalls(before, calls[..n]);
      match calls[n] {
        case Refresh(script, attempts) => PersistBeforePublish(Begin(s), script, attempts);
        case Latest(quote, _, _, _, _) => SaveThenRemember(s.cache, s.rows, quote);
      }
    }
  }

  /** A quote of the provider that cannot be saved is not published; it leaves its trace in the provider row if that can be noted. */
  lemma {:induction false} FailedLatest(s: Service, c: ServiceCall)
    requires c.Latest? && !c.saved
    ensures var after := AfterCall(s, c);
            && after.cache == s.cache && after.rows == s.rows
            && if c.noted then NotesFailure(s.state, after.state, c.at, c.error, Some(c.quote.receivedAt)) else after.state == s.state
  {
  }

  // ---- the cache is as fresh as the store ----

  lemma {:induction false} CallsAgree(before: Option<ProviderState>, calls: seq<ServiceCall>, provider: string)
    requires CleanCalls(calls) && CallsFrom(calls, provider)
    ensures var s := AfterCalls(before, calls); Agree(s.cache, s.rows, provider)
  {
    if calls != [] {
      var n := |calls| - 1;
      CallsAgree(before, calls[..n], provider);
      assert CleanCall(calls[n]) && CallFrom(calls[n], provider);
      CallAgrees(AfterCalls(before, calls[..n]), calls[n], provider);
    }
  }

  lemma {:induction false} CallAgrees(s: Service, c: ServiceCall, provider: string)
    requires Agree(s.cache, s.rows, provider) && CleanCall(c) && CallFrom(c, provider)
    ensures Agree(AfterCall(s, c).cache, AfterCall(s, c).rows, provider)
  {
    match c {
      case Refresh(script, attempts) => RunAgrees(Begin(s), script, attempts, provider);
      case Latest(quote, _, _, _, _) => AgreeStep(s.cache, s.rows, quote, provider);
    }
  }

  /**
   * Freshness agreement: after any calls without database errors the cache has a quote for a symbol exactly
   * when the store has, with the same effective time and so the same freshness.
   */
  lemma {:induction false} CacheIsAsFreshAsStore(
      before: Option<ProviderState>, calls: seq<ServiceCall>, provider: string, symbol: string, reference: Time)
    requires CleanCalls(calls) && CallsFrom(calls, provider)
    ensures var s := AfterCalls(before, calls);
            var latest := LatestRow(s.rows, provider, symbol, None);
            && (symbol in s.cache <==> latest.Some?)
            && (latest.Some? ==>
                 && NoLater(s.cache[symbol], latest.value.quote) && NoLater(latest.value.quote, s.cache[symbol])
                 && EffectiveTime(s.cache[symbol]) == EffectiveTime(latest.value.quote)
                 && FreshnessMs(EffectiveTime(s.cache[symbol]), reference)
                    == FreshnessMs(EffectiveTime(latest.value.quote), reference))
  {
    CallsAgree(before, calls, provider);
    var s := AfterCalls(before, calls);
    LatestTime(s.cache, s.rows, provider, symbol);
    if symbol in s.cache {
      var latest := LatestRow(s.rows, provider, symbol, None).value.quote;
      TimesCompare(s.cache[symbol], latest);
      TimesCompare(latest, s.cache[symbol]);
    }
  }

  // ---- which quote is cached, and when the store agrees ----

  lemma {:induction false} CallTakes(s: Service, c: ServiceCall, held: seq<MarketQuote>)
    requires CleanCall(c) && HoldsQuotes(Begin(s), held)
    ensures HoldsQuotes(Begin(AfterCall(s, c)), held + TakenBy(s, c))
  {
    match c {
      case Refresh(script, attempts) => RunTakes(Begin(s), script, attempts, held);
      case Latest(quote, _, _, _, _) => OneMoreQuote(held, quote);
    }
  }

  lemma {:induction false} CallsTake(before: Option<ProviderState>, calls: seq<ServiceCall>)
    requires CleanCalls(calls)
    ensures HoldsQuotes(Begin(AfterCalls(before, calls)), TakenByAll(before, calls))
  {
    if calls != [] {
      var n := |calls| - 1;
      CallsTake(before, calls[..n]);
      assert CleanCall(calls[n]);
      CallTakes(AfterCalls(before, calls[..n]), calls[n], TakenByAll(before, calls[..n]));
    }
  }

  lemma {:induction false} CallsTakeFromProvider(before: Option<ProviderState>, calls: seq<ServiceCall>, provider: string)
    requires CallsFrom(calls, provider)
    ensures OfProvider(TakenByAll(before, calls), provider)
  {
    if calls != [] {
      var n := |calls| - 1;
      CallsTakeFromProvider(before, calls[..n], provider);
      assert CallFrom(calls[n], provider);
      if calls[n].Refresh? {
        TakenFromProvider(Begin(AfterCalls(before, calls[..n])), calls[n].script, calls[n].attempts, provider);
      }
    }
  }

  /**
   * After any calls without database errors the cached quote is one taken in, and no other quote taken in is
   * above it: in market time, then in receipt, then by id.
   */
  lemma {:induction false} CachedQuoteOutranksAll(before: Option<ProviderState>, calls: seq<ServiceCall>, symbol: string)
    requires CleanCalls(calls)
    ensures var cache, quotes := AfterCalls(before, calls).cache, TakenByAll(before, calls);
            && (symbol in cache <==> exists q :: q in quotes && q.symbol == symbol)
            && (symbol in cache ==>
                 && cache[symbol] in quotes && cache[symbol].symbol == symbol
                 && forall q :: q in quotes && q.symbol == symbol ==> NotAbove(q, cache[symbol]))
  {
    CallsTake(before, calls);
    CacheHoldsLatest(TakenByAll(before, calls), symbol);
  }

  /**
   * After any calls without database errors to one provider: the cached quote is the stored latest one if
   * and only if it is the first delivery of its fingerprint, and no other first delivery of the same
   * effective and received time has a greater (processing time, fingerprint).
   */
  lemma {:induction false} CacheIsStoreIff(
      before: Option<ProviderState>, calls: seq<ServiceCall>, provider: string, symbol: string, k: nat)
    requires CleanCalls(calls) && CallsFrom(calls, provider)
    requires k < |TakenByAll(before, calls)| && IsTop(TakenByAll(before, calls), symbol, k)
    ensures var s, quotes := AfterCalls(before, calls), TakenByAll(before, calls);
            var latest := LatestRow(s.rows, provider, symbol, None);
            && symbol in s.cache && s.cache[symbol] == quotes[k] && latest.Some?
            && (latest.value.quote == s.cache[symbol] <==> StoreAgrees(quotes, symbol, k))
  {
    CallsTake(before, calls);
    CallsTakeFromProvider(before, calls, provider);
    CachedIsLatestIff(TakenByAll(before, calls), provider, symbol, k);
  }
}
