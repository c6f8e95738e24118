/** Which observations are one, and which of them a read or the cache gives, said on the fields of quotes and bars. */
module MarketReads {
  import opened Common
  import opened MarketContracts
  import opened MarketStore
  import opened QuoteStream
  import opened QuoteTies

  // ---- which quotes are one observation ----

  ghost predicate SamePrices(a: MarketQuote, b: MarketQuote) {
    && a.symbol == b.symbol && a.bid == b.bid && a.ask == b.ask && a.last == b.last
    && (if a.nativeId.Some? then a.nativeId.value else "") == (if b.nativeId.Some? then b.nativeId.value else "")
  }

  /**
   * Quotes of one provider: with provider times they are one observation if and only if these and the prices
   * agree, whenever they were received; without any, receipt times must agree.
   */
  lemma {:induction false} OneObservationIff(a: MarketQuote, b: MarketQuote)
    requires ValidSymbol(a.symbol) && ValidSymbol(b.symbol) && a.provider == b.provider
    ensures QuoteHash(a) == QuoteHash(b) <==>
              && SamePrices(a, b)
              && match (a.providerTimestamp, b.providerTimestamp)
                 case (Some(x), Some(y)) => x == y
                 case (Some(x), None) => x == b.receivedAt
                 case (None, Some(y)) => a.receivedAt == y
                 case (None, None) => a.receivedAt == b.receivedAt
  {
    QuotesDedupeIff(a, b);
  }

  /** A quote with a provider time is stored once, however often and whenever it is delivered. */
  lemma {:induction false} RedeliveredQuoteIsStoredOnce(table: QuoteTable, quote: MarketQuote, id: nat, receivedAt: Time, processedAt: Time)
    requires ValidSymbol(quote.symbol) && quote.providerTimestamp.Some?
    ensures var again := quote.(id := id, receivedAt := receivedAt, processedAt := processedAt);
            AddQuote(AddQuote(table, QuoteRowOf(quote)), QuoteRowOf(again)) == AddQuote(table, QuoteRowOf(quote))
  {
    var again := quote.(id := id, receivedAt := receivedAt, processedAt := processedAt);
    OneObservationIff(quote, again);
    var after := AddQuote(table, QuoteRowOf(quote));
    if !HasQuote(table, QuoteHash(quote)) {
      assert after[|table|] == QuoteRowOf(quote);
    } else {
      var i :| 0 <= i < |table| && table[i].hash == QuoteHash(quote);
      assert after[i].hash == QuoteHash(again);
    }
  }

  // ---- the latest stored quote ----

  ghost predicate QuoteAsked(row: QuoteRow, provider: string, symbol: string, asOf: Option<Time>) {
    && row.quote.provider == provider && row.quote.symbol == symbol
    && (asOf.None? || row.quote.receivedAt <= asOf.value)
  }

  /** `a` does not come before `b` in the query: by market time, then receipt, then processing, then fingerprint. */
  ghost predicate NotAhead(a: QuoteRow, b: QuoteRow) {
    && NoLater(a.quote, b.quote)
    && (NoLater(b.quote, a.quote) ==>
         && a.quote.receivedAt <= b.quote.receivedAt
         && (a.quote.receivedAt == b.quote.receivedAt ==>
              && a.quote.processedAt <= b.quote.processedAt
              && (a.quote.processedAt == b.quote.processedAt ==> a.hash <= b.hash)))
  }

  ghost predicate LatestAsked(row: QuoteRow, table: QuoteTable, provider: string, symbol: string, asOf: Option<Time>) {
    && row in table && QuoteAsked(row, provider, symbol, asOf)
    && forall other :: other in table && QuoteAsked(other, provider, symbol, asOf) ==> NotAhead(other, row)
  }

  lemma {:induction false} NotAheadIff(a: QuoteRow, b: QuoteRow)
    ensures a == b || QuoteAfter(b, a) ==> NotAhead(a, b)
  {
    TimesCompare(a.quote, b.quote);
    TimesCompare(b.quote, a.quote);
  }

  /** The read gives the latest of the stored quotes that were asked for, and None only if there is none. */
  lemma {:induction false} ReadGivesLatest(table: QuoteTable, provider: string, symbol: string, asOf: Option<Time>)
    requires DistinctQuotes(table)
    ensures var r := LatestRow(table, provider, symbol, asOf);
            && (r.None? <==> forall row :: row in table ==> !QuoteAsked(row, provider, symbol, asOf))
            && (r.Some? ==> LatestAsked(r.value, table, provider, symbol, asOf))
  {
    LatestIsMaximum(table, provider, symbol, asOf);
    var r := LatestRow(table, provider, symbol, asOf);
    forall row | row in table
      ensures QuoteAsked(row, provider, symbol, asOf) <==> QuoteVisible(row, provider, symbol, asOf)
    {
    }
    forall other | r.Some? && other in table && QuoteAsked(other, provider, symbol, asOf)
      ensures NotAhead(other, r.value)
    {
      NotAheadIff(other, r.value);
    }
  }

  // ---- the cached quote ----

  /** `a` does not replace `b` in the cache: by market time, then receipt, then id. */
  ghost predicate NotAbove(a: MarketQuote, b: MarketQuote) {
    && NoLater(a, b)
    && (NoLater(b, a) ==> a.receivedAt <= b.receivedAt && (a.receivedAt == b.receivedAt ==> a.id <= b.id))
  }

  lemma {:induction false} NotAboveIff(a: MarketQuote, b: MarketQuote)
    ensures RankAbove(a, b) <==> !NotAbove(a, b)
  {
    TimesCompare(a, b);
    TimesCompare(b, a);
  }

  /** Of the quotes remembered, the cache holds for each symbol one that no other of them is above. */
  lemma {:induction false} CacheHoldsLatest(quotes: seq<MarketQuote>, symbol: string)
    ensures var cache := RememberAll(quotes);
            && (symbol in cache <==> exists q :: q in quotes && q.symbol == symbol)
            && (symbol in cache ==>
                 && cache[symbol] in quotes && cache[symbol].symbol == symbol
                 && forall q :: q in quotes && q.symbol == symbol ==> NotAbove(q, cache[symbol]))
  {
    CachedOutranks(quotes, symbol);
    var cache := RememberAll(quotes);
    if j :| 0 <= j < |quotes| && quotes[j].symbol == symbol {
      assert quotes[j] in quotes;
    }
    if symbol in cache {
      var k := CachedIsTop(quotes, symbol);
      forall q | q in quotes && q.symbol == symbol
        ensures NotAbove(q, cache[symbol])
      {
        NotAboveIff(q, cache[symbol]);
      }
    }
  }

  // ---- provider times decide ----

  ghost predicate Timed(quotes: seq<MarketQuote>) {
    forall q :: q in quotes ==> q.providerTimestamp.Some?
  }

  /** What has been taken in is stored, if not in its own delivery then in one of the same observation. */
  lemma {:induction false} FirstDeliveryOf(quotes: seq<MarketQuote>, provider: string, k: nat) returns (row: QuoteRow)
    requires OfProvider(quotes, provider) && Timed(quotes) && k < |quotes|
    ensures row in AddQuotes([], RowsOf(quotes)) && row.quote.provider == provider && row.quote.symbol == quotes[k].symbol
    ensures row.quote.providerTimestamp == quotes[k].providerTimestamp
  {
    var table := AddQuotes([], RowsOf(quotes));
    HashIsStored(quotes, QuoteHash(quotes[k]));
    var i :| 0 <= i < |table| && table[i].hash == QuoteHash(quotes[k]);
    row := table[i];
    StoredAreFirsts(quotes, row);
    var j :| 0 <= j < |quotes| && QuoteRowOf(quotes[j]) == row && FirstOfHash(quotes, j);
    OneObservationIff(quotes[j], quotes[k]);
    assert quotes[j] in quotes && quotes[k] in quotes;
  }

  lemma {:induction false} StoredTimeIsGreatest(quotes: seq<MarketQuote>, provider: string, q: MarketQuote)
    requires OfProvider(quotes, provider) && Timed(quotes) && q in quotes
    ensures var stored := LatestRow(AddQuotes([], RowsOf(quotes)), provider, q.symbol, None);
            && stored.Some? && stored.value.quote in quotes && stored.value.quote.symbol == q.symbol
            && stored.value.quote.providerTimestamp.Some?
            && q.providerTimestamp.value <= stored.value.quote.providerTimestamp.value
  {
    var table := AddQuotes([], RowsOf(quotes));
    var k :| 0 <= k < |quotes| && quotes[k] == q;
    StoredAreFirsts(quotes, QuoteRowOf(q));
    ReadGivesLatest(table, provider, q.symbol, None);
    var first := FirstDeliveryOf(quotes, provider, k);
    assert QuoteAsked(first, provider, q.symbol, None);
    var stored := LatestRow(table, provider, q.symbol, None).value;
    StoredQuoteIsTaken(quotes, stored);
    assert NotAhead(first, stored);
  }

  lemma {:induction false} StoredQuoteIsTaken(quotes: seq<MarketQuote>, row: QuoteRow)
    requires row in AddQuotes([], RowsOf(quotes))
    ensures row.quote in quotes
  {
    StoredAreFirsts(quotes, row);
    var j :| 0 <= j < |quotes| && QuoteRowOf(quotes[j]) == row && FirstOfHash(quotes, j);
  }

  /**
   * Quotes of one provider that all carry provider times, taken in in any order and received at any times: what
   * the store gives and what the cache holds both have the greatest provider time of the symbol.
   */
  lemma {:induction false} GreatestProviderTime(quotes: seq<MarketQuote>, provider: string, q: MarketQuote)
    requires OfProvider(quotes, provider) && Timed(quotes) && q in quotes
    ensures var stored := LatestRow(AddQuotes([], RowsOf(quotes)), provider, q.symbol, None);
            && q.symbol in RememberAll(quotes) && RememberAll(quotes)[q.symbol].providerTimestamp.Some?
            && q.providerTimestamp.value <= RememberAll(quotes)[q.symbol].providerTimestamp.value
            && stored.Some? && stored.value.quote.providerTimestamp == RememberAll(quotes)[q.symbol].providerTimestamp
  {
    CacheHoldsLatest(quotes, q.symbol);
    var cached := RememberAll(quotes)[q.symbol];
    StoredTimeIsGreatest(quotes, provider, cached);
    var stored := LatestRow(AddQuotes([], RowsOf(quotes)), provider, q.symbol, None).value;
    assert NotAbove(q, cached) && NotAbove(stored.quote, cached);
  }

  /** A delayed quote that arrives last is neither cached nor given by the store. */
  lemma {:induction false} DelayedQuoteIsNotShown(early: MarketQuote, delayed: MarketQuote, provider: string)
    requires OfProvider([early, delayed], provider) && early.symbol == delayed.symbol
    requires early.providerTimestamp.Some? && delayed.providerTimestamp.Some?
    requires delayed.providerTimestamp.value < early.providerTimestamp.value && early.receivedAt < delayed.receivedAt
    ensures RememberAll([early, delayed])[early.symbol := early] == RememberAll([early, delayed])
    ensures LatestRow(AddQuotes([], RowsOf([early, delayed])), provider, early.symbol, None) == Some(QuoteRowOf(early))
  {
    var quotes := [early, delayed];
    TimesCompare(early, delayed);
    SingleLatestAgrees(quotes, provider, early.symbol, 0);
    assert RememberAll(quotes)[early.symbol] == early;
  }

  // ---- bars ----

  ghost predicate BarAsked(
      row: BarRow, provider: string, symbol: string, timeframe: string, asOf: Option<Time>, finalOnly: bool)
  {
    && row.bar.provider == provider && row.bar.symbol == symbol && row.bar.timeframe == timeframe
    && (asOf.None? || row.bar.receivedAt <= asOf.value)
    && (row.bar.isFinal || !finalOnly)
  }

  /** `a` is no newer revision than `b`: by receipt, then processing, then fingerprint. */
  ghost predicate NotNewer(a: BarRow, b: BarRow) {
    && a.bar.receivedAt <= b.bar.receivedAt
    && (a.bar.receivedAt == b.bar.receivedAt ==>
         && a.bar.processedAt <= b.bar.processedAt
         && (a.bar.processedAt == b.bar.processedAt ==> a.hash <= b.hash))
  }

  /** The start of the row is one of those that were read. */
  ghost predicate StartIsRead(row: BarRow, r: BarTable) {
    exists i :: 0 <= i < |r| && r[i].bar.timestamp == row.bar.timestamp
  }

  /** Of the stored bars that were asked for the row is the newest revision of its start. */
  ghost predicate NewestAsked(
      row: BarRow, table: BarTable, provider: string, symbol: string, timeframe: string, asOf: Option<Time>, finalOnly: bool)
  {
    && row in table && BarAsked(row, provider, symbol, timeframe, asOf, finalOnly)
    && forall other ::
         (other in table && BarAsked(other, provider, symbol, timeframe, asOf, finalOnly)
          && other.bar.timestamp == row.bar.timestamp) ==> NotNewer(other, row)
  }

  lemma {:induction false} VisibleIffAsked(row: BarRow, q: BarQuery)
    ensures BarVisible(row, q) <==> BarAsked(row, q.provider, q.symbol, q.timeframe, q.asOf, q.finalOnly)
  {
  }

  lemma {:induction false} NewestIsNewestAsked(table: BarTable, q: BarQuery, row: BarRow)
    requires IsNewestRevision(table, q, row)
    ensures NewestAsked(row, table, q.provider, q.symbol, q.timeframe, q.asOf, q.finalOnly)
  {
    VisibleIffAsked(row, q);
    forall other | other in table && BarAsked(other, q.provider, q.symbol, q.timeframe, q.asOf, q.finalOnly)
                   && other.bar.timestamp == row.bar.timestamp
      ensures NotNewer(other, row)
    {
      VisibleIffAsked(other, q);
      assert other == row || NewerRevision(row, other);
    }
  }

  /** A bar that was asked for is left out only for `limit` later starts. */
  lemma {:induction false} LeftOutForLater(table: BarTable, q: BarQuery, limit: int, r: BarTable, row: BarRow)
    requires NewestBars(table, q, limit, r) && row in table
    requires BarAsked(row, q.provider, q.symbol, q.timeframe, q.asOf, q.finalOnly)
    ensures StartIsRead(row, r) || (limit >= 1 && |r| == limit && row.bar.timestamp < r[0].bar.timestamp)
  {
    VisibleIffAsked(row, q);
    if row.bar.timestamp in Starts(r) {
      var x :| x in r && x.bar.timestamp == row.bar.timestamp;
      var i :| 0 <= i < |r| && r[i] == x;
    }
  }

  /**
   * What a read of bars gives, on the fields of the rows: of the provider, symbol and timeframe asked for, received
   * by the time asked for and final if only those are wanted, the newest revision of each start, oldest start
   * first; and all starts, or the `limit` latest ones.
   */
  lemma {:induction false} ReadGivesNewestBars(
      table: BarTable, provider: string, symbol: string, timeframe: string, limit: int, asOf: Option<Time>, finalOnly: bool)
    requires DistinctBars(table)
    ensures var r := Bars(table, BarQuery(provider, symbol, timeframe, asOf, finalOnly), limit);
            && (forall i, j :: 0 <= i < j < |r| ==> r[i].bar.timestamp < r[j].bar.timestamp)
            && (forall i :: 0 <= i < |r| ==> NewestAsked(r[i], table, provider, symbol, timeframe, asOf, finalOnly))
            && (forall row :: row in table && BarAsked(row, provider, symbol, timeframe, asOf, finalOnly) ==>
                 StartIsRead(row, r) || (limit >= 1 && |r| == limit && row.bar.timestamp < r[0].bar.timestamp))
            && (limit >= 1 ==> |r| <= limit)
  {
    var q := BarQuery(provider, symbol, timeframe, asOf, finalOnly);
    BarsAreNewest(table, q, limit);
    var r := Bars(table, q, limit);
    forall i | 0 <= i < |r|
      ensures NewestAsked(r[i], table, provider, symbol, timeframe, asOf, finalOnly)
    {
      NewestIsNewestAsked(table, q, r[i]);
    }
    forall row | row in table && BarAsked(row, provider, symbol, timeframe, asOf, finalOnly)
      ensures StartIsRead(row, r) || (limit >= 1 && |r| == limit && row.bar.timestamp < r[0].bar.timestamp)
    {
      LeftOutForLater(table, q, limit, r, row);
    }
  }
}
