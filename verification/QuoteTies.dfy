/** Which quote the cache holds after quotes have been saved and remembered, and when it is the one the store gives. */
module QuoteTies {
  import opened Common
  import opened MarketContracts
  import opened MarketStore
  import opened QuoteStream
  import opened QuoteStreamFacts

  /** The quotes that the loop takes in before it is left. */
  ghost function Taken(l: Loop, script: seq<Happening>, attempts: nat): seq<MarketQuote> {
    if script == [] then []
    else
      var n := |script| - 1;
      Taken(l, script[..n], attempts)
      + if script[n].Arrives? && Run(l, script[..n], attempts, true).phase.Streaming? then [script[n].quote] else []
  }

  function RowsOf(quotes: seq<MarketQuote>): seq<QuoteRow> {
    seq(|quotes|, i requires 0 <= i < |quotes| => QuoteRowOf(quotes[i]))
  }

  function RememberAll(quotes: seq<MarketQuote>): Cache {
    if quotes == [] then map[] else Remember(RememberAll(quotes[..|quotes| - 1]), quotes[|quotes| - 1])
  }

  lemma {:induction false} OneMoreQuote(quotes: seq<MarketQuote>, quote: MarketQuote)
    ensures RememberAll(quotes + [quote]) == Remember(RememberAll(quotes), quote)
    ensures AddQuotes([], RowsOf(quotes + [quote])) == AddQuote(AddQuotes([], RowsOf(quotes)), QuoteRowOf(quote))
  {
    assert (quotes + [quote])[..|quotes|] == quotes;
    assert RowsOf(quotes + [quote])[..|quotes|] == RowsOf(quotes);
  }

  lemma {:induction false} CleanStep(l: Loop, h: Happening, attempts: nat)
    requires h.Arrives? ==> h.saved && h.recorded
    ensures var r := Next(l, h, attempts, true);
            if h.Arrives? && l.phase.Streaming? then
              r.cache == Remember(l.cache, h.quote) && r.rows == AddQuote(l.rows, QuoteRowOf(h.quote))
            else r.cache == l.cache && r.rows == l.rows
  {
  }

  /** The cache remembers, and the store holds, just the given quotes. */
  ghost predicate HoldsQuotes(l: Loop, quotes: seq<MarketQuote>) {
    l.cache == RememberAll(quotes) && l.rows == AddQuotes([], RowsOf(quotes))
  }

  lemma {:induction false} CleanStepTakes(l: Loop, h: Happening, attempts: nat, quotes: seq<MarketQuote>)
    requires h.Arrives? ==> h.saved && h.recorded
    requires HoldsQuotes(l, quotes)
    ensures HoldsQuotes(
              Next(l, h, attempts, true), quotes + if h.Arrives? && l.phase.Streaming? then [h.quote] else [])
  {
    CleanStep(l, h, attempts);
    if h.Arrives? && l.phase.Streaming? {
      OneMoreQuote(quotes, h.quote);
    } else {
      assert quotes + [] == quotes;
    }
  }

  /** Without database errors cache and store hold what they held and the quotes taken in. */
  lemma {:induction false} RunTakes(l: Loop, script: seq<Happening>, attempts: nat, held: seq<MarketQuote>)
    requires Clean(script) && HoldsQuotes(l, held)
    ensures HoldsQuotes(Run(l, script, attempts, true), held + Taken(l, script, attempts))
  {
    if script == [] {
      assert held + [] == held;
    } else {
      var init, last := script[..|script| - 1], script[|script| - 1];
      RunTakes(l, init, attempts, held);
      CleanStepTakes(Run(l, init, attempts, true), last, attempts, held + Taken(l, init, attempts));
      var more := if last.Arrives? && Run(l, init, attempts, true).phase.Streaming? then [last.quote] else [];
      assert held + Taken(l, script, attempts) == held + Taken(l, init, attempts) + more;
    }
  }

  // ---- the cached quote ----

  /** The first of the symbol's quotes that none of them ranks above. */
  ghost predicate IsTop(quotes: seq<MarketQuote>, symbol: string, k: nat)
    requires k < |quotes|
  {
    && quotes[k].symbol == symbol
    && (forall j :: 0 <= j < k && quotes[j].symbol == symbol ==> RankAbove(quotes[k], quotes[j]))
    && (forall j :: k < j < |quotes| && quotes[j].symbol == symbol ==> !RankAbove(quotes[j], quotes[k]))
  }

  lemma {:induction false} TopIsUnique(quotes: seq<MarketQuote>, symbol: string, j: nat, k: nat)
    requires j < |quotes| && k < |quotes| && IsTop(quotes, symbol, j) && IsTop(quotes, symbol, k)
    ensures j == k
  {
  }

  /** A symbol is cached as soon as a quote of it has come, and the cached quote is the top one. */
  lemma {:induction false} CachedIsTop(quotes: seq<MarketQuote>, symbol: string) returns (k: nat)
    ensures symbol in RememberAll(quotes) <==> exists j :: 0 <= j < |quotes| && quotes[j].symbol == symbol
    ensures symbol in RememberAll(quotes) ==>
              k < |quotes| && IsTop(quotes, symbol, k) && RememberAll(quotes)[symbol] == quotes[k]
  {
    k := 0;
    if quotes != [] {
      var n := |quotes| - 1;
      var init := quotes[..n];
      k := CachedIsTop(init, symbol);
      if quotes[n].symbol == symbol {
        if symbol !in RememberAll(init) || RankAbove(quotes[n], quotes[k]) {
          k := n;
        }
      } else if symbol in RememberAll(quotes) {
        var j :| 0 <= j < |init| && init[j].symbol == symbol;
        assert quotes[j].symbol == symbol;
      }
    }
  }

  lemma {:induction false} CachedOutranks(quotes: seq<MarketQuote>, symbol: string)
    ensures var cache := RememberAll(quotes);
            && (symbol in cache <==> exists j :: 0 <= j < |quotes| && quotes[j].symbol == symbol)
            && (symbol in cache ==>
                 && cache[symbol] in quotes
                 && forall q :: q in quotes && q.symbol == symbol ==> !RankAbove(q, cache[symbol]))
  {
    var k := CachedIsTop(quotes, symbol);
    forall q | symbol in RememberAll(quotes) && q in quotes && q.symbol == symbol
      ensures !RankAbove(q, quotes[k])
    {
      var j :| 0 <= j < |quotes| && quotes[j] == q;
    }
  }

  // ---- the stored quote ----

  /** No earlier quote has the fingerprint. */
  ghost predicate FirstOfHash(quotes: seq<MarketQuote>, k: nat)
    requires k < |quotes|
  {
    forall j :: 0 <= j < k ==> QuoteHash(quotes[j]) != QuoteHash(quotes[k])
  }

  lemma {:induction false} HashIsStored(quotes: seq<MarketQuote>, hash: nat)
    ensures HasQuote(AddQuotes([], RowsOf(quotes)), hash) <==> exists j :: 0 <= j < |quotes| && QuoteHash(quotes[j]) == hash
  {
    if quotes != [] {
      var n := |quotes| - 1;
      var init := quotes[..n];
      HashIsStored(init, hash);
      assert quotes == init + [quotes[n]];
      OneMoreQuote(init, quotes[n]);
      AddKeepsHashes(AddQuotes([], RowsOf(init)), QuoteRowOf(quotes[n]), hash);
      if j :| 0 <= j < |init| && QuoteHash(init[j]) == hash {
        assert QuoteHash(quotes[j]) == hash;
      }
    }
  }

  /** The store holds the first quote of each fingerprint, and each fingerprint once. */
  lemma {:induction false} StoredAreFirsts(quotes: seq<MarketQuote>, row: QuoteRow)
    ensures DistinctQuotes(AddQuotes([], RowsOf(quotes)))
    ensures row in AddQuotes([], RowsOf(quotes)) <==>
              exists k :: 0 <= k < |quotes| && QuoteRowOf(quotes[k]) == row && FirstOfHash(quotes, k)
  {
    if quotes != [] {
      var n := |quotes| - 1;
      var init := quotes[..n];
      StoredAreFirsts(init, row);
      assert quotes == init + [quotes[n]];
      OneMoreQuote(init, quotes[n]);
      AddQuoteKeepsDistinct(AddQuotes([], RowsOf(init)), QuoteRowOf(quotes[n]));
      HashIsStored(init, QuoteHash(quotes[n]));
      forall k | 0 <= k < n
        ensures FirstOfHash(quotes, k) <==> FirstOfHash(init, k)
      {
        assert forall j :: 0 <= j <= k ==> quotes[j] == init[j];
      }
      assert FirstOfHash(quotes, n) <==> !HasQuote(AddQuotes([], RowsOf(init)), QuoteHash(quotes[n])) by {
        assert forall j :: 0 <= j < n ==> quotes[j] == init[j];
      }
    }
  }

  ghost predicate OfProvider(quotes: seq<MarketQuote>, provider: string) {
    forall j :: 0 <= j < |quotes| ==> quotes[j].provider == provider && ValidSymbol(quotes[j].symbol)
  }

  /** Quotes tied in effective and received time, of which the store prefers `a`. */
  ghost predicate StorePrefers(a: MarketQuote, b: MarketQuote) {
    && EffectiveTime(a) == EffectiveTime(b) && a.receivedAt == b.receivedAt
    && (a.processedAt > b.processedAt || (a.processedAt == b.processedAt && QuoteHash(a) > QuoteHash(b)))
  }

  /** The top quote is the first of its fingerprint, and the store prefers no other first quote tied with it. */
  ghost predicate StoreAgrees(quotes: seq<MarketQuote>, symbol: string, k: nat)
    requires k < |quotes|
  {
    && FirstOfHash(quotes, k)
    && forall j :: 0 <= j < |quotes| && quotes[j].symbol == symbol && FirstOfHash(quotes, j) ==>
         !StorePrefers(quotes[j], quotes[k])
  }

  lemma {:induction false} LatestOfStored(quotes: seq<MarketQuote>, provider: string, symbol: string)
    ensures IsLatest(LatestRow(AddQuotes([], RowsOf(quotes)), provider, symbol, None), AddQuotes([], RowsOf(quotes)), provider, symbol, None)
  {
    StoredAreFirsts(quotes, QuoteRow(0, if quotes == [] then Tied(0, 0, 0, 0) else quotes[0]));
    LatestIsMaximum(AddQuotes([], RowsOf(quotes)), provider, symbol, None);
  }

  lemma {:induction false} AgreedIsLatest(quotes: seq<MarketQuote>, provider: string, symbol: string, k: nat)
    requires k < |quotes| && IsTop(quotes, symbol, k) && StoreAgrees(quotes, symbol, k)
    requires OfProvider(quotes, provider)
    ensures LatestRow(AddQuotes([], RowsOf(quotes)), provider, symbol, None) == Some(QuoteRowOf(quotes[k]))
  {
    var table, top := AddQuotes([], RowsOf(quotes)), QuoteRowOf(quotes[k]);
    LatestOfStored(quotes, provider, symbol);
    StoredAreFirsts(quotes, top);
    assert top in table && QuoteVisible(top, provider, symbol, None);
    var best := LatestRow(table, provider, symbol, None).value;
    StoredAreFirsts(quotes, best);
    var j :| 0 <= j < |quotes| && QuoteRowOf(quotes[j]) == best && FirstOfHash(quotes, j);
    assert !RankAbove(quotes[j], quotes[k]) && !StorePrefers(quotes[j], quotes[k]);
  }

  lemma {:induction false} LatestAgrees(quotes: seq<MarketQuote>, provider: string, symbol: string, k: nat)
    requires k < |quotes| && IsTop(quotes, symbol, k)
    requires OfProvider(quotes, provider)
    requires LatestRow(AddQuotes([], RowsOf(quotes)), provider, symbol, None) == Some(QuoteRowOf(quotes[k]))
    ensures StoreAgrees(quotes, symbol, k)
  {
    var table, top := AddQuotes([], RowsOf(quotes)), QuoteRowOf(quotes[k]);
    LatestOfStored(quotes, provider, symbol);
    StoredAreFirsts(quotes, top);
    var first :| 0 <= first < |quotes| && QuoteRowOf(quotes[first]) == top && FirstOfHash(quotes, first);
    assert first == k;
    forall j | 0 <= j < |quotes| && quotes[j].symbol == symbol && FirstOfHash(quotes, j)
      ensures !StorePrefers(quotes[j], quotes[k])
    {
      StoredAreFirsts(quotes, QuoteRowOf(quotes[j]));
      assert QuoteRowOf(quotes[j]) in table && QuoteVisible(QuoteRowOf(quotes[j]), provider, symbol, None);
    }
  }

  /** A quote taken in is stored, if not in its own delivery then in an earlier one. */
  lemma {:induction false} SomeRowIsVisible(quotes: seq<MarketQuote>, provider: string, k: nat)
    requires k < |quotes| && OfProvider(quotes, provider)
    ensures LatestRow(AddQuotes([], RowsOf(quotes)), provider, quotes[k].symbol, None).Some?
    ensures LatestRow(AddQuotes([], RowsOf(quotes)), provider, quotes[k].symbol, None).value in AddQuotes([], RowsOf(quotes))
  {
    var table := AddQuotes([], RowsOf(quotes));
    HashIsStored(quotes, QuoteHash(quotes[k]));
    var i :| 0 <= i < |table| && table[i].hash == QuoteHash(quotes[k]);
    StoredAreFirsts(quotes, table[i]);
    var j :| 0 <= j < |quotes| && QuoteRowOf(quotes[j]) == table[i] && FirstOfHash(quotes, j);
    QuotesDedupeIff(quotes[j], quotes[k]);
    LatestOfStored(quotes, provider, quotes[k].symbol);
    assert table[i] in table && QuoteVisible(table[i], provider, quotes[k].symbol, None);
  }

  lemma {:induction false} StoredRowsAreQuotes(quotes: seq<MarketQuote>, row: QuoteRow)
    requires row in AddQuotes([], RowsOf(quotes))
    ensures row == QuoteRowOf(row.quote)
  {
    StoredAreFirsts(quotes, row);
  }

  /**
   * The cached quote is the stored latest one if and only if it is the first delivery of its fingerprint,
   * and no other first delivery of the same effective and received time has a greater (processing time,
   * fingerprint).
   */
  lemma {:induction false} CachedIsLatestIff(quotes: seq<MarketQuote>, provider: string, symbol: string, k: nat)
    requires OfProvider(quotes, provider) && k < |quotes| && IsTop(quotes, symbol, k)
    ensures var cache, latest := RememberAll(quotes), LatestRow(AddQuotes([], RowsOf(quotes)), provider, symbol, None);
            && symbol in cache && cache[symbol] == quotes[k] && latest.Some?
            && (latest.value.quote == cache[symbol] <==> StoreAgrees(quotes, symbol, k))
  {
    TopIsCached(quotes, symbol, k);
    var table := AddQuotes([], RowsOf(quotes));
    SomeRowIsVisible(quotes, provider, k);
    StoredRowsAreQuotes(quotes, LatestRow(table, provider, symbol, None).value);
    if StoreAgrees(quotes, symbol, k) {
      AgreedIsLatest(quotes, provider, symbol, k);
    }
    if LatestRow(table, provider, symbol, None).value.quote == quotes[k] {
      LatestAgrees(quotes, provider, symbol, k);
    }
  }

  lemma {:induction false} TopIsCached(quotes: seq<MarketQuote>, symbol: string, k: nat)
    requires k < |quotes| && IsTop(quotes, symbol, k)
    ensures symbol in RememberAll(quotes) && RememberAll(quotes)[symbol] == quotes[k]
  {
    var top := CachedIsTop(quotes, symbol);
    TopIsUnique(quotes, symbol, top, k);
  }

  lemma {:induction false} TakenFromProvider(l: Loop, script: seq<Happening>, attempts: nat, provider: string)
    requires FromProvider(script, provider)
    ensures OfProvider(Taken(l, script, attempts), provider)
  {
    if script != [] {
      TakenFromProvider(l, script[..|script| - 1], attempts, provider);
    }
  }

  /** In particular they are the same if a single delivery of the symbol has the greatest effective time. */
  lemma {:induction false} SingleLatestAgrees(quotes: seq<MarketQuote>, provider: string, symbol: string, k: nat)
    requires k < |quotes| && quotes[k].symbol == symbol && OfProvider(quotes, provider)
    requires forall j :: 0 <= j < |quotes| && j != k && quotes[j].symbol == symbol ==>
               EffectiveTime(quotes[j]) < EffectiveTime(quotes[k])
    ensures symbol in RememberAll(quotes) && RememberAll(quotes)[symbol] == quotes[k]
    ensures LatestRow(AddQuotes([], RowsOf(quotes)), provider, symbol, None) == Some(QuoteRowOf(quotes[k]))
  {
    TopIsCached(quotes, symbol, k);
    forall j | 0 <= j < k
      ensures QuoteHash(quotes[j]) != QuoteHash(quotes[k])
    {
      QuotesDedupeIff(quotes[j], quotes[k]);
    }
    AgreedIsLatest(quotes, provider, symbol, k);
  }
}
