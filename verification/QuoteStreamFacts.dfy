/** What the reconnect loop leaves behind: the durable state, bounded retries, and an honest cache. */
module QuoteStreamFacts {
  import opened Common
  import opened MarketContracts
  import opened MarketStore
  import opened ProviderStates
  import opened QuoteStream

  // ---- the durable provider state ----

  /** The quotes that directly follow a failure. */
  function ReconnectedQuotes(script: seq<Happening>): nat {
    if script == [] then 0
    else
      var n := |script| - 1;
      ReconnectedQuotes(script[..n]) + if script[n].Arrives? && n > 0 && script[n - 1].Breaks? then 1 else 0
  }

  /** The greatest receipt time of the script's quotes. */
  function LatestReceipt(script: seq<Happening>): Option<Time> {
    if script == [] then None
    else
      var n := |script| - 1;
      if script[n].Arrives? then Later(LatestReceipt(script[..n]), Some(script[n].quote.receivedAt))
      else LatestReceipt(script[..n])
  }

  /** The time of the script's last quote, or of its last failure. */
  function LastAt(script: seq<Happening>, ofQuotes: bool): Option<Time> {
    if script == [] then None
    else
      var h := script[|script| - 1];
      if ofQuotes && h.Arrives? then Some(h.at)
      else if !ofQuotes && h.Breaks? then Some(h.at)
      else LastAt(script[..|script| - 1], ofQuotes)
  }

  function OrEarlier(time: Option<Time>, earlier: Option<Time>): Option<Time> {
    if time.Some? then time else earlier
  }

  /** The loop has worked through the whole script: it was still streaming before the last happening. */
  ghost predicate WorkedThrough(l: Loop, script: seq<Happening>, attempts: nat) {
    script != [] && Run(l, script[..|script| - 1], attempts, true).phase.Streaming?
  }

  /** After the last happening of a clean script without an end: the row of the provider, field by field. */
  ghost predicate StateMatches(before: Option<ProviderState>, script: seq<Happening>, r: Loop)
    requires script != []
  {
    var last := script[|script| - 1];
    && r.state.Some?
    && r.state.value.reconnectCount == Reconnects(before) + ReconnectedQuotes(script)
    && r.state.value.consecutiveFailures
       == TrailingFailures(script) + (if QuoteCount(script) == 0 then Failures(before) else 0)
    && r.state.value.lastMessageReceivedAt == Later(LastMessage(before), LatestReceipt(script))
    && (r.state.value.status == HEALTHY <==> last.Arrives?)
    && (r.state.value.status == UNAVAILABLE <==> r.phase.ProviderRaised?)
    && (last.Arrives? ==> r.state.value.heartbeatAt == last.at && r.state.value.detail == None)
    && (last.Breaks? ==> r.state.value.heartbeatAt == last.at && r.state.value.detail == Some(last.detail))
    && r.state.value.lastSuccessAt
       == OrEarlier(LastAt(script, true), if before.Some? then before.value.lastSuccessAt else None)
    && r.state.value.lastFailureAt
       == OrEarlier(LastAt(script, false), if before.Some? then before.value.lastFailureAt else None)
    && r.lastMessage == LatestReceipt(script)
    && (r.phase.Streaming? ==> r.pending == last.Breaks?)
  }

  lemma {:induction false} StateAfterQuote(before: Option<ProviderState>, init: seq<Happening>, l: Loop, h: Happening)
    requires h.Arrives? && h.saved && h.recorded && l.phase.Streaming?
    requires if init == [] then l.state == before && l.lastMessage == None && !l.pending else StateMatches(before, init, l)
    ensures StateMatches(before, init + [h], Arrive(l, h, true))
  {
    var script := init + [h];
    assert script[..|init|] == init;
  }

  lemma {:induction false} StateAfterFailure(
      before: Option<ProviderState>, init: seq<Happening>, l: Loop, h: Happening, attempts: nat)
    requires h.Breaks? && h.recorded && l.phase.Streaming?
    requires if init == [] then l.state == before && l.lastMessage == None && !l.pending else StateMatches(before, init, l)
    ensures StateMatches(before, init + [h], Break(l, h, attempts, true))
  {
    var script := init + [h];
    assert script[..|init|] == init;
    assert init == [] ==> TrailingFailures(init) == 0 && QuoteCount(init) == 0;
  }

  /** The durable state is the one the script prescribes, at every happening of the run. */
  lemma {:induction false} DurableState(
      cache: Cache, rows: QuoteTable, before: Option<ProviderState>, script: seq<Happening>, attempts: nat)
    requires attempts >= 1 && Clean(script) && NoEndBefore(script, |script|)
    requires WorkedThrough(Start(cache, rows, before), script, attempts)
    ensures StateMatches(before, script, Run(Start(cache, rows, before), script, attempts, true))
  {
    var l := Start(cache, rows, before);
    var init, last := script[..|script| - 1], script[|script| - 1];
    assert forall k :: 0 <= k < |init| ==> init[k] == script[k];
    if init != [] {
      EarlierStreams(l, init, attempts, true);
      DurableState(cache, rows, before, init, attempts);
    }
    assert script == init + [last];
    if last.Arrives? {
      StateAfterQuote(before, init, Run(l, init, attempts, true), last);
    } else {
      StateAfterFailure(before, init, Run(l, init, attempts, true), last, attempts);
    }
  }

  lemma {:induction false} EarlierStreams(l: Loop, script: seq<Happening>, attempts: nat, durable: bool)
    requires script != [] && Run(l, script, attempts, durable).phase.Streaming?
    ensures Run(l, script[..|script| - 1], attempts, durable).phase.Streaming?
  {
  }

  // ---- database errors ----

  /** The provider row after a persistence failure: unavailable, one failure in a row more, and the error named. */
  ghost predicate NotesFailure(before: Option<ProviderState>, after: Option<ProviderState>, at: Time, error: string, last: Option<Time>) {
    && after.Some?
    && after.value.status == UNAVAILABLE && after.value.detail == Some("persistence:" + error)
    && after.value.heartbeatAt == at && after.value.lastFailureAt == Some(at)
    && after.value.consecutiveFailures == Failures(before) + 1 && after.value.reconnectCount == Reconnects(before)
    && after.value.lastMessageReceivedAt == Later(LastMessage(before), last)
    && after.value.lastSuccessAt == (if before.Some? then before.value.lastSuccessAt else None)
  }

  /**
   * A quote that cannot be saved leaves rows and cache as they are; one that is saved but whose success cannot be
   * recorded is stored and not cached. Either way the loop raises, and notes it in the provider row if it can.
   */
  lemma {:induction false} FailedQuote(l: Loop, h: Happening, attempts: nat)
    requires l.phase.Streaming? && h.Arrives? && !(h.saved && h.recorded)
    ensures var r := Next(l, h, attempts, true);
            && r.phase == PersistenceRaised && r.cache == l.cache && r.count == l.count
            && r.rows == (if h.saved then AddQuote(l.rows, QuoteRowOf(h.quote)) else l.rows)
            && (if h.noted then
                  NotesFailure(
                    l.state, r.state, h.at, h.error,
                    if h.saved then Later(l.lastMessage, Some(h.quote.receivedAt)) else Some(h.quote.receivedAt))
                else r.state == l.state)
  {
  }

  /** A broken connection is noted with its error and the latest message of the loop; the last one allowed raises. */
  lemma {:induction false} RecordedFailure(l: Loop, h: Happening, attempts: nat)
    requires l.phase.Streaming? && h.Breaks? && h.recorded
    ensures var r := Next(l, h, attempts, true);
            && r.phase == (if l.failures + 1 >= attempts then ProviderRaised else Streaming)
            && r.cache == l.cache && r.rows == l.rows && r.count == l.count
            && r.state.Some? && r.state.value.heartbeatAt == h.at && r.state.value.detail == Some(h.detail)
            && r.state.value.status == (if l.failures + 1 >= attempts then UNAVAILABLE else DEGRADED)
            && r.state.value.consecutiveFailures == Failures(l.state) + 1
            && r.state.value.lastMessageReceivedAt == Later(LastMessage(l.state), l.lastMessage)
  {
  }

  /** A failure that cannot be recorded raises at once and changes nothing outside. */
  lemma {:induction false} UnrecordedFailure(l: Loop, h: Happening, attempts: nat)
    requires l.phase.Streaming? && h.Breaks? && !h.recorded
    ensures var r := Next(l, h, attempts, true);
            && r.phase == PersistenceRaised && r.cache == l.cache && r.rows == l.rows && r.state == l.state
            && r.sleptMs == l.sleptMs && r.connections == l.connections
  {
  }

  /** Any other error leaves the loop, and nothing happens in a loop that has been left. */
  lemma {:induction false} LeftForGood(l: Loop, h: Happening, script: seq<Happening>, attempts: nat, durable: bool)
    ensures !l.phase.Streaming? ==> Run(l, script, attempts, durable) == l
    ensures l.phase.Streaming? && h.Aborts? ==> Next(l, h, attempts, durable) == l.(phase := Aborted)
  {
    if script != [] {
      LeftForGood(l, h, script[..|script| - 1], attempts, durable);
    }
  }

  /** Without a database nothing is stored and no save fails: the quotes are only remembered. */
  lemma {:induction false} InMemoryRun(l: Loop, script: seq<Happening>, attempts: nat)
    requires !l.phase.PersistenceRaised?
    ensures var r := Run(l, script, attempts, false);
            r.rows == l.rows && r.state == l.state && !r.phase.PersistenceRaised?
  {
    if script != [] {
      InMemoryRun(l, script[..|script| - 1], attempts);
    }
  }

  lemma {:induction false} InMemoryQuote(l: Loop, h: Happening, attempts: nat)
    requires l.phase.Streaming? && h.Arrives?
    ensures Next(l, h, attempts, false).cache == Remember(l.cache, h.quote) && Next(l, h, attempts, false).count == l.count + 1
  {
  }

  // ---- bounded retries ----

  /** The waits in milliseconds: doubling from a tenth of a second, the jitter on top, and at most a second. */
  lemma {:induction false} BackoffTable(attempt: nat, jitter: nat)
    requires jitter < 51
    ensures Backoff(attempt, jitter) ==
              if attempt == 0 then 100 + jitter else if attempt == 1 then 200 + jitter
              else if attempt == 2 then 400 + jitter else if attempt == 3 then 800 + jitter else 1000
  {
    assert Power2(0) == 1 && Power2(1) == 2 && Power2(2) == 4 && Power2(3) == 8 && Power2(4) == 16;
    if attempt > 4 {
      Power2Grows(4, attempt);
    }
  }

  /** The backoff never exceeds a second. */
  lemma {:induction false} BackoffIsBounded(attempt: nat, jitter: nat)
    ensures Backoff(attempt, jitter) <= 1000
  {
  }

  lemma {:induction false} Power2Grows(a: nat, b: nat)
    requires a < b
    ensures 1 <= Power2(a) && 2 * Power2(a) <= Power2(b)
  {
    if a + 1 < b {
      Power2Grows(a, b - 1);
    } else if a > 0 {
      Power2Grows(a - 1, a);
    }
  }

  /** A later retry never waits less, whatever the jitter of either. */
  lemma {:induction false} BackoffGrows(a: nat, b: nat, jitter: nat, other: nat)
    requires a < b && jitter < 51
    ensures Backoff(a, jitter) <= Backoff(b, other)
  {
    Power2Grows(a, b);
  }

  /** What a failure waits that is the `n`-th in a row. */
  function WaitAfter(n: nat, jitter: nat): nat {
    if n <= 1 then 100 + jitter else if n == 2 then 200 + jitter
    else if n == 3 then 400 + jitter else if n == 4 then 800 + jitter else 1000
  }

  /** The waits of all failures of a script, each by its place in its row of failures. */
  function TotalWait(script: seq<Happening>): nat {
    if script == [] then 0
    else
      var last := script[|script| - 1];
      TotalWait(script[..|script| - 1]) + if last.Breaks? then WaitAfter(TrailingFailures(script), last.jitter) else 0
  }

  ghost predicate SmallJitter(script: seq<Happening>) {
    forall i :: 0 <= i < |script| && script[i].Breaks? ==> script[i].jitter < 51
  }

  /** While it streams, the loop has slept what the failures ask for, and opened one connection more than they broke. */
  lemma {:induction false} SleepsAreExact(l: Loop, script: seq<Happening>, attempts: nat, durable: bool)
    requires l == Start(l.cache, l.rows, l.state) && attempts >= 1 && Clean(script) && SmallJitter(script)
    requires Run(l, script, attempts, durable).phase.Streaming?
    ensures var r := Run(l, script, attempts, durable);
            && r.sleptMs == TotalWait(script) && r.connections == 1 + FailureCount(script) && r.failures == TrailingFailures(script)
  {
    if script != [] {
      var init, last := script[..|script| - 1], script[|script| - 1];
      EarlierStreams(l, script, attempts, durable);
      SleepsAreExact(l, init, attempts, durable);
      if last.Breaks? {
        BackoffTable(TrailingFailures(init), last.jitter);
      }
    }
  }

  /** Retries are paid for by quotes: each quote buys a budget of `attempts - 1`. */
  ghost predicate WithinBudget(l: Loop, attempts: nat)
    requires attempts >= 1
  {
    && (l.phase.Streaming? ==> l.failures < attempts)
    && 1 <= l.connections <= 1 + l.count * (attempts - 1) + Min(l.failures, attempts - 1)
    && l.sleptMs <= 1000 * (l.connections - 1)
  }

  lemma {:induction false} NextWithinBudget(l: Loop, h: Happening, attempts: nat, durable: bool)
    requires attempts >= 1 && WithinBudget(l, attempts)
    ensures WithinBudget(Next(l, h, attempts, durable), attempts)
  {
    if h.Breaks? {
      BackoffIsBounded(l.failures, h.jitter);
    }
    assert (l.count + 1) * (attempts - 1) == l.count * (attempts - 1) + (attempts - 1);
  }

  /**
   * Termination and bounds, for every script, database errors included. A script with at most `quotes`
   * quotes opens at most 1 + (quotes + 1)(attempts - 1) connections and sleeps at most
   * (quotes + 1)(attempts - 1) seconds; and if it is longer than quotes + (quotes + 1)(attempts - 1)
   * happenings, the loop has been left.
   */
  lemma {:induction false} RetriesAreBounded(
      cache: Cache, rows: QuoteTable, before: Option<ProviderState>,
      script: seq<Happening>, attempts: nat, durable: bool, quotes: nat)
    requires attempts >= 1 && QuoteCount(script) <= quotes
    ensures var r := Run(Start(cache, rows, before), script, attempts, durable);
            && r.connections <= 1 + (quotes + 1) * (attempts - 1)
            && r.sleptMs <= 1000 * ((quotes + 1) * (attempts - 1))
            && (r.phase.Streaming? ==> |script| <= quotes + (quotes + 1) * (attempts - 1))
  {
    RunWithinBudget(cache, rows, before, script, attempts, durable);
    var r := Run(Start(cache, rows, before), script, attempts, durable);
    MoreQuotesMoreBudget(r.count, quotes, attempts - 1);
  }

  lemma {:induction false} MoreQuotesMoreBudget(count: nat, quotes: nat, budget: nat)
    requires count <= quotes
    ensures count * budget + budget <= (quotes + 1) * budget
  {
  }

  lemma {:induction false} RunWithinBudget(
      cache: Cache, rows: QuoteTable, before: Option<ProviderState>, script: seq<Happening>, attempts: nat, durable: bool)
    requires attempts >= 1
    ensures var r := Run(Start(cache, rows, before), script, attempts, durable);
            && WithinBudget(r, attempts) && r.count <= QuoteCount(script)
            && (r.phase.Streaming? ==> |script| == r.count + r.connections - 1)
  {
    if script != [] {
      var init := script[..|script| - 1];
      RunWithinBudget(cache, rows, before, init, attempts, durable);
      NextWithinBudget(Run(Start(cache, rows, before), init, attempts, durable), script[|script| - 1], attempts, durable);
    }
  }

  // ---- persist before publish ----

  /** Every cached quote has a stored row with its fingerprint. */
  ghost predicate Published(cache: Cache, rows: QuoteTable) {
    forall symbol :: symbol in cache ==> HasQuote(rows, QuoteRowOf(cache[symbol]).hash)
  }

  lemma {:induction false} AddKeepsHashes(rows: QuoteTable, row: QuoteRow, hash: nat)
    ensures HasQuote(AddQuote(rows, row), hash) <==> HasQuote(rows, hash) || hash == row.hash
  {
    var after := AddQuote(rows, row);
    if i :| 0 <= i < |rows| && rows[i].hash == hash {
      assert after[i].hash == hash;
    }
    if !HasQuote(rows, row.hash) {
      assert after[|rows|] == row;
    }
  }

  lemma {:induction false} SaveThenRemember(cache: Cache, rows: QuoteTable, quote: MarketQuote)
    requires Published(cache, rows)
    ensures Published(cache, AddQuote(rows, QuoteRowOf(quote)))
    ensures Published(Remember(cache, quote), AddQuote(rows, QuoteRowOf(quote)))
  {
    forall hash {
      AddKeepsHashes(rows, QuoteRowOf(quote), hash);
    }
  }

  /** At every point of every run, database errors included, the cache is not ahead of the store. */
  lemma {:induction false} PersistBeforePublish(l: Loop, script: seq<Happening>, attempts: nat)
    requires Published(l.cache, l.rows)
    ensures var r := Run(l, script, attempts, true); Published(r.cache, r.rows)
  {
    if script != [] {
      var init, last := script[..|script| - 1], script[|script| - 1];
      PersistBeforePublish(l, init, attempts);
      var before := Run(l, init, attempts, true);
      if last.Arrives? {
        SaveThenRemember(before.cache, before.rows, last.quote);
      }
    }
  }

  // ---- the cache is as fresh as the store ----

  /** The quotes of a script come from one provider. */
  ghost predicate FromProvider(script: seq<Happening>, provider: string) {
    forall i :: 0 <= i < |script| && script[i].Arrives? ==>
      script[i].quote.provider == provider && ValidSymbol(script[i].quote.symbol)
  }

  ghost predicate ProviderRow(row: QuoteRow, provider: string) {
    row == QuoteRowOf(row.quote) && ValidSymbol(row.quote.symbol) && row.quote.provider == provider
  }

  /** Some stored row of the symbol has the effective time. */
  ghost predicate HasTime(rows: QuoteTable, symbol: string, time: Time) {
    exists i :: 0 <= i < |rows| && rows[i].quote.symbol == symbol && EffectiveTime(rows[i].quote) == time
  }

  /** Cache and rows agree on the greatest effective time of every symbol. */
  ghost predicate Agree(cache: Cache, rows: QuoteTable, provider: string) {
    && DistinctQuotes(rows)
    && (forall i {:trigger ProviderRow(rows[i], provider)} :: 0 <= i < |rows| ==> ProviderRow(rows[i], provider))
    && (forall symbol, time :: HasTime(rows, symbol, time) ==> symbol in cache && time <= EffectiveTime(cache[symbol]))
    && (forall symbol :: symbol in cache ==> HasTime(rows, symbol, EffectiveTime(cache[symbol])))
  }

  /** Storing a quote makes its effective time present, also when an earlier delivery is stored already. */
  lemma {:induction false} AddedTime(rows: QuoteTable, quote: MarketQuote, provider: string, symbol: string, time: Time)
    requires forall i {:trigger ProviderRow(rows[i], provider)} :: 0 <= i < |rows| ==> ProviderRow(rows[i], provider)
    requires ValidSymbol(quote.symbol) && quote.provider == provider
    ensures HasTime(AddQuote(rows, QuoteRowOf(quote)), symbol, time) <==>
              HasTime(rows, symbol, time) || (symbol == quote.symbol && time == EffectiveTime(quote))
  {
    var row := QuoteRowOf(quote);
    var after := AddQuote(rows, row);
    if i :| 0 <= i < |rows| && rows[i].hash == row.hash {
      assert ProviderRow(rows[i], provider);
      QuotesDedupeIff(rows[i].quote, quote);
    } else {
      assert after == rows + [row] && after[|rows|] == row;
      assert forall j :: 0 <= j < |rows| ==> after[j] == rows[j];
    }
  }

  lemma {:induction false} AgreeStep(cache: Cache, rows: QuoteTable, quote: MarketQuote, provider: string)
    requires Agree(cache, rows, provider) && ValidSymbol(quote.symbol) && quote.provider == provider
    ensures Agree(Remember(cache, quote), AddQuote(rows, QuoteRowOf(quote)), provider)
  {
    var after, now := AddQuote(rows, QuoteRowOf(quote)), Remember(cache, quote);
    AddQuoteKeepsDistinct(rows, QuoteRowOf(quote));
    forall symbol, time
      ensures HasTime(after, symbol, time) <==>
                HasTime(rows, symbol, time) || (symbol == quote.symbol && time == EffectiveTime(quote))
    {
      AddedTime(rows, quote, provider, symbol, time);
    }
    forall i | 0 <= i < |after|
      ensures ProviderRow(after[i], provider)
    {
      if i < |rows| {
        assert ProviderRow(rows[i], provider);
      }
    }
  }

  /** A run from an agreeing cache and store ends in such a pair. */
  lemma {:induction false} RunAgrees(l: Loop, script: seq<Happening>, attempts: nat, provider: string)
    requires Clean(script) && FromProvider(script, provider) && Agree(l.cache, l.rows, provider)
    ensures var r := Run(l, script, attempts, true); Agree(r.cache, r.rows, provider)
  {
    if script != [] {
      var init, last := script[..|script| - 1], script[|script| - 1];
      RunAgrees(l, init, attempts, provider);
      var before := Run(l, init, attempts, true);
      if last.Arrives? && before.phase.Streaming? {
        AgreeStep(before.cache, before.rows, last.quote, provider);
      }
    }
  }

  /** A quote is stale by whole milliseconds, and has no freshness if it is a millisecond or more ahead. */
  lemma {:induction false} FreshnessIsExact(effective: Time, reference: Time, ms: nat)
    ensures FreshnessMs(effective, reference) == None <==> effective - reference >= 1000
    ensures effective <= reference ==> (FreshnessMs(effective, reference) == Some(ms) <==> 1000 * ms <= reference - effective < 1000 * (ms + 1))
    ensures 0 < effective - reference < 1000 ==> FreshnessMs(effective, reference) == Some(0)
  {
  }

  /** `quote_freshness_ms` against a reference time: whole milliseconds, truncated towards zero, None if negative. */
  function FreshnessMs(effective: Time, reference: Time): Option<nat> {
    var age := reference - effective;
    if age >= 0 then Some(age / 1000) else if -age < 1000 then Some(0) else None
  }

  lemma {:induction false} LatestTime(cache: Cache, rows: QuoteTable, provider: string, symbol: string)
    requires Agree(cache, rows, provider)
    ensures var latest := LatestRow(rows, provider, symbol, None);
            && (symbol in cache <==> latest.Some?)
            && (latest.Some? ==> EffectiveTime(cache[symbol]) == EffectiveTime(latest.value.quote))
  {
    LatestIsMaximum(rows, provider, symbol, None);
    var latest := LatestRow(rows, provider, symbol, None);
    if latest.Some? {
      var i :| 0 <= i < |rows| && rows[i] == latest.value;
      assert HasTime(rows, symbol, EffectiveTime(rows[i].quote));
    }
    if symbol in cache {
      assert HasTime(rows, symbol, EffectiveTime(cache[symbol]));
      var i :| 0 <= i < |rows| && rows[i].quote.symbol == symbol && EffectiveTime(rows[i].quote) == EffectiveTime(cache[symbol]);
      assert ProviderRow(rows[i], provider);
      assert rows[i] in rows && QuoteVisible(rows[i], provider, symbol, None);
    }
  }

  lemma {:induction false} RunTwo(l: Loop, a: Happening, b: Happening, attempts: nat, durable: bool)
    ensures Run(l, [a, b], attempts, durable) == Next(Next(l, a, attempts, durable), b, attempts, durable)
  {
    assert [a, b][..1] == [a] && [a][..0] == [];
    assert Run(l, [a], attempts, durable) == Next(Run(l, [], attempts, durable), a, attempts, durable);
  }

  /** A quote of ACME at `t`, processed at `processedAt`. */
  function Tied(id: nat, price: Decimal, t: Time, processedAt: Time): MarketQuote {
    MarketQuote(id, "p", "ACME", None, None, None, Some(price), Some(t), t, processedAt)
  }

  /** But the quotes themselves may differ: the cache breaks ties by id, the store by processing time. */
  lemma {:induction false} TiesMayDiffer(t: Time)
    ensures var a, b := Tied(1, 1, t, t + 1), Tied(2, 2, t, t);
            var script := [Arrives(a, t, true, true, true, ""), Arrives(b, t, true, true, true, "")];
            var r := Run(Start(map[], [], None), script, 1, true);
            && "ACME" in r.cache && r.cache["ACME"] == b
            && LatestRow(r.rows, "p", "ACME", None) == Some(QuoteRowOf(a))
  {
    var a, b := Tied(1, 1, t, t + 1), Tied(2, 2, t, t);
    var x, y := QuoteRowOf(a), QuoteRowOf(b);
    QuotesDedupeIff(a, b);
    RunTwo(Start(map[], [], None), Arrives(a, t, true, true, true, ""), Arrives(b, t, true, true, true, ""), 1, true);
    assert AddQuote([], x) == [x];
    assert AddQuote([x], y) == [x, y];
    LatestOfTwo(x, y);
  }

  lemma {:induction false} LatestOfTwo(x: QuoteRow, y: QuoteRow)
    requires QuoteVisible(x, "p", "ACME", None) && !QuoteAfter(y, x)
    ensures LatestRow([x, y], "p", "ACME", None) == Some(x)
  {
    assert [x, y][..1] == [x] && [x][..0] == [];
    assert LatestRow([x], "p", "ACME", None) == Some(x);
  }
}
