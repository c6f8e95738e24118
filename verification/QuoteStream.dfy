/** The reconnect loop of `refresh_watchlist`, driven by a script of what the provider and the database do. */
module QuoteStream {
  import opened Common
  import opened MarketContracts
  import opened MarketStore
  import opened ProviderStates

  // ---- the cache of latest quotes ----

  /** `_quote_rank` orders quotes by (effective time, received, id). */
  predicate RankAbove(a: MarketQuote, b: MarketQuote) {
    var x, y := EffectiveTime(a), EffectiveTime(b);
    x > y || (x == y && (a.receivedAt > b.receivedAt || (a.receivedAt == b.receivedAt && a.id > b.id)))
  }

  type Cache = map<string, MarketQuote>

  /** `_remember_quote`. */
  function Remember(cache: Cache, quote: MarketQuote): Cache {
    if quote.symbol !in cache || RankAbove(quote, cache[quote.symbol]) then cache[quote.symbol := quote] else cache
  }

  // ---- the loop ----

  /**
   * What happens next. A quote may fail to be saved or its success to be recorded, by an exception
   * named `error`; `noted` says whether that could be recorded. A connection breaks by a transient error,
   * with `jitter` the random part of the backoff; any other error of the provider aborts the loop.
   */
  datatype Happening =
    | Arrives(quote: MarketQuote, at: Time, saved: bool, recorded: bool, noted: bool, error: string)
    | Breaks(at: Time, detail: string, recorded: bool, jitter: nat)
    | Aborts
    | Ends

  /** `DatabaseRaised` is an error of the database that is passed on as it is; only the bar refresh does that. */
  datatype Phase = Streaming | Returned(count: nat) | ProviderRaised | PersistenceRaised | DatabaseRaised | Aborted

  /** The local variables of the loop, what it has done to the outside, and how it was left. */
  datatype Loop = Loop(
    phase: Phase,
    count: nat,
    lastMessage: Option<Time>,
    failures: nat,
    pending: bool,
    connections: nat,
    sleptMs: nat,
    cache: Cache,
    rows: QuoteTable,
    state: Option<ProviderState>)

  function Power2(n: nat): nat {
    if n == 0 then 1 else 2 * Power2(n - 1)
  }

  /** `_default_backoff` in milliseconds; the jitter is below 51. */
  function Backoff(attempt: nat, jitter: nat): nat {
    Min(1000, 100 * Power2(attempt) + jitter)
  }

  function Start(cache: Cache, rows: QuoteTable, state: Option<ProviderState>): Loop {
    Loop(Streaming, 0, None, 0, false, 1, 0, cache, rows, state)
  }

  function PersistenceFails(l: Loop, at: Time, noted: bool, error: string, last: Option<Time>): Loop {
    l.(phase := PersistenceRaised,
       state := if noted then Some(RecordFailure(l.state, at, "persistence:" + error, true, last)) else l.state)
  }

  function Arrive(l: Loop, h: Happening, durable: bool): Loop
    requires h.Arrives?
  {
    var quote := h.quote;
    if durable && !h.saved then PersistenceFails(l, h.at, h.noted, h.error, Some(quote.receivedAt))
    else
      var last := Later(l.lastMessage, Some(quote.receivedAt));
      var stored := l.(
        rows := if durable then AddQuote(l.rows, QuoteRowOf(quote)) else l.rows,
        lastMessage := last);
      if durable && !h.recorded then PersistenceFails(stored, h.at, h.noted, h.error, last)
      else
        stored.(
          state := if durable then Some(RecordSuccess(l.state, h.at, last, l.pending)) else l.state,
          cache := Remember(l.cache, quote),
          count := l.count + 1,
          failures := 0,
          pending := false)
  }

  function Break(l: Loop, h: Happening, attempts: nat, durable: bool): Loop
    requires h.Breaks?
  {
    var failures := l.failures + 1;
    var exhausted := failures >= attempts;
    if durable && !h.recorded then l.(failures := failures, phase := PersistenceRaised)
    else
      var noted := l.(
        failures := failures,
        state := if durable then Some(RecordFailure(l.state, h.at, h.detail, exhausted, l.lastMessage)) else l.state);
      if exhausted then noted.(phase := ProviderRaised)
      else noted.(
        pending := true,
        sleptMs := l.sleptMs + Backoff(failures - 1, h.jitter),
        connections := l.connections + 1)
  }

  function Next(l: Loop, h: Happening, attempts: nat, durable: bool): Loop {
    if !l.phase.Streaming? then l
    else
      match h
      case Ends => l.(phase := Returned(l.count))
      case Aborts => l.(phase := Aborted)
      case Arrives(_, _, _, _, _, _) => Arrive(l, h, durable)
      case Breaks(_, _, _, _) => Break(l, h, attempts, durable)
  }

  function Run(l: Loop, script: seq<Happening>, attempts: nat, durable: bool): Loop {
    if script == [] then l
    else Next(Run(l, script[..|script| - 1], attempts, durable), script[|script| - 1], attempts, durable)
  }

  // ---- scripts, described without the loop ----

  ghost predicate Clean(script: seq<Happening>) {
    forall i :: 0 <= i < |script| ==>
      && (script[i].Arrives? ==> script[i].saved && script[i].recorded)
      && (script[i].Breaks? ==> script[i].recorded)
      && !script[i].Aborts?
  }

  /** `attempts` failures in a row end at position `n`. */
  ghost predicate FailuresEndAt(script: seq<Happening>, attempts: nat, n: nat) {
    attempts <= n <= |script| && forall k :: n - attempts <= k < n ==> script[k].Breaks?
  }

  ghost predicate NoEndBefore(script: seq<Happening>, n: nat)
    requires n <= |script|
  {
    forall k :: 0 <= k < n ==> !script[k].Ends?
  }

  /** The failure budget is used up before the stream ends. */
  ghost predicate Exhausts(script: seq<Happening>, attempts: nat) {
    exists n :: 0 <= n <= |script| && FailuresEndAt(script, attempts, n) && NoEndBefore(script, n)
  }

  function QuoteCount(script: seq<Happening>): nat {
    if script == [] then 0
    else QuoteCount(script[..|script| - 1]) + if script[|script| - 1].Arrives? then 1 else 0
  }

  function FailureCount(script: seq<Happening>): nat {
    if script == [] then 0
    else FailureCount(script[..|script| - 1]) + if script[|script| - 1].Breaks? then 1 else 0
  }

  /** The failures since the last quote. */
  function TrailingFailures(script: seq<Happening>): nat {
    if script == [] || !script[|script| - 1].Breaks? then 0 else 1 + TrailingFailures(script[..|script| - 1])
  }

  lemma {:induction false} TrailingIsARun(script: seq<Happening>, n: nat)
    ensures TrailingFailures(script) <= |script|
    ensures n <= TrailingFailures(script) <==> FailuresEndAt(script, n, |script|)
  {
    if script != [] && script[|script| - 1].Breaks? {
      var init := script[..|script| - 1];
      if n > 0 {
        TrailingIsARun(init, n - 1);
        assert forall k :: 0 <= k < |init| ==> init[k] == script[k];
        assert FailuresEndAt(init, n - 1, |init|) <==> FailuresEndAt(script, n, |script|);
      } else {
        TrailingIsARun(init, 0);
      }
    } else if script != [] {
      var k := |script| - 1;
      assert !script[k].Breaks?;
    }
  }

  lemma {:induction false} ExhaustsPrefix(script: seq<Happening>, attempts: nat)
    requires script != []
    ensures Exhausts(script, attempts) <==>
              Exhausts(script[..|script| - 1], attempts)
              || (FailuresEndAt(script, attempts, |script|) && NoEndBefore(script, |script|))
  {
    var init := script[..|script| - 1];
    assert forall k :: 0 <= k < |init| ==> init[k] == script[k];
    if Exhausts(init, attempts) {
      var n :| 0 <= n <= |init| && FailuresEndAt(init, attempts, n) && NoEndBefore(init, n);
      assert FailuresEndAt(script, attempts, n) && NoEndBefore(script, n);
    }
    if Exhausts(script, attempts) {
      var n :| 0 <= n <= |script| && FailuresEndAt(script, attempts, n) && NoEndBefore(script, n);
      assert n < |script| ==> FailuresEndAt(init, attempts, n) && NoEndBefore(init, n);
    }
  }

  // ---- the loop does what the script says ----

  /** While it streams, the loop's counters are those of the script, and neither end nor exhaustion has come. */
  lemma {:induction false} Counters(l: Loop, script: seq<Happening>, attempts: nat, durable: bool)
    requires l.phase.Streaming? && l.count == 0 && l.failures == 0 && attempts >= 1 && Clean(script)
    ensures var r := Run(l, script, attempts, durable);
            && (r.phase.Streaming? <==> NoEndBefore(script, |script|) && !Exhausts(script, attempts))
            && (r.phase.ProviderRaised? <==> Exhausts(script, attempts))
            && !r.phase.PersistenceRaised? && !r.phase.DatabaseRaised? && !r.phase.Aborted?
            && (r.phase.Streaming? ==> r.count == QuoteCount(script) && r.failures == TrailingFailures(script))
  {
    if script == [] {
      assert !FailuresEndAt(script, attempts, 0);
    } else {
      var init := script[..|script| - 1];
      Counters(l, init, attempts, durable);
      ExhaustsPrefix(script, attempts);
      TrailingIsARun(script, attempts);
      BudgetHolds(init, attempts);
      assert forall k :: 0 <= k < |init| ==> init[k] == script[k];
      assert NoEndBefore(script, |script|) <==> NoEndBefore(init, |init|) && !script[|script| - 1].Ends?;
    }
  }

  lemma {:induction false} BudgetHolds(script: seq<Happening>, attempts: nat)
    ensures NoEndBefore(script, |script|) && !Exhausts(script, attempts) ==> TrailingFailures(script) < attempts
  {
    TrailingIsARun(script, attempts);
  }

  /** Where the run of a clean script stopped because the stream ended. */
  ghost predicate EndsAt(script: seq<Happening>, attempts: nat, e: nat) {
    e < |script| && script[e].Ends? && NoEndBefore(script, e) && !Exhausts(script[..e], attempts)
  }

  lemma {:induction false} EndsAtPrefix(script: seq<Happening>, attempts: nat, n: nat, e: nat)
    requires e < n <= |script|
    ensures EndsAt(script, attempts, e) <==> EndsAt(script[..n], attempts, e)
    ensures script[..e] == script[..n][..e]
  {
    assert script[..e] == script[..n][..e];
    assert forall k :: 0 <= k < n ==> script[..n][k] == script[k];
  }

  /** The stream ends exactly at the last happening, after `n` quotes, or it ended before. */
  lemma {:induction false} EndsOnce(script: seq<Happening>, attempts: nat, n: nat)
    requires script != []
    ensures var init := script[..|script| - 1];
            (exists e: nat :: EndsAt(script, attempts, e) && QuoteCount(script[..e]) == n)
            <==> (exists e: nat :: EndsAt(init, attempts, e) && QuoteCount(init[..e]) == n)
                 || (EndsAt(script, attempts, |init|) && QuoteCount(init) == n)
  {
    var init := script[..|script| - 1];
    if e: nat :| EndsAt(script, attempts, e) && QuoteCount(script[..e]) == n && e < |init| {
      EndsAtPrefix(script, attempts, |init|, e);
    }
    if e: nat :| EndsAt(init, attempts, e) && QuoteCount(init[..e]) == n {
      EndsAtPrefix(script, attempts, |init|, e);
      assert EndsAt(script, attempts, e) && QuoteCount(script[..e]) == n;
    }
    if EndsAt(script, attempts, |init|) && QuoteCount(init) == n {
      assert QuoteCount(script[..|init|]) == n;
    }
  }

  lemma {:induction false} EndsAtLast(script: seq<Happening>, attempts: nat)
    requires script != []
    ensures var init := script[..|script| - 1];
            EndsAt(script, attempts, |init|)
            <==> script[|init|].Ends? && NoEndBefore(init, |init|) && !Exhausts(init, attempts)
  {
    var init := script[..|script| - 1];
    assert forall k :: 0 <= k < |init| ==> init[k] == script[k];
  }

  /**
   * Reconnect loop exactness. On every script without database errors and aborts it raises if and only if
   * `attempts` failures come in a row before the end; and it returns `n` if and only if the stream
   * ends first, after `n` quotes.
   */
  lemma {:induction false} RefreshIsExact(l: Loop, script: seq<Happening>, attempts: nat, durable: bool, n: nat)
    requires l.phase.Streaming? && l.count == 0 && l.failures == 0 && attempts >= 1 && Clean(script)
    ensures var r := Run(l, script, attempts, durable);
            && (r.phase.ProviderRaised? <==> Exhausts(script, attempts))
            && (r.phase == Returned(n) <==> exists e: nat :: EndsAt(script, attempts, e) && QuoteCount(script[..e]) == n)
  {
    Counters(l, script, attempts, durable);
    if script != [] {
      var init := script[..|script| - 1];
      RefreshIsExact(l, init, attempts, durable, n);
      Counters(l, init, attempts, durable);
      EndsOnce(script, attempts, n);
      EndsAtLast(script, attempts);
      ReturnsAtEnd(Run(l, init, attempts, durable), script[|init|], attempts, durable, n);
    }
  }

  lemma {:induction false} ReturnsAtEnd(l: Loop, h: Happening, attempts: nat, durable: bool, n: nat)
    ensures Next(l, h, attempts, durable).phase == Returned(n)
            <==> l.phase == Returned(n) || (l.phase.Streaming? && h.Ends? && l.count == n)
  {
  }
}
