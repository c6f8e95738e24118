/** The deterministic replay provider, and the store it fills by polling. */
module ReplayMarket {
  import opened Common
  import opened MarketContracts
  import opened MarketStore

  const PROVIDER := "replay-market"
  const MINUTE: Time := 60_000_000
  /** One hundredth, in units of 10^-10. */
  const CENT: Decimal := 100_000_000
  /** What `ingest_once` asks for. */
  const POLL_LIMIT := 60

  predicate KnownSymbol(symbol: string) {
    symbol == "ACME" || symbol == "SPY"
  }

  function Anchor(symbol: string): Decimal {
    if symbol == "ACME" then 10_000 * CENT else 54_000 * CENT
  }

  /** The bar of one minute, as delivered at `receivedAt`. */
  function ReplayBar(symbol: string, minute: int, receivedAt: Time): MarketBar {
    var bucket := minute % 100;
    var close := Anchor(symbol) + bucket * (8 * CENT);
    var nativeId := symbol + ":1m:" + IntText(minute * MINUTE);
    MarketBar(
      Digest("eventalpha:bar:" + nativeId), PROVIDER, Some(nativeId), symbol, "1m",
      minute * MINUTE, minute * MINUTE + MINUTE, Some(receivedAt), receivedAt, receivedAt, true,
      close - 3 * CENT, close + 5 * CENT, close - 6 * CENT, close, Some(10_000 + bucket * 100))
  }

  function BarCount(limit: int): nat {
    Min(Max(limit, 1), 1000)
  }

  /** The window of whole minutes before the current one, oldest first. */
  function Window(symbol: string, now: Time, limit: int): seq<MarketBar> {
    var count := BarCount(limit);
    seq(count, i requires 0 <= i < count => ReplayBar(symbol, now / MINUTE - (count - i), now))
  }

  datatype ProviderError = UnsupportedTimeframe | UnknownSymbol

  /** The bar of ACME or SPY that starts at the minute, field by field; a cent is 100_000_000. */
  ghost predicate IsReplayBar(bar: MarketBar, symbol: string, minute: int, receivedAt: Time) {
    var bucket := minute % 100;
    && bar.provider == "replay-market" && bar.symbol == symbol && bar.timeframe == "1m" && bar.isFinal
    && bar.timestamp == 60_000_000 * minute && bar.barEndAt == 60_000_000 * (minute + 1)
    && bar.providerUpdatedAt == Some(receivedAt) && bar.receivedAt == receivedAt && bar.processedAt == receivedAt
    && bar.close == 100_000_000 * ((if symbol == "ACME" then 10_000 else 54_000) + 8 * bucket)
    && bar.open == bar.close - 300_000_000 && bar.high == bar.close + 500_000_000 && bar.low == bar.close - 600_000_000
    && bar.volume == Some(10_000 + 100 * bucket)
    && bar.nativeId == Some(symbol + ":1m:" + IntText(bar.timestamp))
    && bar.id == Digest("eventalpha:bar:" + bar.nativeId.value)
  }

  lemma {:induction false} ReplayBarIsExact(symbol: string, minute: int, receivedAt: Time)
    ensures var bar := ReplayBar(symbol, minute, receivedAt);
            IsReplayBar(bar, symbol, minute, receivedAt) && bar.low < bar.open < bar.close < bar.high
  {
  }

  /** The window, field by field: at least one and at most a thousand bars up to the minute before the current one. */
  lemma {:induction false} WindowIsExact(symbol: string, now: Time, limit: int)
    ensures var window := Window(symbol, now, limit);
            && |window| == (if limit < 1 then 1 else if limit > 1000 then 1000 else limit)
            && forall i :: 0 <= i < |window| ==> IsReplayBar(window[i], symbol, now / 60_000_000 - |window| + i, now)
  {
    var window := Window(symbol, now, limit);
    forall i | 0 <= i < |window|
      ensures IsReplayBar(window[i], symbol, now / 60_000_000 - |window| + i, now)
    {
      ReplayBarIsExact(symbol, now / 60_000_000 - |window| + i, now);
    }
  }

  /** So its bars lie end to end, and the last one has ended within the last minute. */
  lemma {:induction false} WindowHasNoGap(symbol: string, now: Time, limit: int)
    ensures var window := Window(symbol, now, limit);
            && (forall i :: 0 < i < |window| ==> window[i].timestamp == window[i - 1].barEndAt)
            && window != [] && window[|window| - 1].barEndAt <= now < window[|window| - 1].barEndAt + 60_000_000
  {
    WindowIsExact(symbol, now, limit);
    var window := Window(symbol, now, limit);
    forall i | 0 < i < |window|
      ensures window[i].timestamp == window[i - 1].barEndAt
    {
      assert IsReplayBar(window[i], symbol, now / 60_000_000 - |window| + i, now);
      assert IsReplayBar(window[i - 1], symbol, now / 60_000_000 - |window| + (i - 1), now);
    }
    assert IsReplayBar(window[|window| - 1], symbol, now / 60_000_000 - |window| + (|window| - 1), now);
  }

  class ReplayMarketDataProvider {
    var lastMessageAt: Option<Time>

    constructor ()
      ensures lastMessageAt == None
    {
      lastMessageAt := None;
    }

    /** `symbol` is already upper case. */
    method Bars(symbol: string, timeframe: string, limit: int, now: Time) returns (r: Result<seq<MarketBar>, ProviderError>)
      ensures r == if timeframe != "1m" then Err(UnsupportedTimeframe)
                   else if symbol !in {"ACME", "SPY"} then Err(UnknownSymbol)
                   else Ok(Window(symbol, now, limit))
    {
      if timeframe != "1m" {
        return Err(UnsupportedTimeframe);
      }
      if !KnownSymbol(symbol) {
        return Err(UnknownSymbol);
      }
      var minute := now / MINUTE;
      var count := BarCount(limit);
      var result: seq<MarketBar> := [];
      for index := 0 to count
        invariant result == Window(symbol, now, limit)[..index]
      {
        result := result + [ReplayBar(symbol, minute - (count - index), now)];
      }
      assert Window(symbol, now, limit)[..count] == Window(symbol, now, limit);
      return Ok(result);
    }

    method LatestQuote(symbol: string, now: Time) returns (r: Result<MarketQuote, ProviderError>)
      modifies this
      ensures r.Err? <==> symbol !in {"ACME", "SPY"}
      ensures r.Ok? ==>
                && lastMessageAt == Some(now)
                && r.value.provider == "replay-market" && r.value.symbol == symbol
                && r.value.providerTimestamp == Some(now) && r.value.receivedAt == r.value.processedAt == now
                && r.value.last == Some(if symbol == "ACME" then 1_012_400_000_000 else 5_421_800_000_000)
                && r.value.bid == Some(r.value.last.value - 200_000_000) && r.value.ask == Some(r.value.last.value + 200_000_000)
                && r.value.nativeId == Some(symbol + ":" + IntText(now))
                && r.value.id == Digest("eventalpha:quote:" + r.value.nativeId.value)
      ensures r.Err? ==> lastMessageAt == old(lastMessageAt)
    {
      if !KnownSymbol(symbol) {
        return Err(UnknownSymbol);
      }
      lastMessageAt := Some(now);
      var last := if symbol == "ACME" then 10_124 * CENT else 54_218 * CENT;
      var nativeId := symbol + ":" + IntText(now);
      return Ok(MarketQuote(
        Digest("eventalpha:quote:" + nativeId), PROVIDER, symbol, Some(nativeId),
        Some(last - 2 * CENT), Some(last + 2 * CENT), Some(last), Some(now), now, now));
    }
  }

  // ---- polling into the store ----

  /** One successful `bars` call of the worker, saved. */
  datatype Fetch = Fetch(symbol: string, now: Time)

  function Poll(table: BarTable, f: Fetch): BarTable {
    AddBars(table, BarRowsOf(Window(f.symbol, f.now, POLL_LIMIT)))
  }

  function RunPolls(fetches: seq<Fetch>): BarTable {
    if fetches == [] then [] else Poll(RunPolls(fetches[..|fetches| - 1]), fetches[|fetches| - 1])
  }

  /** The row is a replay bar of a known symbol, filed under its fingerprint. */
  ghost predicate FromReplay(row: BarRow) {
    && KnownSymbol(row.bar.symbol) && row.bar.timestamp % MINUTE == 0
    && row == BarRowOf(ReplayBar(row.bar.symbol, row.bar.timestamp / MINUTE, row.bar.receivedAt))
  }

  ghost predicate ReplayTable(table: BarTable) {
    DistinctBars(table) && forall i {:trigger FromReplay(table[i])} :: 0 <= i < |table| ==> FromReplay(table[i])
  }

  /** Some stored row of the symbol starts at the minute. */
  ghost predicate HasMinute(table: BarTable, symbol: string, minute: int) {
    exists i :: 0 <= i < |table| && RowIs(table[i], symbol, minute)
  }

  ghost predicate RowIs(row: BarRow, symbol: string, minute: int) {
    row.bar.symbol == symbol && row.bar.timestamp == minute * MINUTE
  }

  /** Equal but for when the provider updated it and when it was received and processed. */
  ghost predicate SameButReceipt(a: MarketBar, b: MarketBar) {
    a == b.(providerUpdatedAt := a.providerUpdatedAt, receivedAt := a.receivedAt, processedAt := a.processedAt)
  }

  lemma {:induction false} WholeMinute(minute: int)
    ensures minute * MINUTE % MINUTE == 0 && minute * MINUTE / MINUTE == minute
  {
  }

  lemma {:induction false} ReplayRowFacts(symbol: string, minute: int, now: Time)
    requires KnownSymbol(symbol)
    ensures var row := BarRowOf(ReplayBar(symbol, minute, now)); FromReplay(row) && RowIs(row, symbol, minute)
  {
    WholeMinute(minute);
  }

  lemma {:induction false} RowFacts(row: BarRow)
    requires FromReplay(row)
    ensures RowIs(row, row.bar.symbol, row.bar.timestamp / MINUTE)
    ensures BarVisible(row, ReplayQuery(row.bar.symbol))
  {
  }

  lemma {:induction false} RowContent(row: BarRow, symbol: string, minute: int, now: Time)
    requires FromReplay(row) && RowIs(row, symbol, minute)
    ensures SameButReceipt(row.bar, ReplayBar(symbol, minute, now))
  {
    assert row.bar.timestamp / MINUTE == minute;
  }

  lemma {:induction false} StoredContent(table: BarTable, row: BarRow, symbol: string, minute: int, now: Time)
    requires ReplayTable(table) && row in table && RowIs(row, symbol, minute)
    ensures SameButReceipt(row.bar, ReplayBar(symbol, minute, now))
  {
    var i :| 0 <= i < |table| && table[i] == row;
    assert FromReplay(table[i]);
    RowContent(row, symbol, minute, now);
  }

  lemma {:induction false} WindowAt(symbol: string, now: Time, limit: int, i: nat, minute: int)
    requires i < BarCount(limit) && minute == now / MINUTE - (BarCount(limit) - i)
    ensures |Window(symbol, now, limit)| == BarCount(limit)
    ensures Window(symbol, now, limit)[i] == ReplayBar(symbol, minute, now)
  {
  }

  lemma {:induction false} RowIsClean(row: BarRow)
    requires FromReplay(row)
    ensures ValidSymbol(row.bar.symbol) && KnownTimeframe(row.bar.timeframe) && row.hash == BarHash(row.bar)
  {
  }

  lemma {:induction false} SameMinuteSameBar(a: BarRow, b: BarRow)
    requires FromReplay(a) && FromReplay(b)
    ensures SameBar(a.bar, b.bar) <==> a.bar.symbol == b.bar.symbol && a.bar.timestamp == b.bar.timestamp
  {
    if a.bar.symbol == b.bar.symbol && a.bar.timestamp == b.bar.timestamp {
      RowContent(a, b.bar.symbol, b.bar.timestamp / MINUTE, b.bar.receivedAt);
    }
  }

  /** One minute of a symbol is one observation, whenever delivered; another minute or symbol is another one. */
  lemma {:induction false} RowHash(a: BarRow, b: BarRow)
    requires FromReplay(a) && FromReplay(b)
    ensures a.hash == b.hash <==> a.bar.symbol == b.bar.symbol && a.bar.timestamp == b.bar.timestamp
  {
    RowIsClean(a);
    RowIsClean(b);
    SameMinuteSameBar(a, b);
    BarsDedupeIff(a.bar, b.bar);
  }

  lemma {:induction false} KnownHash(table: BarTable, row: BarRow)
    requires ReplayTable(table) && FromReplay(row)
    ensures HasBar(table, row.hash) <==> HasMinute(table, row.bar.symbol, row.bar.timestamp / MINUTE)
  {
    forall i | 0 <= i < |table|
      ensures table[i].hash == row.hash <==> RowIs(table[i], row.bar.symbol, row.bar.timestamp / MINUTE)
    {
      assert FromReplay(table[i]);
      RowHash(table[i], row);
      RowFacts(row);
    }
  }

  /** Adding a row inserts it exactly if its minute is new, and touches no other minute. */
  lemma {:induction false} AddRow(table: BarTable, row: BarRow, symbol: string, minute: int)
    requires ReplayTable(table) && FromReplay(row) && RowIs(row, symbol, minute)
    ensures var after := AddBar(table, row);
            && ReplayTable(after)
            && |after| == |table| + (if HasMinute(table, symbol, minute) then 0 else 1)
            && forall s, m :: HasMinute(after, s, m) <==> HasMinute(table, s, m) || (s == symbol && m == minute)
  {
    var after := AddBar(table, row);
    KnownHash(table, row);
    RowFacts(row);
    assert row.bar.timestamp / MINUTE == minute;
    if after != table {
      AddedMinutes(table, row, symbol, minute);
      forall i | 0 <= i < |after|
        ensures FromReplay(after[i])
      {
        if i < |table| {
          assert FromReplay(table[i]);
        }
      }
    }
  }

  lemma {:induction false} AddedMinutes(table: BarTable, row: BarRow, symbol: string, minute: int)
    requires RowIs(row, symbol, minute)
    ensures forall s, m :: HasMinute(table + [row], s, m) <==> HasMinute(table, s, m) || (s == symbol && m == minute)
  {
    var after := table + [row];
    assert after[|table|] == row;
    forall s, m
      ensures HasMinute(after, s, m) <==> HasMinute(table, s, m) || (s == symbol && m == minute)
    {
      if HasMinute(table, s, m) {
        var i :| 0 <= i < |table| && RowIs(table[i], s, m);
        assert RowIs(after[i], s, m);
      }
      if HasMinute(after, s, m) {
        var i :| 0 <= i < |after| && RowIs(after[i], s, m);
        if i < |table| {
          assert RowIs(table[i], s, m);
        }
      }
    }
  }

  /** The stored minutes of a symbol after a poll at minute `m`: nothing newer, and the whole window. */
  ghost predicate Holds(table: BarTable, symbol: string, m: int) {
    && (forall k :: HasMinute(table, symbol, k) ==> k < m)
    && (forall k :: m - POLL_LIMIT <= k < m ==> HasMinute(table, symbol, k))
  }

  ghost predicate HoldsNothing(table: BarTable, symbol: string) {
    forall k :: !HasMinute(table, symbol, k)
  }

  lemma {:induction false} WindowRow(f: Fetch, i: nat) returns (row: BarRow)
    requires KnownSymbol(f.symbol) && i < POLL_LIMIT
    ensures |BarRowsOf(Window(f.symbol, f.now, POLL_LIMIT))| == POLL_LIMIT
    ensures row == BarRowsOf(Window(f.symbol, f.now, POLL_LIMIT))[i]
    ensures FromReplay(row) && RowIs(row, f.symbol, f.now / MINUTE - POLL_LIMIT + i)
  {
    var minute := f.now / MINUTE - POLL_LIMIT + i;
    WindowAt(f.symbol, f.now, POLL_LIMIT, i, minute);
    row := RowOfBar(Window(f.symbol, f.now, POLL_LIMIT), i, f.symbol, minute, f.now);
  }

  lemma {:induction false} RowOfBar(bars: seq<MarketBar>, i: nat, symbol: string, minute: int, now: Time) returns (row: BarRow)
    requires KnownSymbol(symbol) && i < |bars| && bars[i] == ReplayBar(symbol, minute, now)
    ensures |BarRowsOf(bars)| == |bars| && row == BarRowsOf(bars)[i]
    ensures FromReplay(row) && RowIs(row, symbol, minute)
  {
    row := BarRowOf(ReplayBar(symbol, minute, now));
    ReplayRowFacts(symbol, minute, now);
  }

  /** The first `n` bars of the window, with the number of rows they insert. */
  lemma {:induction false} PollPrefix(table: BarTable, f: Fetch, n: nat, unseen: int)
    requires ReplayTable(table) && KnownSymbol(f.symbol) && n <= POLL_LIMIT
    requires unseen <= f.now / MINUTE
    requires forall k :: f.now / MINUTE - POLL_LIMIT <= k < f.now / MINUTE ==> (HasMinute(table, f.symbol, k) <==> k < unseen)
    ensures var m := f.now / MINUTE;
            var after := AddBars(table, BarRowsOf(Window(f.symbol, f.now, POLL_LIMIT))[..n]);
            && ReplayTable(after)
            && |after| - |table| == Max(0, Min(n, m - POLL_LIMIT + n - unseen))
            && forall s, k :: HasMinute(after, s, k) <==>
                 HasMinute(table, s, k) || (s == f.symbol && m - POLL_LIMIT <= k < m - POLL_LIMIT + n)
  {
    if n > 0 {
      var rows := BarRowsOf(Window(f.symbol, f.now, POLL_LIMIT));
      var minute := f.now / MINUTE - POLL_LIMIT + n - 1;
      PollPrefix(table, f, n - 1, unseen);
      assert rows[..n][..n - 1] == rows[..n - 1];
      var row := WindowRow(f, n - 1);
      assert AddBars(table, rows[..n]) == AddBar(AddBars(table, rows[..n - 1]), row);
      AddRow(AddBars(table, rows[..n - 1]), row, f.symbol, minute);
    }
  }

  /** A poll inserts one row for each minute since the last poll, at most a window of them. */
  lemma {:induction false} PollInserts(table: BarTable, f: Fetch, last: int)
    requires ReplayTable(table) && KnownSymbol(f.symbol)
    requires Holds(table, f.symbol, last) && last <= f.now / MINUTE
    ensures var after := Poll(table, f);
            && |after| - |table| == Min(60, f.now / 60_000_000 - last)
            && ReplayTable(after) && Holds(after, f.symbol, f.now / MINUTE)
            && forall s, k :: s != f.symbol ==> (HasMinute(after, s, k) <==> HasMinute(table, s, k))
  {
    PollPrefix(table, f, POLL_LIMIT, last);
    var rows := BarRowsOf(Window(f.symbol, f.now, POLL_LIMIT));
    assert rows[..POLL_LIMIT] == rows;
  }

  lemma {:induction false} FirstPollInserts(table: BarTable, f: Fetch)
    requires ReplayTable(table) && KnownSymbol(f.symbol) && HoldsNothing(table, f.symbol)
    ensures var after := Poll(table, f);
            && |after| - |table| == 60
            && ReplayTable(after) && Holds(after, f.symbol, f.now / MINUTE)
            && forall s, k :: s != f.symbol ==> (HasMinute(after, s, k) <==> HasMinute(table, s, k))
  {
    PollPrefix(table, f, POLL_LIMIT, f.now / MINUTE - POLL_LIMIT);
    var rows := BarRowsOf(Window(f.symbol, f.now, POLL_LIMIT));
    assert rows[..POLL_LIMIT] == rows;
  }

  // ---- runs of polls ----

  /** The minute of the last poll for a symbol. */
  function LastPoll(fetches: seq<Fetch>, symbol: string): Option<int> {
    if fetches == [] then None
    else if fetches[|fetches| - 1].symbol == symbol then Some(fetches[|fetches| - 1].now / MINUTE)
    else LastPoll(fetches[..|fetches| - 1], symbol)
  }

  /** Polls of known symbols under a clock that does not go back. */
  ghost predicate PollRun(fetches: seq<Fetch>) {
    && (forall i :: 0 <= i < |fetches| ==> KnownSymbol(fetches[i].symbol))
    && (forall i, j :: 0 <= i < j < |fetches| ==> fetches[i].now <= fetches[j].now)
  }

  ghost predicate Tracks(table: BarTable, fetches: seq<Fetch>, symbol: string) {
    match LastPoll(fetches, symbol)
    case None => HoldsNothing(table, symbol)
    case Some(m) => Holds(table, symbol, m)
  }

  lemma {:induction false} LastPollIsPast(fetches: seq<Fetch>, symbol: string, now: Time)
    requires forall i :: 0 <= i < |fetches| ==> fetches[i].now <= now
    ensures LastPoll(fetches, symbol).Some? ==> LastPoll(fetches, symbol).value <= now / MINUTE
  {
    if fetches != [] && fetches[|fetches| - 1].symbol != symbol {
      LastPollIsPast(fetches[..|fetches| - 1], symbol, now);
    }
  }

  lemma {:induction false} PollsTrack(fetches: seq<Fetch>, symbol: string)
    requires PollRun(fetches) && KnownSymbol(symbol)
    ensures ReplayTable(RunPolls(fetches)) && Tracks(RunPolls(fetches), fetches, symbol)
  {
    if fetches != [] {
      var init, f := fetches[..|fetches| - 1], fetches[|fetches| - 1];
      PollsTrack(init, symbol);
      PollsTrack(init, f.symbol);
      LastPollIsPast(init, f.symbol, f.now);
      var table := RunPolls(init);
      match LastPoll(init, f.symbol) {
        case None => FirstPollInserts(table, f);
        case Some(m) => PollInserts(table, f, m);
      }
    }
  }

  // ---- the store answers like the provider ----

  function ReplayQuery(symbol: string): BarQuery {
    BarQuery(PROVIDER, symbol, "1m", None, true)
  }

  /** What a read returns is stored, so it lies in the past of `m` and starts on a minute. */
  lemma {:induction false} ReadRow(table: BarTable, symbol: string, m: int, row: BarRow) returns (minute: int)
    requires ReplayTable(table) && Holds(table, symbol, m)
    requires row in table && BarVisible(row, ReplayQuery(symbol))
    ensures RowIs(row, symbol, minute) && minute < m
  {
    var i :| 0 <= i < |table| && table[i] == row;
    assert FromReplay(table[i]);
    RowFacts(row);
    minute := row.bar.timestamp / MINUTE;
    assert RowIs(table[i], symbol, minute);
    assert HasMinute(table, symbol, minute);
  }

  /** A stored minute is a visible row with that start. */
  lemma {:induction false} MinuteRow(table: BarTable, symbol: string, minute: int) returns (row: BarRow)
    requires ReplayTable(table) && HasMinute(table, symbol, minute)
    ensures row in table && BarVisible(row, ReplayQuery(symbol)) && RowIs(row, symbol, minute)
  {
    var i :| 0 <= i < |table| && RowIs(table[i], symbol, minute);
    row := table[i];
    assert FromReplay(table[i]);
    RowFacts(row);
  }

  /** Position `i` from the end of the read is the bar of minute `m - 1 - i`. */
  lemma {:induction false} ReadMinute(table: BarTable, symbol: string, m: int, limit: int, r: BarTable, i: nat)
    requires ReplayTable(table) && Holds(table, symbol, m)
    requires NewestBars(table, ReplayQuery(symbol), limit, r)
    requires 1 <= limit <= POLL_LIMIT && i < limit
    ensures i < |r| && RowIs(r[|r| - 1 - i], symbol, m - 1 - i)
  {
    if i > 0 {
      ReadMinute(table, symbol, m, limit, r, i - 1);
    }
    var row := MinuteRow(table, symbol, m - 1 - i);
    var k := PositionAtLeast(table, symbol, m, limit, r, i, row);
    NextStart(table, symbol, m, limit, r, i, k);
  }

  /** The wanted row is read, or the read is full of later ones: either way some unread position starts no earlier. */
  lemma {:induction false} PositionAtLeast(
      table: BarTable, symbol: string, m: int, limit: int, r: BarTable, i: nat, row: BarRow)
    returns (k: nat)
    requires NewestBars(table, ReplayQuery(symbol), limit, r) && 1 <= limit && i < limit
    requires row in table && BarVisible(row, ReplayQuery(symbol)) && RowIs(row, symbol, m - 1 - i)
    requires i > 0 ==> i - 1 < |r| && RowIs(r[|r| - i], symbol, m - i)
    ensures k < |r| - i && r[k].bar.timestamp >= row.bar.timestamp
  {
    if row.bar.timestamp in Starts(r) {
      var x :| x in r && x.bar.timestamp == row.bar.timestamp;
      k :| 0 <= k < |r| && r[k] == x;
      if i > 0 {
        Ascends(table, ReplayQuery(symbol), limit, r, |r| - i, k);
      }
    } else {
      k := 0;
    }
  }

  lemma {:induction false} Ascends(table: BarTable, q: BarQuery, limit: int, r: BarTable, a: nat, b: nat)
    requires NewestBars(table, q, limit, r) && a < |r| && b < |r|
    ensures r[a].bar.timestamp <= r[b].bar.timestamp <==> a <= b
  {
  }

  lemma {:induction false} ReadIsStored(table: BarTable, q: BarQuery, limit: int, r: BarTable, i: nat)
    requires NewestBars(table, q, limit, r) && i < |r|
    ensures r[i] in table && BarVisible(r[i], q)
  {
    assert IsNewestRevision(table, q, r[i]);
  }

  /** Between the start just read and a start at or above the wanted one there is no room. */
  lemma {:induction false} NextStart(table: BarTable, symbol: string, m: int, limit: int, r: BarTable, i: nat, k: nat)
    requires ReplayTable(table) && Holds(table, symbol, m)
    requires NewestBars(table, ReplayQuery(symbol), limit, r)
    requires k < |r| - i && r[k].bar.timestamp >= (m - 1 - i) * MINUTE
    requires i > 0 ==> RowIs(r[|r| - i], symbol, m - i)
    ensures RowIs(r[|r| - 1 - i], symbol, m - 1 - i)
  {
    var last := |r| - 1 - i;
    ReadIsStored(table, ReplayQuery(symbol), limit, r, last);
    var minute := ReadRow(table, symbol, m, r[last]);
    Ascends(table, ReplayQuery(symbol), limit, r, k, last);
    if i > 0 {
      Ascends(table, ReplayQuery(symbol), limit, r, last + 1, last);
    }
    assert minute == m - 1 - i;
  }

  /**
   * After any run of polls, reading the store gives the bars the provider itself would give at the
   * time of the symbol's last poll.
   */
  lemma {:induction false} StoreReadEqualsProviderRead(fetches: seq<Fetch>, symbol: string, now: Time, limit: int)
    requires PollRun(fetches) && KnownSymbol(symbol) && LastPoll(fetches, symbol) == Some(now / MINUTE)
    requires 1 <= limit <= POLL_LIMIT
    ensures var r := Bars(RunPolls(fetches), BarQuery("replay-market", symbol, "1m", None, true), limit);
            var window := Window(symbol, now, limit);
            && |r| == |window| == limit
            && forall i :: 0 <= i < limit ==> SameButReceipt(r[i].bar, window[i])
  {
    var table, m := RunPolls(fetches), now / MINUTE;
    PollsTrack(fetches, symbol);
    BarsAreNewest(table, ReplayQuery(symbol), limit);
    ReadsLikeWindow(table, symbol, now, limit, Bars(table, ReplayQuery(symbol), limit));
  }

  lemma {:induction false} ReadsLikeWindow(table: BarTable, symbol: string, now: Time, limit: int, r: BarTable)
    requires ReplayTable(table) && Holds(table, symbol, now / MINUTE)
    requires NewestBars(table, ReplayQuery(symbol), limit, r) && 1 <= limit <= POLL_LIMIT
    ensures |r| == |Window(symbol, now, limit)| == limit
    ensures forall i :: 0 <= i < limit ==> SameButReceipt(r[i].bar, Window(symbol, now, limit)[i])
  {
    var m := now / MINUTE;
    ReadMinute(table, symbol, m, limit, r, limit - 1);
    forall i | 0 <= i < limit
      ensures SameButReceipt(r[i].bar, Window(symbol, now, limit)[i])
    {
      ReadMinute(table, symbol, m, limit, r, limit - 1 - i);
      ReadIsStored(table, ReplayQuery(symbol), limit, r, i);
      StoredContent(table, r[i], symbol, m - (limit - i), now);
      WindowAt(symbol, now, limit, i, m - (limit - i));
    }
  }

  /** The minutes a poll brings: those since the last poll, or a whole window. */
  function MinutesSince(last: Option<int>, now: Time): int {
    match last
    case None => POLL_LIMIT
    case Some(m) => Min(POLL_LIMIT, now / MINUTE - m)
  }

  lemma {:induction false} PollGrowth(table: BarTable, after: BarTable, last: Option<int>, f: Fetch)
    requires ReplayTable(table) && KnownSymbol(f.symbol) && after == Poll(table, f)
    requires match last
             case None => HoldsNothing(table, f.symbol)
             case Some(m) => Holds(table, f.symbol, m) && m <= f.now / MINUTE
    ensures |after| - |table| == MinutesSince(last, f.now)
  {
    match last {
      case None => FirstPollInserts(table, f);
      case Some(m) => PollInserts(table, f, m);
    }
  }

  lemma {:induction false} LastOfRun(fetches: seq<Fetch>)
    requires PollRun(fetches) && fetches != []
    ensures var init, f := fetches[..|fetches| - 1], fetches[|fetches| - 1];
            && PollRun(init) && KnownSymbol(f.symbol)
            && (LastPoll(init, f.symbol).Some? ==> LastPoll(init, f.symbol).value <= f.now / MINUTE)
  {
    var init, f := fetches[..|fetches| - 1], fetches[|fetches| - 1];
    LastPollIsPast(init, f.symbol, f.now);
  }

  /** The number of rows that the last poll of a run adds to the table. */
  function Inserted(fetches: seq<Fetch>): int
    requires fetches != []
  {
    |RunPolls(fetches)| - |RunPolls(fetches[..|fetches| - 1])|
  }

  /** Each poll of a run inserts one row for each minute since the symbol's last poll, at most a window of them. */
  lemma {:induction false} RunInserts(fetches: seq<Fetch>)
    requires PollRun(fetches) && fetches != []
    ensures var init, f := fetches[..|fetches| - 1], fetches[|fetches| - 1];
            Inserted(fetches) == MinutesSince(LastPoll(init, f.symbol), f.now)
  {
    var init, f := fetches[..|fetches| - 1], fetches[|fetches| - 1];
    LastOfRun(fetches);
    PollsTrack(init, f.symbol);
    PollGrowth(RunPolls(init), RunPolls(fetches), LastPoll(init, f.symbol), f);
  }
}
