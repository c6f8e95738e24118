/** The append-only observation tables of `SqlMarketRepository` and their point-in-time reads. */
module MarketStore {
  import opened Common
  import opened MarketContracts

  datatype QuoteRow = QuoteRow(hash: nat, quote: MarketQuote)
  datatype BarRow = BarRow(hash: nat, bar: MarketBar)

  type QuoteTable = seq<QuoteRow>
  type BarTable = seq<BarRow>

  // ---- saving ----

  function QuoteRowOf(quote: MarketQuote): QuoteRow {
    QuoteRow(QuoteHash(quote), quote)
  }

  function BarRowOf(bar: MarketBar): BarRow {
    BarRow(BarHash(bar), bar)
  }

  predicate HasQuote(table: QuoteTable, hash: nat) {
    exists i :: 0 <= i < |table| && table[i].hash == hash
  }

  predicate HasBar(table: BarTable, hash: nat) {
    exists i :: 0 <= i < |table| && table[i].hash == hash
  }

  /** `save_quote`: an observation whose fingerprint is stored already is not stored again. */
  function AddQuote(table: QuoteTable, row: QuoteRow): QuoteTable {
    if HasQuote(table, row.hash) then table else table + [row]
  }

  function AddQuotes(table: QuoteTable, rows: seq<QuoteRow>): QuoteTable {
    if rows == [] then table else AddQuote(AddQuotes(table, rows[..|rows| - 1]), rows[|rows| - 1])
  }

  function AddBar(table: BarTable, row: BarRow): BarTable {
    if HasBar(table, row.hash) then table else table + [row]
  }

  /** `save_bars`, bar by bar. */
  function AddBars(table: BarTable, rows: seq<BarRow>): BarTable {
    if rows == [] then table else AddBar(AddBars(table, rows[..|rows| - 1]), rows[|rows| - 1])
  }

  function BarRowsOf(bars: seq<MarketBar>): seq<BarRow> {
    seq(|bars|, i requires 0 <= i < |bars| => BarRowOf(bars[i]))
  }

  lemma {:induction false} AddBarsInParts(table: BarTable, first: seq<BarRow>, second: seq<BarRow>)
    ensures AddBars(table, first + second) == AddBars(AddBars(table, first), second)
  {
    if second == [] {
      assert first + second == first;
    } else {
      var n, all := |second| - 1, first + second;
      assert all[..|all| - 1] == first + second[..n] && all[|all| - 1] == second[n];
      AddBarsInParts(table, first, second[..n]);
    }
  }

  /** Saving appends: what was stored stays, and the new rows are among the saved ones. */
  lemma {:induction false} AddBarsAppends(table: BarTable, rows: seq<BarRow>) returns (more: BarTable)
    ensures AddBars(table, rows) == table + more
    ensures |more| <= |rows|
    ensures forall r :: r in more ==> r in rows
  {
    if rows == [] {
      more := [];
    } else {
      var init, last := rows[..|rows| - 1], rows[|rows| - 1];
      var before := AddBarsAppends(table, init);
      more := before + if HasBar(table + before, last.hash) then [] else [last];
      assert rows == init + [last];
    }
  }

  /** No fingerprint is stored twice. */
  ghost predicate DistinctBars(table: BarTable) {
    forall i, j :: 0 <= i < j < |table| ==> table[i].hash != table[j].hash
  }

  ghost predicate DistinctQuotes(table: QuoteTable) {
    forall i, j :: 0 <= i < j < |table| ==> table[i].hash != table[j].hash
  }

  lemma {:induction false} AddBarsKeepsDistinct(table: BarTable, rows: seq<BarRow>)
    requires DistinctBars(table)
    ensures DistinctBars(AddBars(table, rows))
  {
    if rows != [] {
      AddBarsKeepsDistinct(table, rows[..|rows| - 1]);
    }
  }

  // ---- the selection of bars ----

  datatype BarQuery = BarQuery(provider: string, symbol: string, timeframe: string, asOf: Option<Time>, finalOnly: bool)

  predicate BarVisible(row: BarRow, q: BarQuery) {
    && row.bar.provider == q.provider && row.bar.symbol == q.symbol && row.bar.timeframe == q.timeframe
    && (q.asOf.Some? ==> row.bar.receivedAt <= q.asOf.value)
    && (q.finalOnly ==> row.bar.isFinal)
  }

  function VisibleBars(table: BarTable, q: BarQuery): BarTable {
    if table == [] then []
    else VisibleBars(table[..|table| - 1], q) + if BarVisible(table[|table| - 1], q) then [table[|table| - 1]] else []
  }

  /** `a` comes after `b` in time order of (start, received, processed, hash); queries list later rows first. */
  predicate BarAfter(a: BarRow, b: BarRow) {
    a.bar.timestamp > b.bar.timestamp
    || (a.bar.timestamp == b.bar.timestamp && NewerRevision(a, b))
  }

  predicate NewerRevision(a: BarRow, b: BarRow) {
    a.bar.receivedAt > b.bar.receivedAt
    || (a.bar.receivedAt == b.bar.receivedAt
        && (a.bar.processedAt > b.bar.processedAt || (a.bar.processedAt == b.bar.processedAt && a.hash > b.hash)))
  }

  function InsertRow(rows: BarTable, row: BarRow): BarTable {
    if rows == [] || BarAfter(row, rows[0]) then [row] + rows else [rows[0]] + InsertRow(rows[1..], row)
  }

  function OrderBy(rows: BarTable): BarTable {
    if rows == [] then [] else InsertRow(OrderBy(rows[..|rows| - 1]), rows[|rows| - 1])
  }

  ghost predicate Ordered(rows: BarTable) {
    forall i, j :: 0 <= i < j < |rows| ==> BarAfter(rows[i], rows[j])
  }

  lemma {:induction false} InsertRowOrders(rows: BarTable, row: BarRow)
    requires Ordered(rows) && forall i :: 0 <= i < |rows| ==> rows[i].hash != row.hash
    ensures Ordered(InsertRow(rows, row))
    ensures forall r :: r in InsertRow(rows, row) <==> r in rows || r == row
  {
    if rows != [] && !BarAfter(row, rows[0]) {
      InsertRowOrders(rows[1..], row);
      var rest := InsertRow(rows[1..], row);
      assert rows == [rows[0]] + rows[1..];
      assert forall i :: 0 <= i < |rest| ==> rest[i] in rest;
      assert forall r :: r in rows[1..] ==> BarAfter(rows[0], r);
    }
  }

  lemma {:induction false} OrderByOrders(rows: BarTable)
    requires DistinctBars(rows)
    ensures Ordered(OrderBy(rows))
    ensures forall r :: r in OrderBy(rows) <==> r in rows
  {
    if rows != [] {
      var init, last := rows[..|rows| - 1], rows[|rows| - 1];
      OrderByOrders(init);
      assert rows == init + [last];
      forall i | 0 <= i < |OrderBy(init)|
        ensures OrderBy(init)[i].hash != last.hash
      {
        assert OrderBy(init)[i] in init;
      }
      InsertRowOrders(OrderBy(init), last);
    }
  }

  lemma {:induction false} VisibleIsFilter(table: BarTable, q: BarQuery)
    requires DistinctBars(table)
    ensures forall r :: r in VisibleBars(table, q) <==> r in table && BarVisible(r, q)
    ensures DistinctBars(VisibleBars(table, q))
  {
    if table != [] {
      var init, last := table[..|table| - 1], table[|table| - 1];
      VisibleIsFilter(init, q);
      assert table == init + [last];
      assert forall r :: r in init ==> r.hash != last.hash;
      assert forall i :: 0 <= i < |VisibleBars(init, q)| ==> VisibleBars(init, q)[i] in init;
    }
  }

  /** The rows a query returns: all visible rows, latest first. */
  function QueryBars(table: BarTable, q: BarQuery): BarTable {
    OrderBy(VisibleBars(table, q))
  }

  lemma {:induction false} QueryIsOrdered(table: BarTable, q: BarQuery)
    requires DistinctBars(table)
    ensures Ordered(QueryBars(table, q))
    ensures forall r :: r in QueryBars(table, q) <==> r in table && BarVisible(r, q)
  {
    VisibleIsFilter(table, q);
    OrderByOrders(VisibleBars(table, q));
  }

  function Starts(rows: BarTable): set<Time> {
    set r | r in rows :: r.bar.timestamp
  }

  predicate Full(selected: BarTable, limit: int) {
    selected != [] && |selected| == limit
  }

  /** The selection loop after `n` rows; once full it has been left. */
  function Select(rows: BarTable, limit: int, n: nat): BarTable
    requires n <= |rows|
  {
    if n == 0 then []
    else
      var selected := Select(rows, limit, n - 1);
      if Full(selected, limit) || rows[n - 1].bar.timestamp in Starts(selected) then selected
      else selected + [rows[n - 1]]
  }

  function Reverse(rows: BarTable): (r: BarTable)
    ensures |r| == |rows| && forall i :: 0 <= i < |rows| ==> r[i] == rows[|rows| - 1 - i]
  {
    if rows == [] then [] else [rows[|rows| - 1]] + Reverse(rows[..|rows| - 1])
  }

  /** `bars`: the selected rows, oldest first. */
  function Bars(table: BarTable, q: BarQuery, limit: int): BarTable {
    var rows := QueryBars(table, q);
    Reverse(Select(rows, limit, |rows|))
  }

  /** The row is the first of its start among the first `n` rows, so in an ordered query the newest revision. */
  ghost predicate FirstOfStart(rows: BarTable, n: nat, row: BarRow)
    requires n <= |rows|
  {
    exists k :: 0 <= k < n && rows[k] == row && forall j :: 0 <= j < k ==> rows[j].bar.timestamp != row.bar.timestamp
  }

  ghost predicate Descending(s: BarTable) {
    forall i, j :: 0 <= i < j < |s| ==> s[i].bar.timestamp > s[j].bar.timestamp
  }

  /** The row's start is selected, or the selection is full of later starts. */
  ghost predicate Covered(row: BarRow, limit: int, s: BarTable) {
    row.bar.timestamp in Starts(s) || (Full(s, limit) && row.bar.timestamp < s[|s| - 1].bar.timestamp)
  }

  /** What the loop has done after `n` rows of an ordered query. */
  ghost predicate Selection(rows: BarTable, limit: int, n: nat, s: BarTable)
    requires n <= |rows|
  {
    && Descending(s)
    && (forall i :: 0 <= i < |s| ==> FirstOfStart(rows, n, s[i]))
    && (forall k :: 0 <= k < n ==> Covered(rows[k], limit, s))
    && (limit >= 1 ==> |s| <= limit)
  }

  lemma {:induction false} FirstOfStartKeeps(rows: BarTable, n: nat, row: BarRow)
    requires n < |rows| && FirstOfStart(rows, n, row)
    ensures FirstOfStart(rows, n + 1, row)
  {
    var k :| 0 <= k < n && rows[k] == row && forall j :: 0 <= j < k ==> rows[j].bar.timestamp != row.bar.timestamp;
    assert 0 <= k < n + 1;
  }

  /** Rows further down an ordered query do not start later. */
  lemma {:induction false} SelectedBefore(rows: BarTable, n: nat, row: BarRow)
    requires Ordered(rows) && n < |rows| && FirstOfStart(rows, n, row)
    ensures rows[n].bar.timestamp <= row.bar.timestamp
  {
    var k :| 0 <= k < n && rows[k] == row && forall j :: 0 <= j < k ==> rows[j].bar.timestamp != row.bar.timestamp;
    assert BarAfter(rows[k], rows[n]);
  }

  lemma {:induction false} SelectOne(rows: BarTable, limit: int, n: nat, s: BarTable)
    requires Ordered(rows) && n < |rows| && Selection(rows, limit, n, s)
    requires !Full(s, limit) && rows[n].bar.timestamp !in Starts(s)
    ensures Selection(rows, limit, n + 1, s + [rows[n]])
  {
    var t := s + [rows[n]];
    forall i | 0 <= i < |s|
      ensures FirstOfStart(rows, n + 1, s[i]) && s[i].bar.timestamp > rows[n].bar.timestamp
    {
      FirstOfStartKeeps(rows, n, s[i]);
      SelectedBefore(rows, n, s[i]);
      assert s[i] in s;
    }
    forall j | 0 <= j < n
      ensures rows[j].bar.timestamp != rows[n].bar.timestamp
    {
      assert Covered(rows[j], limit, s);
    }
    assert FirstOfStart(rows, n + 1, rows[n]);
    assert Starts(t) == Starts(s) + {rows[n].bar.timestamp};
    forall k | 0 <= k < n + 1
      ensures Covered(rows[k], limit, t)
    {
      if k < n {
        assert Covered(rows[k], limit, s);
      }
    }
  }

  lemma {:induction false} SkipOne(rows: BarTable, limit: int, n: nat, s: BarTable)
    requires Ordered(rows) && n < |rows| && Selection(rows, limit, n, s)
    requires Full(s, limit) || rows[n].bar.timestamp in Starts(s)
    ensures Selection(rows, limit, n + 1, s)
  {
    forall i | 0 <= i < |s|
      ensures FirstOfStart(rows, n + 1, s[i])
    {
      FirstOfStartKeeps(rows, n, s[i]);
    }
    if rows[n].bar.timestamp !in Starts(s) {
      SelectedBefore(rows, n, s[|s| - 1]);
      assert s[|s| - 1] in s;
    }
    assert Covered(rows[n], limit, s);
  }

  lemma {:induction false} SelectIsSelection(rows: BarTable, limit: int, n: nat)
    requires Ordered(rows) && n <= |rows|
    ensures Selection(rows, limit, n, Select(rows, limit, n))
  {
    if n > 0 {
      var k := n - 1;
      SelectIsSelection(rows, limit, k);
      var s := Select(rows, limit, k);
      if Full(s, limit) || rows[k].bar.timestamp in Starts(s) {
        SkipOne(rows, limit, k, s);
      } else {
        SelectOne(rows, limit, k, s);
      }
      assert n == k + 1;
    }
  }

  /** `row` is the newest visible revision of its start. */
  ghost predicate IsNewestRevision(table: BarTable, q: BarQuery, row: BarRow) {
    && row in table && BarVisible(row, q)
    && forall other :: other in table && BarVisible(other, q) && other.bar.timestamp == row.bar.timestamp ==>
         other == row || NewerRevision(row, other)
  }

  /**
   * The bar read, said without its loop: ascending starts, each with its newest visible revision; a
   * visible start is left out only if there are `limit` later ones.
   */
  ghost predicate NewestBars(table: BarTable, q: BarQuery, limit: int, r: BarTable) {
    && (forall i, j :: 0 <= i < j < |r| ==> r[i].bar.timestamp < r[j].bar.timestamp)
    && (forall i :: 0 <= i < |r| ==> IsNewestRevision(table, q, r[i]))
    && (forall row :: row in table && BarVisible(row, q) ==>
         row.bar.timestamp in Starts(r)
         || (limit >= 1 && |r| == limit && row.bar.timestamp < r[0].bar.timestamp))
    && (limit >= 1 ==> |r| <= limit)
  }

  lemma {:induction false} FirstIsNewest(table: BarTable, q: BarQuery, rows: BarTable, row: BarRow)
    requires Ordered(rows) && FirstOfStart(rows, |rows|, row)
    requires forall r :: r in rows <==> r in table && BarVisible(r, q)
    ensures IsNewestRevision(table, q, row)
  {
    var k :| 0 <= k < |rows| && rows[k] == row && forall j :: 0 <= j < k ==> rows[j].bar.timestamp != row.bar.timestamp;
    forall other | other in table && BarVisible(other, q) && other.bar.timestamp == row.bar.timestamp && other != row
      ensures NewerRevision(row, other)
    {
      assert other in rows;
      var l :| 0 <= l < |rows| && rows[l] == other;
      assert BarAfter(rows[k], rows[l]);
    }
  }

  /** The same for the rows as the loop selects them, latest first. */
  ghost predicate NewestSelected(table: BarTable, q: BarQuery, limit: int, s: BarTable) {
    && Descending(s)
    && (forall i :: 0 <= i < |s| ==> IsNewestRevision(table, q, s[i]))
    && (forall row :: row in table && BarVisible(row, q) ==> Covered(row, limit, s))
    && (limit >= 1 ==> |s| <= limit)
  }

  lemma {:induction false} SelectedAreNewest(table: BarTable, q: BarQuery, limit: int)
    requires DistinctBars(table)
    ensures var rows := QueryBars(table, q); NewestSelected(table, q, limit, Select(rows, limit, |rows|))
  {
    QueryIsOrdered(table, q);
    var rows := QueryBars(table, q);
    SelectIsSelection(rows, limit, |rows|);
    var s := Select(rows, limit, |rows|);
    forall i | 0 <= i < |s|
      ensures IsNewestRevision(table, q, s[i])
    {
      FirstIsNewest(table, q, rows, s[i]);
    }
    forall row | row in table && BarVisible(row, q)
      ensures Covered(row, limit, s)
    {
      assert row in rows;
      var k :| 0 <= k < |rows| && rows[k] == row;
    }
  }

  lemma {:induction false} ReversedIsNewest(table: BarTable, q: BarQuery, limit: int, s: BarTable)
    requires NewestSelected(table, q, limit, s)
    ensures NewestBars(table, q, limit, Reverse(s))
  {
    ReverseKeepsStarts(s);
    assert forall row :: row in table && BarVisible(row, q) ==> Covered(row, limit, s);
  }

  /** `bars` returns the newest `limit` starts; a limit below 1 never stops the loop and returns all. */
  lemma {:induction false} BarsAreNewest(table: BarTable, q: BarQuery, limit: int)
    requires DistinctBars(table)
    ensures NewestBars(table, q, limit, Bars(table, q, limit))
  {
    SelectedAreNewest(table, q, limit);
    var rows := QueryBars(table, q);
    ReversedIsNewest(table, q, limit, Select(rows, limit, |rows|));
  }

  lemma {:induction false} ReverseKeepsStarts(s: BarTable)
    ensures Starts(Reverse(s)) == Starts(s)
  {
    var r := Reverse(s);
    forall i | 0 <= i < |s|
      ensures s[i] in r && r[i] in s
    {
      assert r[|s| - 1 - i] == s[i] && r[i] == s[|s| - 1 - i];
    }
  }

  function VisibleStarts(table: BarTable, q: BarQuery): set<Time> {
    set r | r in table && BarVisible(r, q) :: r.bar.timestamp
  }

  lemma {:induction false} AscendingStartsCount(r: BarTable)
    requires forall i, j :: 0 <= i < j < |r| ==> r[i].bar.timestamp < r[j].bar.timestamp
    ensures |Starts(r)| == |r|
  {
    if r != [] {
      var init, last := r[..|r| - 1], r[|r| - 1];
      AscendingStartsCount(init);
      assert r == init + [last];
      assert Starts(r) == Starts(init) + {last.bar.timestamp};
      assert last.bar.timestamp !in Starts(init);
    }
  }

  lemma {:induction false} SmallerSet<T>(a: set<T>, b: set<T>)
    requires a <= b
    ensures |a| <= |b| && (a != b ==> |a| < |b|)
  {
    assert b == a + (b - a);
    if a != b {
      assert b - a != {};
    }
  }

  /** The number of bars returned: all visible starts, or `limit` of them. */
  lemma {:induction false} BarsCount(table: BarTable, q: BarQuery, limit: int)
    requires DistinctBars(table)
    ensures var n := |VisibleStarts(table, q)|;
            |Bars(table, q, limit)| == if limit >= 1 && limit < n then limit else n
  {
    BarsAreNewest(table, q, limit);
    var r, all := Bars(table, q, limit), VisibleStarts(table, q);
    AscendingStartsCount(r);
    assert Starts(r) <= all by {
      forall x | x in r
        ensures x.bar.timestamp in all
      {
        var i :| 0 <= i < |r| && r[i] == x;
        assert IsNewestRevision(table, q, r[i]);
      }
    }
    SmallerSet(Starts(r), all);
    if Starts(r) != all {
      var t :| t in all && t !in Starts(r);
      var row :| row in table && BarVisible(row, q) && row.bar.timestamp == t;
      assert limit >= 1 && |r| == limit;
    }
  }

  // ---- point-in-time reads of bars ----

  lemma {:induction false} VisibleAppend(table: BarTable, more: BarTable, q: BarQuery)
    requires forall r :: r in more ==> !BarVisible(r, q)
    ensures VisibleBars(table + more, q) == VisibleBars(table, q)
  {
    if more == [] {
      assert table + more == table;
    } else {
      var all := table + more;
      var init, last := more[..|more| - 1], more[|more| - 1];
      assert all[..|all| - 1] == table + init;
      assert last in more && forall r :: r in init ==> r in more;
      VisibleAppend(table, init, q);
    }
  }

  /** Saves received after `t` never change a read as of `t`, whatever was stored before. */
  lemma {:induction false} LaterSavesAreInvisible(table: BarTable, rows: seq<BarRow>, q: BarQuery, limit: int)
    requires q.asOf.Some? && forall r :: r in rows ==> r.bar.receivedAt > q.asOf.value
    ensures Bars(AddBars(table, rows), q, limit) == Bars(table, q, limit)
  {
    var more := AddBarsAppends(table, rows);
    VisibleAppend(table, more, q);
  }

  lemma {:induction false} AsOfIsNoFilter(table: BarTable, q: BarQuery)
    requires q.asOf.Some? && forall i :: 0 <= i < |table| ==> table[i].bar.receivedAt <= q.asOf.value
    ensures VisibleBars(table, q) == VisibleBars(table, q.(asOf := None))
  {
    if table != [] {
      AsOfIsNoFilter(table[..|table| - 1], q);
    }
  }

  /**
   * Point-in-time reads: when bars are saved in receipt order, so that the first `n` are those received
   * by `t`, a read as of `t` on the final store is the plain read on the store after those `n`.
   */
  lemma {:induction false} BarsAsOf(rows: seq<BarRow>, n: nat, q: BarQuery, limit: int)
    requires n <= |rows| && q.asOf.Some?
    requires forall i :: 0 <= i < |rows| ==> (rows[i].bar.receivedAt <= q.asOf.value <==> i < n)
    ensures Bars(AddBars([], rows), q, limit) == Bars(AddBars([], rows[..n]), q.(asOf := None), limit)
  {
    assert rows == rows[..n] + rows[n..];
    AddBarsInParts([], rows[..n], rows[n..]);
    LaterSavesAreInvisible(AddBars([], rows[..n]), rows[n..], q, limit);
    var stored := AddBarsAppends([], rows[..n]);
    assert AddBars([], rows[..n]) == stored;
    forall i | 0 <= i < |stored|
      ensures stored[i].bar.receivedAt <= q.asOf.value
    {
      assert stored[i] in rows[..n];
    }
    AsOfIsNoFilter(stored, q);
  }

  ghost predicate FirstDelivery(rows: seq<BarRow>, k: nat, hash: nat)
    requires k < |rows|
  {
    rows[k].hash == hash && forall j :: 0 <= j < k ==> rows[j].hash != hash
  }

  /**
   * In any order of receipt, deduplication decides what is seen: the table holds, for each
   * fingerprint, the first delivery that carried it, with that delivery's receipt time.
   */
  lemma {:induction false} FirstDeliveryDecides(rows: seq<BarRow>, row: BarRow)
    ensures row in AddBars([], rows) <==> exists k :: 0 <= k < |rows| && rows[k] == row && FirstDelivery(rows, k, row.hash)
  {
    if rows != [] {
      var n := |rows| - 1;
      var init := rows[..n];
      FirstDeliveryDecides(init, row);
      AddedHash(init, rows[n].hash);
      forall k | 0 <= k < n
        ensures FirstDelivery(rows, k, row.hash) <==> FirstDelivery(init, k, row.hash)
      {
        assert forall j :: 0 <= j < n ==> rows[j] == init[j];
      }
      assert FirstDelivery(rows, n, row.hash) <==>
             rows[n].hash == row.hash && forall k :: 0 <= k < n ==> init[k].hash != row.hash;
    }
  }

  lemma {:induction false} AddedHash(rows: seq<BarRow>, hash: nat)
    ensures HasBar(AddBars([], rows), hash) <==> exists k :: 0 <= k < |rows| && rows[k].hash == hash
  {
    if rows != [] {
      var n := |rows| - 1;
      var before := AddBars([], rows[..n]);
      AddedHash(rows[..n], hash);
      if HasBar(before, hash) {
        var k :| 0 <= k < n && rows[..n][k].hash == hash;
        assert rows[k].hash == hash;
        var i :| 0 <= i < |before| && before[i].hash == hash;
        assert AddBars([], rows)[i] == before[i];
      } else if rows[n].hash == hash {
        assert AddBars([], rows)[|before|].hash == hash;
      }
    }
  }

  /** Delivery `j` brings a new observation that the query sees, for the start of `row`. */
  ghost predicate NewForStart(rows: seq<BarRow>, j: nat, q: BarQuery, row: BarRow)
    requires j < |rows|
  {
    FirstDelivery(rows, j, rows[j].hash) && BarVisible(rows[j], q) && rows[j].bar.timestamp == row.bar.timestamp
  }

  /**
   * In any order of delivery: a read shows a new observation for its start if and only if it is a newer
   * revision than every other new observation of that start.
   */
  lemma {:induction false} ShownIff(rows: seq<BarRow>, k: nat, q: BarQuery)
    requires k < |rows| && FirstDelivery(rows, k, rows[k].hash) && BarVisible(rows[k], q)
    ensures IsNewestRevision(AddBars([], rows), q, rows[k]) <==>
              forall j :: 0 <= j < |rows| && j != k && NewForStart(rows, j, q, rows[k]) ==> NewerRevision(rows[k], rows[j])
  {
    var table, row := AddBars([], rows), rows[k];
    FirstDeliveryDecides(rows, row);
    if IsNewestRevision(table, q, row) {
      forall j | 0 <= j < |rows| && j != k && NewForStart(rows, j, q, row)
        ensures NewerRevision(row, rows[j])
      {
        FirstDeliveryDecides(rows, rows[j]);
        FirstsDiffer(rows, j, k);
      }
    } else {
      var other :| other in table && BarVisible(other, q) && other.bar.timestamp == row.bar.timestamp
                   && other != row && !NewerRevision(row, other);
      FirstDeliveryDecides(rows, other);
      var j :| 0 <= j < |rows| && rows[j] == other && FirstDelivery(rows, j, other.hash);
      assert NewForStart(rows, j, q, row);
    }
  }

  lemma {:induction false} FirstsDiffer(rows: seq<BarRow>, j: nat, k: nat)
    requires j < |rows| && k < |rows| && j != k
    requires FirstDelivery(rows, j, rows[j].hash) && FirstDelivery(rows, k, rows[k].hash)
    ensures rows[j].hash != rows[k].hash
  {
    var a, b := if j < k then j else k, if j < k then k else j;
    assert rows[a].hash != rows[b].hash;
  }

  /** The bars of one start arrive at different times, as they do from successive fetches. */
  ghost predicate StartsInReceiptOrder(rows: seq<BarRow>, q: BarQuery) {
    forall i, j :: 0 <= i < j < |rows| && BarVisible(rows[i], q) && BarVisible(rows[j], q)
                   && rows[i].bar.timestamp == rows[j].bar.timestamp ==>
      rows[i].bar.receivedAt < rows[j].bar.receivedAt
  }

  /**
   * Not the newest delivery but the newest first delivery is shown: if the bars of each start arrive in
   * receipt order, a new observation is shown if and only if no other new one of its start came later.
   */
  lemma {:induction false} NewestFirstDeliveryIsShown(rows: seq<BarRow>, k: nat, q: BarQuery)
    requires StartsInReceiptOrder(rows, q)
    requires k < |rows| && FirstDelivery(rows, k, rows[k].hash) && BarVisible(rows[k], q)
    ensures IsNewestRevision(AddBars([], rows), q, rows[k]) <==>
              forall j :: k < j < |rows| ==> !NewForStart(rows, j, q, rows[k])
  {
    ShownIff(rows, k, q);
    forall j | 0 <= j < |rows| && j != k && NewForStart(rows, j, q, rows[k])
      ensures NewerRevision(rows[k], rows[j]) <==> j < k
    {
      if j < k {
        assert rows[j].bar.receivedAt < rows[k].bar.receivedAt;
      } else {
        assert rows[k].bar.receivedAt < rows[j].bar.receivedAt;
      }
    }
  }

  /** So a correction that is taken back is not seen: after `a`, its correction `b` and `a` again, `b` is shown. */
  lemma {:induction false} CorrectionTakenBackIsLost(a: BarRow, b: BarRow, again: BarRow, q: BarQuery)
    requires again.hash == a.hash != b.hash && BarVisible(b, q)
    requires a.bar.receivedAt < b.bar.receivedAt < again.bar.receivedAt
    ensures IsNewestRevision(AddBars([], [a, b, again]), q, b)
    ensures again !in AddBars([], [a, b, again])
  {
    var rows := [a, b, again];
    assert rows[0].hash == rows[2].hash;
    assert !FirstDelivery(rows, 2, rows[2].hash);
    ShownIff(rows, 1, q);
    FirstDeliveryDecides(rows, again);
  }

  // ---- the latest quote ----

  predicate QuoteVisible(row: QuoteRow, provider: string, symbol: string, asOf: Option<Time>) {
    && row.quote.provider == provider && row.quote.symbol == symbol
    && (asOf.Some? ==> row.quote.receivedAt <= asOf.value)
  }

  /** Later in the order of (effective time, received, processed, hash). */
  predicate QuoteAfter(a: QuoteRow, b: QuoteRow) {
    var x, y := EffectiveTime(a.quote), EffectiveTime(b.quote);
    x > y
    || (x == y
        && (a.quote.receivedAt > b.quote.receivedAt
            || (a.quote.receivedAt == b.quote.receivedAt
                && (a.quote.processedAt > b.quote.processedAt
                    || (a.quote.processedAt == b.quote.processedAt && a.hash > b.hash)))))
  }

  /** The first row of the ordered query. */
  function LatestRow(table: QuoteTable, provider: string, symbol: string, asOf: Option<Time>): Option<QuoteRow> {
    if table == [] then None
    else
      var best, last := LatestRow(table[..|table| - 1], provider, symbol, asOf), table[|table| - 1];
      if QuoteVisible(last, provider, symbol, asOf) && (best.None? || QuoteAfter(last, best.value)) then Some(last) else best
  }

  lemma {:induction false} LatestAppend(table: QuoteTable, row: QuoteRow, provider: string, symbol: string, asOf: Option<Time>)
    ensures var best := LatestRow(table, provider, symbol, asOf);
            LatestRow(table + [row], provider, symbol, asOf)
            == if QuoteVisible(row, provider, symbol, asOf) && (best.None? || QuoteAfter(row, best.value)) then Some(row) else best
  {
    assert (table + [row])[..|table|] == table;
  }

  /** `r` is the one visible row that no other visible row comes after, or None if there is no visible row. */
  ghost predicate IsLatest(r: Option<QuoteRow>, table: QuoteTable, provider: string, symbol: string, asOf: Option<Time>) {
    && (r.None? <==> forall row :: row in table ==> !QuoteVisible(row, provider, symbol, asOf))
    && (r.Some? ==>
         && r.value in table && QuoteVisible(r.value, provider, symbol, asOf)
         && forall row :: row in table && QuoteVisible(row, provider, symbol, asOf) ==>
              row == r.value || QuoteAfter(r.value, row))
  }

  lemma {:induction false} NextLatest(
      best: Option<QuoteRow>, table: QuoteTable, row: QuoteRow, provider: string, symbol: string, asOf: Option<Time>)
    requires IsLatest(best, table, provider, symbol, asOf)
    requires forall r :: r in table ==> r.hash != row.hash
    ensures var next := if QuoteVisible(row, provider, symbol, asOf) && (best.None? || QuoteAfter(row, best.value)) then Some(row) else best;
            IsLatest(next, table + [row], provider, symbol, asOf)
  {
    assert forall r :: r in table + [row] <==> r in table || r == row;
  }

  /** `latest_quote` finds the maximum of the visible rows. */
  lemma {:induction false} LatestIsMaximum(table: QuoteTable, provider: string, symbol: string, asOf: Option<Time>)
    requires DistinctQuotes(table)
    ensures IsLatest(LatestRow(table, provider, symbol, asOf), table, provider, symbol, asOf)
  {
    if table != [] {
      var init, last := table[..|table| - 1], table[|table| - 1];
      LatestIsMaximum(init, provider, symbol, asOf);
      assert table == init + [last];
      LatestAppend(init, last, provider, symbol, asOf);
      NextLatest(LatestRow(init, provider, symbol, asOf), init, last, provider, symbol, asOf);
    }
  }

  lemma {:induction false} AddQuoteKeepsDistinct(table: QuoteTable, row: QuoteRow)
    requires DistinctQuotes(table)
    ensures DistinctQuotes(AddQuote(table, row)) && HasQuote(AddQuote(table, row), row.hash)
  {
    if !HasQuote(table, row.hash) {
      assert AddQuote(table, row)[|table|].hash == row.hash;
    }
  }

  lemma {:induction false} AddQuotesInParts(table: QuoteTable, first: seq<QuoteRow>, second: seq<QuoteRow>)
    ensures AddQuotes(table, first + second) == AddQuotes(AddQuotes(table, first), second)
  {
    if second == [] {
      assert first + second == first;
    } else {
      var n, all := |second| - 1, first + second;
      assert all[..|all| - 1] == first + second[..n] && all[|all| - 1] == second[n];
      AddQuotesInParts(table, first, second[..n]);
    }
  }

  /** Quotes received after `t` never change the latest quote as of `t`. */
  lemma {:induction false} LaterQuotesAreInvisible(
      table: QuoteTable, rows: seq<QuoteRow>, provider: string, symbol: string, t: Time)
    requires forall r :: r in rows ==> r.quote.receivedAt > t
    ensures LatestRow(AddQuotes(table, rows), provider, symbol, Some(t)) == LatestRow(table, provider, symbol, Some(t))
  {
    if rows != [] {
      var init, last := rows[..|rows| - 1], rows[|rows| - 1];
      assert last in rows && forall r :: r in init ==> r in rows;
      LaterQuotesAreInvisible(table, init, provider, symbol, t);
      LatestAppend(AddQuotes(table, init), last, provider, symbol, Some(t));
    }
  }

  lemma {:induction false} AsOfCoversAll(rows: seq<QuoteRow>, provider: string, symbol: string, t: Time)
    requires forall r :: r in rows ==> r.quote.receivedAt <= t
    ensures LatestRow(AddQuotes([], rows), provider, symbol, Some(t)) == LatestRow(AddQuotes([], rows), provider, symbol, None)
  {
    if rows != [] {
      var init, last := rows[..|rows| - 1], rows[|rows| - 1];
      assert last in rows && forall r :: r in init ==> r in rows;
      AsOfCoversAll(init, provider, symbol, t);
      LatestAppend(AddQuotes([], init), last, provider, symbol, Some(t));
      LatestAppend(AddQuotes([], init), last, provider, symbol, None);
    }
  }

  /** Point-in-time reads of the latest quote, for quotes saved in receipt order. */
  lemma {:induction false} LatestAsOf(rows: seq<QuoteRow>, n: nat, provider: string, symbol: string, t: Time)
    requires n <= |rows|
    requires forall i :: 0 <= i < |rows| ==> (rows[i].quote.receivedAt <= t <==> i < n)
    ensures LatestRow(AddQuotes([], rows), provider, symbol, Some(t))
            == LatestRow(AddQuotes([], rows[..n]), provider, symbol, None)
  {
    assert rows == rows[..n] + rows[n..];
    AddQuotesInParts([], rows[..n], rows[n..]);
    LaterQuotesAreInvisible(AddQuotes([], rows[..n]), rows[n..], provider, symbol, t);
    AsOfCoversAll(rows[..n], provider, symbol, t);
  }
}
