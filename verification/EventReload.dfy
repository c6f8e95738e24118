/** What a reload and a version read give when the database returns the rows of all tables in any order. */
module EventReload {
  import opened Common
  import opened Contracts
  import opened EventClustering
  import opened EventLog
  import opened EventTables
  import opened EventRowOrder
  import opened StableSort

  ghost predicate SameRows(a: Tables, b: Tables) {
    && multiset(a.rawItems) == multiset(b.rawItems)
    && multiset(a.eventRows) == multiset(b.eventRows)
    && multiset(a.mentionRows) == multiset(b.mentionRows)
  }

  /** The rows that the database returns: its own, in the given order if it is one of theirs. */
  ghost function Returned(rows: Tables, tables: Tables): (r: Tables)
    ensures SameRows(r, tables)
  {
    if SameRows(rows, tables) then rows else tables
  }

  /** Equal but for the order of mentions received at one instant. */
  ghost predicate SameUpToTies(a: CanonicalEvent, b: CanonicalEvent) {
    && a.(mentions := b.mentions) == b
    && multiset(a.mentions) == multiset(b.mentions)
    && Sorted(a.mentions) && Sorted(b.mentions)
    && (DistinctTimes(b.mentions) ==> a == b)
  }

  lemma {:induction false} SameElements<T>(a: seq<T>, b: seq<T>)
    requires multiset(a) == multiset(b)
    ensures forall x :: x in a <==> x in b
  {
    assert forall x :: x in a <==> x in multiset(a);
    assert forall x :: x in b <==> x in multiset(b);
  }

  /** Mentions sorted out of the same rows are the same up to ties. */
  lemma {:induction false} SortsAreTied(row: EventRow, a: seq<EventMention>, b: seq<EventMention>)
    requires multiset(a) == multiset(b)
    ensures SameUpToTies(CanonicalOf(row, Sort(a)), CanonicalOf(row, Sort(b)))
  {
    SortPermutes(a);
    SortPermutes(b);
    SortIsStable(a);
    SortIsStable(b);
    if DistinctTimes(Sort(b)) {
      PermutationKeepsDistinct(Sort(b), a);
      DistinctTimesSortAlike(a, b);
    }
  }

  // ---- version reads ----

  lemma {:induction false} FindVersionIsAScan(rows: seq<EventRow>, id: EventId, v: nat)
    ensures var r := FindVersion(rows, id, v);
            && (r.None? <==> forall row :: row in rows ==> !(row.eventId == id && row.eventVersion == v))
            && (r.Some? ==> r.value in rows && r.value.eventId == id && r.value.eventVersion == v)
  {
    if rows != [] {
      FindVersionIsAScan(rows[..|rows| - 1], id, v);
      assert rows == rows[..|rows| - 1] + [rows[|rows| - 1]];
    }
  }

  /** A row in the tables of a log is that of a commit. */
  lemma {:induction false} RowOfCommit(log: Log, row: EventRow) returns (j: nat)
    requires Grown(log) && row in TablesOf(log).eventRows
    ensures j < |log| && row == RowOf(log[j].event)
    ensures Committed(log, row.eventId, row.eventVersion) == Some(log[j].event)
  {
    j :| 0 <= j < |log| && TablesOf(log).eventRows[j] == row;
    var id := log[j].event.eventId;
    History(log, id);
    var k := EntryIsInItsHistory(log, j);
    VersionFacts(EntriesOf(log, id), id, k);
  }

  lemma {:induction false} SameVersionRow(log: Log, t: Tables, id: EventId, v: nat)
    requires Grown(log) && SameRows(t, TablesOf(log))
    ensures FindVersion(t.eventRows, id, v) == StoredRow(Committed(log, id, v))
  {
    FindVersionInLog(log, id, v);
    FindVersionIsAScan(t.eventRows, id, v);
    FindVersionIsAScan(TablesOf(log).eventRows, id, v);
    SameElements(t.eventRows, TablesOf(log).eventRows);
    var r := FindVersion(t.eventRows, id, v);
    if r.Some? {
      var j := RowOfCommit(log, r.value);
    }
  }

  /** In any row order a version read gives what was committed, up to ties, and None for nothing else. */
  lemma {:induction false} TimeTravelInAnyOrder(log: Log, t: Tables, id: EventId, v: nat)
    requires Grown(log) && SameRows(t, TablesOf(log))
    ensures var event := LoadEventVersion(t, id, v);
            && (event.None? <==> Committed(log, id, v).None?)
            && (event.Some? ==> SameUpToTies(event.value, Committed(log, id, v).value))
  {
    TimeTravel(log, id, v);
    SameVersionRow(log, t, id, v);
    FindVersionInLog(log, id, v);
    var row := FindVersion(t.eventRows, id, v);
    if row.Some? {
      var a, b := MentionsFor(t.mentionRows, id, Some(v)), MentionsFor(TablesOf(log).mentionRows, id, Some(v));
      SameRowsSameMentions(t.mentionRows, TablesOf(log).mentionRows, id, Some(v));
      SortsAreTied(row.value, a, b);
    }
  }

  // ---- the join ----

  lemma {:induction false} FindItemIn(rows: seq<RawItemRow>, row: RawItemRow)
    requires row in rows && forall r :: r in rows && r.id == row.id ==> r == row
    ensures FindItem(rows, row.id) == Some(row)
  {
    var last := rows[|rows| - 1];
    if last.id != row.id {
      assert rows == rows[..|rows| - 1] + [last];
      FindItemIn(rows[..|rows| - 1], row);
    }
  }

  lemma {:induction false} JoinKeepsOrder(mentionRows: seq<EventMentionRow>, rawItems: seq<RawItemRow>)
    requires forall m :: m in mentionRows ==> FindItem(rawItems, m.rawItemId).Some?
    ensures |Joined(mentionRows, rawItems)| == |mentionRows|
    ensures forall k :: 0 <= k < |mentionRows| ==>
              Joined(mentionRows, rawItems)[k] == (mentionRows[k], FindItem(rawItems, mentionRows[k].rawItemId).value)
  {
    if mentionRows != [] {
      var init, last := mentionRows[..|mentionRows| - 1], mentionRows[|mentionRows| - 1];
      assert mentionRows == init + [last];
      JoinKeepsOrder(init, rawItems);
    }
  }

  /** Each mention row is joined with the item of its commit. */
  lemma {:induction false} MentionOfCommit(log: Log, t: Tables, m: EventMentionRow) returns (i: nat)
    requires Grown(log) && SameRows(t, TablesOf(log)) && m in t.mentionRows
    ensures i < |log| && m == TablesOf(log).mentionRows[i]
    ensures FindItem(t.rawItems, m.rawItemId) == Some(log[i].env)
  {
    SameElements(t.mentionRows, TablesOf(log).mentionRows);
    SameElements(t.rawItems, TablesOf(log).rawItems);
    i :| 0 <= i < |log| && TablesOf(log).mentionRows[i] == m;
    ItemIsUnique(log, i);
    assert TablesOf(log).rawItems[i] == log[i].env;
    FindItemIn(t.rawItems, log[i].env);
  }

  lemma {:induction false} ItemIsUnique(log: Log, i: nat)
    requires Grown(log) && i < |log|
    ensures forall r :: r in TablesOf(log).rawItems && r.id == log[i].env.id ==> r == log[i].env
  {
    GrownHasDistinctItems(log);
    forall r | r in TablesOf(log).rawItems && r.id == log[i].env.id
      ensures r == log[i].env
    {
      var j :| 0 <= j < |log| && TablesOf(log).rawItems[j] == r;
      SameItem(log, i, j);
    }
  }

  lemma {:induction false} ItemsInAnyOrder(log: Log, t: Tables)
    requires Grown(log) && SameRows(t, TablesOf(log))
    ensures MentionSide(Joined(t.mentionRows, t.rawItems)) == t.mentionRows
    ensures forall item :: item in LoadState(t).items <==> item in ItemsOf(log)
  {
    forall m | m in t.mentionRows
      ensures FindItem(t.rawItems, m.rawItemId).Some?
    {
      var i := MentionOfCommit(log, t, m);
    }
    JoinKeepsOrder(t.mentionRows, t.rawItems);
    forall item | item in LoadState(t).items
      ensures item in ItemsOf(log)
    {
      var k :| 0 <= k < |LoadState(t).items| && LoadState(t).items[k] == item;
      var i := MentionOfCommit(log, t, t.mentionRows[k]);
      assert item == ItemsOf(log)[i];
    }
    SameElements(t.mentionRows, TablesOf(log).mentionRows);
    forall i | 0 <= i < |log|
      ensures ItemsOf(log)[i] in LoadState(t).items
    {
      var m := TablesOf(log).mentionRows[i];
      assert m in t.mentionRows;
      var k :| 0 <= k < |t.mentionRows| && t.mentionRows[k] == m;
      var j := MentionOfCommit(log, t, m);
      GrownHasDistinctItems(log);
      SameItem(log, i, j);
      assert LoadState(t).items[k] == ItemsOf(log)[i];
    }
  }

  // ---- the indexes of items ----

  function ItemKey(item: StoredItemIndex): IdentityKey {
    (item.provider, item.sourceId, Identity(item.nativeId, item.contentHash))
  }

  /** Items with one key belong to one event. */
  ghost predicate KeysTellEvents(items: seq<StoredItemIndex>) {
    forall a, b :: a in items && b in items && ItemKey(a) == ItemKey(b) ==> a.eventId == b.eventId
  }

  lemma {:induction false} IdentitiesAreAScan(items: seq<StoredItemIndex>, key: IdentityKey)
    requires KeysTellEvents(items)
    ensures key in Identities(items) <==> exists item :: item in items && ItemKey(item) == key
    ensures forall item :: item in items && ItemKey(item) == key ==> Identities(items)[key] == item.eventId
  {
    if items != [] {
      var init, last := items[..|items| - 1], items[|items| - 1];
      assert items == init + [last];
      IdentitiesAreAScan(init, key);
    }
  }

  lemma {:induction false} ContentHashesAreAScan(items: seq<StoredItemIndex>, hash: string, id: EventId)
    ensures hash in ContentHashes(items) <==> exists item :: item in items && item.contentHash == hash
    ensures id in ExactIds(ContentHashes(items), hash)
            <==> exists item :: item in items && item.contentHash == hash && item.eventId == id
  {
    if items != [] {
      var init, last := items[..|items| - 1], items[|items| - 1];
      assert items == init + [last];
      ContentHashesAreAScan(init, hash, id);
    }
  }

  lemma {:induction false} SameItemsSameIdentities(a: seq<StoredItemIndex>, b: seq<StoredItemIndex>)
    requires KeysTellEvents(b) && forall item :: item in a <==> item in b
    ensures Identities(a) == Identities(b)
  {
    forall key
      ensures key in Identities(a) <==> key in Identities(b)
      ensures key in Identities(a) ==> Identities(a)[key] == Identities(b)[key]
    {
      IdentitiesAreAScan(a, key);
      IdentitiesAreAScan(b, key);
    }
  }

  lemma {:induction false} SameItemsSameHashes(a: seq<StoredItemIndex>, b: seq<StoredItemIndex>)
    requires forall item :: item in a <==> item in b
    ensures ContentHashes(a) == ContentHashes(b)
  {
    forall hash
      ensures hash in ContentHashes(a) <==> hash in ContentHashes(b)
      ensures ExactIds(ContentHashes(a), hash) == ExactIds(ContentHashes(b), hash)
    {
      ContentHashesAreAScan(a, hash, 0);
      ContentHashesAreAScan(b, hash, 0);
      forall id
        ensures id in ExactIds(ContentHashes(a), hash) <==> id in ExactIds(ContentHashes(b), hash)
      {
        ContentHashesAreAScan(a, hash, id);
        ContentHashesAreAScan(b, hash, id);
      }
    }
    forall hash | hash in ContentHashes(a)
      ensures ContentHashes(a)[hash] == ContentHashes(b)[hash]
    {
      assert ExactIds(ContentHashes(a), hash) == ExactIds(ContentHashes(b), hash);
    }
  }

  lemma {:induction false} LogKeysTellEvents(log: Log)
    requires Distinct(log)
    ensures KeysTellEvents(ItemsOf(log))
  {
    forall a, b | a in ItemsOf(log) && b in ItemsOf(log) && ItemKey(a) == ItemKey(b)
      ensures a.eventId == b.eventId
    {
      var i :| 0 <= i < |log| && ItemsOf(log)[i] == a;
      var j :| 0 <= j < |log| && ItemsOf(log)[j] == b;
      assert KeyOf(log[i].env) == ItemKey(a) && KeyOf(log[j].env) == ItemKey(b);
    }
  }

  // ---- the live events ----

  /** The event as read back from the rows `t` of a log. */
  ghost function Reread(log: Log, t: Tables, id: EventId): CanonicalEvent
    requires id in Index(log).events
  {
    CanonicalOf(RowOf(Index(log).events[id]), Sort(MentionsFor(t.mentionRows, id, None)))
  }

  ghost function RereadAll(log: Log, t: Tables): map<EventId, CanonicalEvent> {
    map id | id in Index(log).events :: Reread(log, t, id)
  }

  lemma {:induction false} RereadIsTied(log: Log, t: Tables, id: EventId)
    requires Grown(log) && SameRows(t, TablesOf(log)) && id in Index(log).events
    ensures Index(log).events[id].eventId == id
    ensures SameUpToTies(Reread(log, t, id), Index(log).events[id])
  {
    History(log, id);
    var h := EntriesOf(log, id);
    var j := HistoryIsInTheLog(log, id, |h| - 1);
    LatestEventInLog(log, j);
    SameRowsSameMentions(t.mentionRows, TablesOf(log).mentionRows, id, None);
    SortsAreTied(
      RowOf(Index(log).events[id]), MentionsFor(t.mentionRows, id, None), MentionsFor(TablesOf(log).mentionRows, id, None));
  }

  /** Row `i` is the latest of its event, and reads as `e`. */
  ghost predicate LoadedFrom(rows: seq<EventRow>, i: nat, mentionRows: seq<EventMentionRow>, e: CanonicalEvent)
    requires i < |rows|
  {
    IsLatest(rows, rows[i]) && e == CanonicalOf(rows[i], Sort(MentionsFor(mentionRows, rows[i].eventId, None)))
  }

  lemma {:induction false} LatestEventsAreAScan(rows: seq<EventRow>, n: nat, mentionRows: seq<EventMentionRow>, e: CanonicalEvent)
    requires n <= |rows|
    ensures e in LatestEvents(rows, n, mentionRows)
            <==> exists i :: 0 <= i < n && LoadedFrom(rows, i, mentionRows, e)
  {
    if n > 0 {
      var k := n - 1;
      LatestEventsAreAScan(rows, k, mentionRows, e);
      LastRowLoaded(rows, k, mentionRows, e);
      assert n == k + 1;
    }
  }

  lemma {:induction false} LastRowLoaded(rows: seq<EventRow>, k: nat, mentionRows: seq<EventMentionRow>, e: CanonicalEvent)
    requires k < |rows|
    ensures e in LatestEvents(rows, k + 1, mentionRows)
            <==> e in LatestEvents(rows, k, mentionRows) || LoadedFrom(rows, k, mentionRows, e)
  {
  }

  lemma {:induction false} LatestInAnyOrder(a: seq<EventRow>, b: seq<EventRow>, row: EventRow)
    requires multiset(a) == multiset(b)
    ensures IsLatest(a, row) <==> IsLatest(b, row)
  {
    SameElements(a, b);
    forall i | 0 <= i < |a|
      ensures a[i] in b
    {
      assert a[i] in a;
    }
    forall i | 0 <= i < |b|
      ensures b[i] in a
    {
      assert b[i] in b;
    }
  }

  lemma {:induction false} LoadedIsReread(log: Log, t: Tables, e: CanonicalEvent)
    requires Grown(log) && SameRows(t, TablesOf(log)) && e in LatestEvents(t.eventRows, |t.eventRows|, t.mentionRows)
    ensures e.eventId in Index(log).events && e == Reread(log, t, e.eventId)
  {
    var rows := t.eventRows;
    LatestEventsAreAScan(rows, |rows|, t.mentionRows, e);
    var i :| 0 <= i < |rows| && LoadedFrom(rows, i, t.mentionRows, e);
    SameElements(rows, TablesOf(log).eventRows);
    var j := RowOfCommit(log, rows[i]);
    LatestInAnyOrder(rows, TablesOf(log).eventRows, rows[i]);
    LatestRowInLog(log, j);
  }

  lemma {:induction false} RereadIsLoaded(log: Log, t: Tables, id: EventId)
    requires Grown(log) && SameRows(t, TablesOf(log)) && id in Index(log).events
    ensures Reread(log, t, id) in LatestEvents(t.eventRows, |t.eventRows|, t.mentionRows)
  {
    History(log, id);
    var h := EntriesOf(log, id);
    var j := HistoryIsInTheLog(log, id, |h| - 1);
    RereadIsTied(log, t, id);
    LatestRowInLog(log, j);
    var row := RowOf(log[j].event);
    assert TablesOf(log).eventRows[j] == row && row in TablesOf(log).eventRows;
    SameElements(t.eventRows, TablesOf(log).eventRows);
    var i :| 0 <= i < |t.eventRows| && t.eventRows[i] == row;
    LatestInAnyOrder(t.eventRows, TablesOf(log).eventRows, row);
    assert LoadedFrom(t.eventRows, i, t.mentionRows, Reread(log, t, id));
    LatestEventsAreAScan(t.eventRows, |t.eventRows|, t.mentionRows, Reread(log, t, id));
  }

  lemma {:induction false} EventsInAnyOrder(log: Log, t: Tables)
    requires Grown(log) && SameRows(t, TablesOf(log))
    ensures var events, all := LatestEvents(t.eventRows, |t.eventRows|, t.mentionRows), RereadAll(log, t);
            && EventsById(events) == all
            && (forall id, v :: (id, v) in VersionsById(events) <==> id in all && all[id].eventVersion == v)
            && (forall id, v :: (id, v) in VersionsById(events) ==> VersionsById(events)[(id, v)] == all[id])
  {
    var events, all := LatestEvents(t.eventRows, |t.eventRows|, t.mentionRows), RereadAll(log, t);
    forall e | e in events
      ensures e.eventId in all && all[e.eventId] == e
    {
      LoadedIsReread(log, t, e);
    }
    forall id | id in all
      ensures all[id] in events && all[id].eventId == id
    {
      RereadIsLoaded(log, t, id);
      RereadIsTied(log, t, id);
    }
    ByIdOfEvents(events, all);
    assert EventsById(events) == all;
  }

  /**
   * Whatever the order of the rows in all three tables: a reload gives the identities and content hashes
   * that ingest maintains, and its events up to the order of mentions received at one instant.
   */
  lemma {:induction false} ReloadOnlyMovesTies(log: Log, t: Tables)
    requires Reachable(log) && SameRows(t, TablesOf(log))
    ensures var mem := Rebuild(LoadState(t));
            && mem.byIdentity == Index(log).byIdentity
            && mem.byContentHash == Index(log).byContentHash
            && mem.events.Keys == Index(log).events.Keys
            && (forall id :: id in mem.events ==> SameUpToTies(mem.events[id], Index(log).events[id]))
            && (forall id, v :: (id, v) in mem.versions ==>
                 id in mem.events && mem.events[id].eventVersion == v && mem.versions[(id, v)] == mem.events[id])
  {
    ReachableIsGrown(log);
    ReachableIsDistinct(log);
    ItemsInAnyOrder(log, t);
    LogKeysTellEvents(log);
    SameItemsSameIdentities(LoadState(t).items, ItemsOf(log));
    SameItemsSameHashes(LoadState(t).items, ItemsOf(log));
    IndexesOfItems(log);
    EventsInAnyOrder(log, t);
    forall id | id in Index(log).events
      ensures SameUpToTies(RereadAll(log, t)[id], Index(log).events[id])
    {
      RereadIsTied(log, t, id);
    }
  }
}
