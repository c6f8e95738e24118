/**
 * The tables of `SqlEventRepository`: what `save` writes and what `load_state` and
 * `load_event_version` read back, as functions on rows in insertion order.
 */
module EventTables {
  import opened Common
  import opened Contracts
  import opened EventClustering
  import opened EventLog
  import StableSort

  /** Every modelled field of an item is stored, so its row is the item. */
  type RawItemRow = RawEnvelope

  /** A `CanonicalEvent` without its mentions. */
  datatype EventRow = EventRow(
    eventId: EventId,
    eventVersion: nat,
    versionCreatedAt: Time,
    canonicalTitle: string,
    eventType: string,
    eventTime: Option<Time>,
    firstReceivedAt: Time,
    lastUpdatedAt: Time,
    language: string,
    sourceIndependence: nat)

  /** `eventVersion` is the version that added the mention. */
  datatype EventMentionRow = EventMentionRow(
    rawItemId: RawItemId,
    eventId: EventId,
    eventVersion: nat,
    sourceId: string,
    independenceGroup: string,
    publishedAt: Option<Time>,
    receivedAt: Time)

  datatype Tables = Tables(
    rawItems: seq<RawItemRow>,
    eventRows: seq<EventRow>,
    mentionRows: seq<EventMentionRow>)

  const EMPTY_TABLES := Tables([], [], [])

  datatype SaveError = MissingMention | UniqueIndexViolated | DatabaseUnavailable

  // ---- save ----

  /** `session.merge`: overwrite the row with the same primary key, or add a row. */
  function Merge<R>(rows: seq<R>, row: R, sameKey: (R, R) -> bool): seq<R> {
    if rows == [] then [row]
    else if sameKey(rows[0], row) then [row] + rows[1..]
    else [rows[0]] + Merge(rows[1..], row, sameKey)
  }

  const SameItemKey := (a: RawItemRow, b: RawItemRow) => a.id == b.id
  const SameVersionKey := (a: EventRow, b: EventRow) => a.eventId == b.eventId && a.eventVersion == b.eventVersion
  const SameMentionKey := (a: EventMentionRow, b: EventMentionRow) => a.rawItemId == b.rawItemId

  /** The two partial unique indexes of `raw_items`. */
  predicate Collides(row: RawItemRow, env: RawEnvelope) {
    && row.id != env.id && row.provider == env.provider && row.sourceId == env.sourceId
    && row.nativeId == env.nativeId
    && (env.nativeId.None? ==> row.contentHash == env.contentHash)
  }

  predicate UniqueIndexesHold(rawItems: seq<RawItemRow>, env: RawEnvelope) {
    forall i :: 0 <= i < |rawItems| ==> !Collides(rawItems[i], env)
  }

  function FirstMention(mentions: seq<EventMention>, item: RawItemId): Option<EventMention> {
    if mentions == [] then None
    else if mentions[0].rawItemId == item then Some(mentions[0])
    else FirstMention(mentions[1..], item)
  }

  function RowOf(event: CanonicalEvent): EventRow {
    EventRow(
      event.eventId, event.eventVersion, event.versionCreatedAt, event.canonicalTitle, event.eventType,
      event.eventTime, event.firstReceivedAt, event.lastUpdatedAt, event.language, event.sourceIndependence)
  }

  function MentionRowOf(m: EventMention, event: CanonicalEvent): EventMentionRow {
    EventMentionRow(
      m.rawItemId, event.eventId, event.eventVersion, m.sourceId, m.independenceGroup, m.publishedAt, m.receivedAt)
  }

  /** One transaction; `available` says whether the database goes along. */
  function Save(tables: Tables, env: RawEnvelope, event: CanonicalEvent, available: bool): Result<Tables, SaveError> {
    var current := FirstMention(event.mentions, env.id);
    if current.None? then Err(MissingMention)
    else if !UniqueIndexesHold(tables.rawItems, env) then Err(UniqueIndexViolated)
    else if !available then Err(DatabaseUnavailable)
    else Ok(Tables(
      Merge(tables.rawItems, env, SameItemKey),
      Merge(tables.eventRows, RowOf(event), SameVersionKey),
      Merge(tables.mentionRows, MentionRowOf(current.value, event), SameMentionKey)))
  }

  // ---- load ----

  function MentionOfRow(row: EventMentionRow): EventMention {
    EventMention(row.rawItemId, row.sourceId, row.independenceGroup, row.publishedAt, row.receivedAt)
  }

  function CanonicalOf(row: EventRow, mentions: seq<EventMention>): CanonicalEvent {
    CanonicalEvent(
      row.eventId, row.eventVersion, row.versionCreatedAt, row.canonicalTitle, row.eventType,
      row.eventTime, row.firstReceivedAt, row.lastUpdatedAt, row.language, row.sourceIndependence, mentions)
  }

  /** The mentions of one event, of versions up to `upTo` if it is given. */
  function MentionsFor(rows: seq<EventMentionRow>, id: EventId, upTo: Option<nat>): seq<EventMention> {
    if rows == [] then []
    else
      var last := rows[|rows| - 1];
      MentionsFor(rows[..|rows| - 1], id, upTo)
      + if last.eventId == id && (upTo.Some? ==> last.eventVersion <= upTo.value) then [MentionOfRow(last)] else []
  }

  function FindVersion(rows: seq<EventRow>, id: EventId, v: nat): Option<EventRow> {
    if rows == [] then None
    else
      var last := rows[|rows| - 1];
      if last.eventId == id && last.eventVersion == v then Some(last) else FindVersion(rows[..|rows| - 1], id, v)
  }

  function LoadEventVersion(tables: Tables, id: EventId, v: nat): Option<CanonicalEvent> {
    match FindVersion(tables.eventRows, id, v)
    case None => None
    case Some(row) => Some(CanonicalOf(row, StableSort.Sort(MentionsFor(tables.mentionRows, id, Some(v)))))
  }

  function FindItem(rows: seq<RawItemRow>, item: RawItemId): Option<RawItemRow> {
    if rows == [] then None
    else if rows[|rows| - 1].id == item then Some(rows[|rows| - 1])
    else FindItem(rows[..|rows| - 1], item)
  }

  /** The inner join of mentions with their raw items. */
  function Joined(mentionRows: seq<EventMentionRow>, rawItems: seq<RawItemRow>): seq<(EventMentionRow, RawItemRow)> {
    if mentionRows == [] then []
    else
      var last := mentionRows[|mentionRows| - 1];
      var item := FindItem(rawItems, last.rawItemId);
      Joined(mentionRows[..|mentionRows| - 1], rawItems) + if item.Some? then [(last, item.value)] else []
  }

  function MentionSide(joined: seq<(EventMentionRow, RawItemRow)>): seq<EventMentionRow> {
    seq(|joined|, i requires 0 <= i < |joined| => joined[i].0)
  }

  datatype StoredItemIndex = StoredItemIndex(
    provider: string, sourceId: string, nativeId: Option<string>, contentHash: string, eventId: EventId)

  function StoredItem(pair: (EventMentionRow, RawItemRow)): StoredItemIndex {
    StoredItemIndex(pair.1.provider, pair.1.sourceId, pair.1.nativeId, pair.1.contentHash, pair.0.eventId)
  }

  datatype PersistedEventState = PersistedEventState(events: seq<CanonicalEvent>, items: seq<StoredItemIndex>)

  /** The row carries the greatest version of its event. */
  predicate IsLatest(rows: seq<EventRow>, row: EventRow) {
    forall i :: 0 <= i < |rows| && rows[i].eventId == row.eventId ==> rows[i].eventVersion <= row.eventVersion
  }

  function LatestEvents(rows: seq<EventRow>, n: nat, mentionRows: seq<EventMentionRow>): seq<CanonicalEvent>
    requires n <= |rows|
  {
    if n == 0 then []
    else
      var row := rows[n - 1];
      LatestEvents(rows, n - 1, mentionRows)
      + if IsLatest(rows, row)
        then [CanonicalOf(row, StableSort.Sort(MentionsFor(mentionRows, row.eventId, None)))]
        else []
  }

  function LoadState(tables: Tables): PersistedEventState {
    var joined := Joined(tables.mentionRows, tables.rawItems);
    PersistedEventState(
      LatestEvents(tables.eventRows, |tables.eventRows|, MentionSide(joined)),
      seq(|joined|, i requires 0 <= i < |joined| => StoredItem(joined[i])))
  }

  // ---- refresh ----

  function EventsById(events: seq<CanonicalEvent>): (m: map<EventId, CanonicalEvent>)
    ensures Filed(m)
  {
    if events == [] then map[]
    else
      var last := events[|events| - 1];
      EventsById(events[..|events| - 1])[last.eventId := last]
  }

  function VersionsById(events: seq<CanonicalEvent>): map<(EventId, nat), CanonicalEvent> {
    if events == [] then map[]
    else
      var last := events[|events| - 1];
      VersionsById(events[..|events| - 1])[(last.eventId, last.eventVersion) := last]
  }

  function Identities(items: seq<StoredItemIndex>): map<IdentityKey, EventId> {
    if items == [] then map[]
    else
      var last := items[|items| - 1];
      Identities(items[..|items| - 1])
        [(last.provider, last.sourceId, Identity(last.nativeId, last.contentHash)) := last.eventId]
  }

  function ContentHashes(items: seq<StoredItemIndex>): map<string, set<EventId>> {
    if items == [] then map[]
    else
      var last := items[|items| - 1];
      var before := ContentHashes(items[..|items| - 1]);
      before[last.contentHash := ExactIds(before, last.contentHash) + {last.eventId}]
  }

  function Rebuild(state: PersistedEventState): Memory {
    Memory(EventsById(state.events), VersionsById(state.events), Identities(state.items), ContentHashes(state.items))
  }

  // ---- the tables of a log ----

  /** What a log of commits leaves in the tables: one row per commit in each of them. */
  ghost function TablesOf(log: Log): Tables {
    Tables(
      seq(|log|, i requires 0 <= i < |log| => log[i].env),
      seq(|log|, i requires 0 <= i < |log| => RowOf(log[i].event)),
      seq(|log|, i requires 0 <= i < |log| => MentionRowOf(MentionOf(log[i].env), log[i].event)))
  }

  lemma {:induction false} TablesOfAppend(log: Log, entry: Entry)
    ensures TablesOf(log + [entry])
            == Tables(
              TablesOf(log).rawItems + [entry.env],
              TablesOf(log).eventRows + [RowOf(entry.event)],
              TablesOf(log).mentionRows + [MentionRowOf(MentionOf(entry.env), entry.event)])
  {
  }

  lemma {:induction false} MergeFresh<R>(rows: seq<R>, row: R, sameKey: (R, R) -> bool)
    requires forall i :: 0 <= i < |rows| ==> !sameKey(rows[i], row)
    ensures Merge(rows, row, sameKey) == rows + [row]
  {
    if rows != [] {
      assert !sameKey(rows[0], row);
      MergeFresh(rows[1..], row, sameKey);
    }
  }

  lemma {:induction false} OnlyMention(mentions: seq<EventMention>, m: EventMention)
    requires m in mentions
    requires forall x :: x in mentions && x.rawItemId == m.rawItemId ==> x == m
    ensures FirstMention(mentions, m.rawItemId) == Some(m)
  {
    if mentions[0].rawItemId != m.rawItemId {
      OnlyMention(mentions[1..], m);
    } else {
      assert mentions[0] in mentions;
    }
  }

  lemma {:induction false} NewMentionIsFound(log: Log, entry: Entry)
    requires Grown(log) && Follows(log, entry)
    ensures FirstMention(entry.event.mentions, entry.env.id) == Some(MentionOf(entry.env))
  {
    NewMentionIsOnly(log, entry);
    OnlyMention(entry.event.mentions, MentionOf(entry.env));
  }

  /** The new mention is the only one of its item. */
  lemma {:induction false} NewMentionIsOnly(log: Log, entry: Entry)
    requires Grown(log) && Follows(log, entry)
    ensures MentionOf(entry.env) in entry.event.mentions
    ensures forall x :: x in entry.event.mentions && x.rawItemId == entry.env.id ==> x == MentionOf(entry.env)
  {
    var longer, id := log + [entry], entry.event.eventId;
    CommitGrows(log, entry);
    AppendIsGrown(log, entry);
    Append(log, entry);
    History(longer, id);
    GrownHasDistinctItems(longer);
    var h := EntriesOf(longer, id);
    var n := |h| - 1;
    VersionFacts(h, id, n);
    assert h[..n + 1] == h && h[n] == entry;
    var ms := MentionsOf(h);
    StableSort.SortPermutes(ms);
    assert ms[n] == MentionOf(entry.env);
    forall x | x in ms && x.rawItemId == entry.env.id
      ensures x == ms[n]
    {
      var k :| 0 <= k < |ms| && ms[k] == x;
      var j := HistoryIsInTheLog(longer, id, k);
      SameItem(longer, j, |log|);
    }
  }

  lemma {:induction false} VersionIsNew(log: Log, entry: Entry, i: nat)
    requires Grown(log) && Follows(log, entry) && i < |log|
    ensures !SameVersionKey(RowOf(log[i].event), RowOf(entry.event))
  {
    var longer, id := log + [entry], entry.event.eventId;
    if log[i].event.eventId == id {
      CommitGrows(log, entry);
      AppendIsGrown(log, entry);
      Append(log, entry);
      History(longer, id);
      var k := EntryIsInItsHistory(log, i);
      VersionFacts(EntriesOf(longer, id), id, k);
      VersionFacts(EntriesOf(longer, id), id, |EntriesOf(log, id)|);
    }
  }

  /** Saving what an up-to-date service decided appends one row to each table, and overwrites none. */
  lemma {:induction false} SaveAppends(log: Log, entry: Entry)
    requires Grown(log) && Follows(log, entry)
    requires UniqueIndexesHold(TablesOf(log).rawItems, entry.env)
    ensures Save(TablesOf(log), entry.env, entry.event, true) == Ok(TablesOf(log + [entry]))
  {
    var tables := TablesOf(log);
    NewMentionIsFound(log, entry);
    TablesOfAppend(log, entry);
    assert forall i :: 0 <= i < |log| ==> log[i] in log;
    MergeFresh(tables.rawItems, entry.env, SameItemKey);
    MergeFresh(tables.mentionRows, MentionRowOf(MentionOf(entry.env), entry.event), SameMentionKey);
    forall i | 0 <= i < |log|
      ensures !SameVersionKey(tables.eventRows[i], RowOf(entry.event))
    {
      VersionIsNew(log, entry, i);
    }
    MergeFresh(tables.eventRows, RowOf(entry.event), SameVersionKey);
  }

  /** The only items with an unknown key that the unique indexes refuse carry an empty native id. */
  lemma {:induction false} RefusedByUniqueIndex(log: Log, env: RawEnvelope)
    requires KeyOf(env) !in Index(log).byIdentity
    requires forall e :: e in log ==> e.env.id != env.id
    ensures !UniqueIndexesHold(TablesOf(log).rawItems, env)
            <==> env.nativeId == Some("")
                 && exists i :: 0 <= i < |log| && log[i].env.nativeId == Some("")
                                && log[i].env.provider == env.provider && log[i].env.sourceId == env.sourceId
  {
    var rows := TablesOf(log).rawItems;
    KeysAreAScan(log, KeyOf(env));
    assert forall i :: 0 <= i < |log| ==> rows[i] == log[i].env && log[i] in log;
    forall i | 0 <= i < |log|
      ensures Collides(rows[i], env)
              <==> env.nativeId == Some("") && log[i].env.nativeId == Some("")
                   && log[i].env.provider == env.provider && log[i].env.sourceId == env.sourceId
    {
      assert KeyOf(log[i].env) != KeyOf(env);
    }
  }

  // ---- time travel ----

  lemma {:induction false} FindVersionAppend(rows: seq<EventRow>, row: EventRow, id: EventId, v: nat)
    ensures FindVersion(rows + [row], id, v)
            == if row.eventId == id && row.eventVersion == v then Some(row) else FindVersion(rows, id, v)
  {
    assert (rows + [row])[..|rows|] == rows;
  }

  ghost function StoredRow(event: Option<CanonicalEvent>): Option<EventRow> {
    if event.Some? then Some(RowOf(event.value)) else None
  }

  lemma {:induction false} FindVersionInLog(log: Log, id: EventId, v: nat)
    requires Grown(log)
    ensures FindVersion(TablesOf(log).eventRows, id, v) == StoredRow(Committed(log, id, v))
  {
    if log != [] {
      var before, entry := log[..|log| - 1], log[|log| - 1];
      PrefixIsGrown(log, |before|);
      FindVersionInLog(before, id, v);
      assert log == before + [entry];
      TablesOfAppend(before, entry);
      FindVersionAppend(TablesOf(before).eventRows, RowOf(entry.event), id, v);
      VersionOfLast(log);
      CommittedAppend(before, entry, id, v);
    }
  }

  ghost function FirstVersions(h: seq<Entry>, upTo: Option<nat>): seq<Entry> {
    if upTo.Some? && upTo.value < |h| then h[..upTo.value] else h
  }

  lemma {:induction false} MentionsGrow(h: seq<Entry>, entry: Entry, upTo: Option<nat>)
    ensures MentionsOf(FirstVersions(h + [entry], upTo))
            == MentionsOf(FirstVersions(h, upTo))
               + if upTo.Some? ==> |h| + 1 <= upTo.value then [MentionOf(entry.env)] else []
  {
    if upTo.Some? && upTo.value <= |h| {
      assert FirstVersions(h + [entry], upTo) == FirstVersions(h, upTo);
    }
  }

  lemma {:induction false} MentionsForAppend(rows: seq<EventMentionRow>, row: EventMentionRow, id: EventId, upTo: Option<nat>)
    ensures MentionsFor(rows + [row], id, upTo)
            == MentionsFor(rows, id, upTo)
               + if row.eventId == id && (upTo.Some? ==> row.eventVersion <= upTo.value) then [MentionOfRow(row)] else []
  {
    assert (rows + [row])[..|rows|] == rows;
  }

  /** The mention rows up to version `v` are the mentions of the first `v` commits of the event. */
  lemma {:induction false} MentionsInLog(log: Log, id: EventId, upTo: Option<nat>)
    requires Grown(log)
    ensures MentionsFor(TablesOf(log).mentionRows, id, upTo) == MentionsOf(FirstVersions(EntriesOf(log, id), upTo))
  {
    if log != [] {
      var before, entry := LastGrowth(log);
      MentionsInLog(before, id, upTo);
      assert TablesOf(log).mentionRows
          == TablesOf(before).mentionRows + [MentionRowOf(MentionOf(entry.env), entry.event)] by {
        TablesOfAppend(before, entry);
        assert log == before + [entry];
      }
      MentionsForAppend(TablesOf(before).mentionRows, MentionRowOf(MentionOf(entry.env), entry.event), id, upTo);
      if entry.event.eventId == id {
        MentionsGrow(EntriesOf(before, id), entry, upTo);
        assert entry.event.eventVersion == |EntriesOf(before, id)| + 1 by {
          History(log, id);
          VersionFacts(EntriesOf(log, id), id, |EntriesOf(before, id)|);
        }
      } else {
        assert EntriesOf(log, id) == EntriesOf(before, id);
      }
    }
  }

  /** `load_event_version` returns the very event that was committed as that version, or None. */
  lemma {:induction false} TimeTravel(log: Log, id: EventId, v: nat)
    requires Grown(log)
    ensures LoadEventVersion(TablesOf(log), id, v) == Committed(log, id, v)
  {
    FindVersionInLog(log, id, v);
    var h := EntriesOf(log, id);
    if 1 <= v <= |h| {
      MentionsInLog(log, id, Some(v));
      assert h[..|h|] == h;
      History(log, id);
      VersionFacts(h, id, v - 1);
    }
  }

  // ---- refresh refines ingest ----

  lemma {:induction false} FindItemInLog(log: Log, i: nat)
    requires DistinctItems(log) && i < |log|
    ensures FindItem(TablesOf(log).rawItems, log[i].env.id) == Some(log[i].env)
  {
    var n := |log| - 1;
    if i < n {
      FindItemInLog(log[..n], i);
      assert TablesOf(log).rawItems[..n] == TablesOf(log[..n]).rawItems;
    }
  }

  lemma {:induction false} JoinIsZip(log: Log, n: nat)
    requires DistinctItems(log) && n <= |log|
    ensures var t := TablesOf(log);
            Joined(t.mentionRows[..n], t.rawItems)
            == seq(n, i requires 0 <= i < n => (t.mentionRows[i], t.rawItems[i]))
  {
    if n > 0 {
      JoinIsZip(log, n - 1);
      FindItemInLog(log, n - 1);
      var rows := TablesOf(log).mentionRows;
      assert rows[..n][..n - 1] == rows[..n - 1];
    }
  }

  ghost function ItemsOf(log: Log): seq<StoredItemIndex> {
    seq(|log|, i requires 0 <= i < |log| =>
      StoredItemIndex(log[i].env.provider, log[i].env.sourceId, log[i].env.nativeId, log[i].env.contentHash, log[i].event.eventId))
  }

  lemma {:induction false} StateOfLog(log: Log)
    requires DistinctItems(log)
    ensures var t := TablesOf(log);
            LoadState(t) == PersistedEventState(LatestEvents(t.eventRows, |log|, t.mentionRows), ItemsOf(log))
  {
    var t := TablesOf(log);
    JoinIsZip(log, |log|);
    assert t.mentionRows[..|log|] == t.mentionRows;
    assert MentionSide(Joined(t.mentionRows, t.rawItems)) == t.mentionRows;
  }

  lemma {:induction false} IndexesOfItems(log: Log)
    ensures Identities(ItemsOf(log)) == Index(log).byIdentity
    ensures ContentHashes(ItemsOf(log)) == Index(log).byContentHash
  {
    if log != [] {
      IndexesOfItems(log[..|log| - 1]);
      assert ItemsOf(log)[..|log| - 1] == ItemsOf(log[..|log| - 1]);
    }
  }

  ghost predicate IsLive(log: Log, event: CanonicalEvent) {
    event.eventId in Index(log).events && Index(log).events[event.eventId] == event
  }

  /** Commit `i` is some version of its event, and the last version is a commit too. */
  lemma {:induction false} VersionOfCommit(log: Log, i: nat) returns (k: nat, last: nat)
    requires Grown(log) && i < |log|
    ensures var h := EntriesOf(log, log[i].event.eventId);
            && k < |h| && h[k] == log[i] && log[i].event.eventVersion == k + 1
            && last < |log| && h[|h| - 1] == log[last] && log[last].event.eventVersion == |h|
            && log[last].event.eventId == log[i].event.eventId
            && IsLive(log, log[last].event)
  {
    var id := log[i].event.eventId;
    var h := EntriesOf(log, id);
    History(log, id);
    k := EntryIsInItsHistory(log, i);
    VersionFacts(h, id, k);
    VersionFacts(h, id, |h| - 1);
    last := HistoryIsInTheLog(log, id, |h| - 1);
  }

  /** Commit `i` is the newest of its event exactly when its row is the latest one. */
  lemma {:induction false} LatestRowInLog(log: Log, i: nat)
    requires Grown(log) && i < |log|
    ensures IsLatest(TablesOf(log).eventRows, RowOf(log[i].event))
            <==> IsLive(log, log[i].event)
  {
    var rows := TablesOf(log).eventRows;
    var k, last := VersionOfCommit(log, i);
    if IsLatest(rows, RowOf(log[i].event)) {
      assert rows[last].eventVersion <= k + 1;
    }
    if IsLive(log, log[i].event) {
      forall x | 0 <= x < |rows| && rows[x].eventId == log[i].event.eventId
        ensures rows[x].eventVersion <= log[i].event.eventVersion
      {
        var l, other := VersionOfCommit(log, x);
      }
    }
  }

  /** Reading back a latest row gives the live event. */
  lemma {:induction false} LatestEventInLog(log: Log, i: nat)
    requires Grown(log) && i < |log| && IsLive(log, log[i].event)
    ensures var t := TablesOf(log);
            CanonicalOf(t.eventRows[i], StableSort.Sort(MentionsFor(t.mentionRows, t.eventRows[i].eventId, None)))
            == log[i].event
  {
    var id := log[i].event.eventId;
    var h := EntriesOf(log, id);
    History(log, id);
    VersionFacts(h, id, |h| - 1);
    assert h[..|h|] == h;
    MentionsInLog(log, id, None);
  }

  lemma {:induction false} LatestEventsInLog(log: Log, n: nat)
    requires Grown(log) && n <= |log|
    ensures var t := TablesOf(log);
            forall e :: e in LatestEvents(t.eventRows, n, t.mentionRows)
                        <==> exists i :: 0 <= i < n && log[i].event == e && IsLive(log, e)
  {
    if n > 0 {
      LatestEventsInLog(log, n - 1);
      LatestRowInLog(log, n - 1);
      if IsLive(log, log[n - 1].event) {
        LatestEventInLog(log, n - 1);
      }
    }
  }

  lemma {:induction false} ByIdOfEvents(events: seq<CanonicalEvent>, live: map<EventId, CanonicalEvent>)
    requires forall e :: e in events ==> e.eventId in live && live[e.eventId] == e
    ensures forall id :: id in EventsById(events) <==> id in live && live[id] in events && live[id].eventId == id
    ensures forall id :: id in EventsById(events) ==> EventsById(events)[id] == live[id]
    ensures forall id, v :: (id, v) in VersionsById(events) <==> id in EventsById(events) && live[id].eventVersion == v
    ensures forall id, v :: (id, v) in VersionsById(events) ==> VersionsById(events)[(id, v)] == live[id]
  {
    if events != [] {
      var init, last := events[..|events| - 1], events[|events| - 1];
      ByIdOfEvents(init, live);
      assert events == init + [last];
    }
  }

  lemma {:induction false} LoadedEventsAreLive(log: Log)
    requires Grown(log)
    ensures var t := TablesOf(log);
            forall e :: e in LatestEvents(t.eventRows, |log|, t.mentionRows) <==> IsLive(log, e)
  {
    LatestEventsInLog(log, |log|);
    forall e | IsLive(log, e)
      ensures exists i :: 0 <= i < |log| && log[i].event == e
    {
      History(log, e.eventId);
      var j := HistoryIsInTheLog(log, e.eventId, |EntriesOf(log, e.eventId)| - 1);
      assert log[j].event == e;
    }
  }

  /**
   * Refresh refines ingest: the maps rebuilt from the rows are the maps that `ingest` maintains; of
   * the versions it holds the latest of each event.
   */
  lemma {:induction false} RefreshRefinesIngest(log: Log)
    requires Grown(log)
    ensures var mem := Rebuild(LoadState(TablesOf(log)));
            && mem.events == Index(log).events
            && mem.byIdentity == Index(log).byIdentity
            && mem.byContentHash == Index(log).byContentHash
            && (forall id, v :: (id, v) in mem.versions <==>
                 id in Index(log).events && Index(log).events[id].eventVersion == v)
            && (forall id, v :: (id, v) in mem.versions ==> mem.versions[(id, v)] == Index(log).events[id])
  {
    var t, live := TablesOf(log), Index(log).events;
    GrownHasDistinctItems(log);
    StateOfLog(log);
    IndexesOfItems(log);
    LoadedEventsAreLive(log);
    var events := LatestEvents(t.eventRows, |log|, t.mentionRows);
    assert forall id :: id in live ==> IsLive(log, live[id]);
    ByIdOfEvents(events, live);
    assert EventsById(events) == live;
  }
}
