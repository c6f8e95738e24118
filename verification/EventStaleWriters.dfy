/**
 * What a save may do to the committed history if the worker that decided on it does not know the whole
 * log, as it may be without the discipline of `EventProcesses`.
 */
module EventStaleWriters {
  import opened Common
  import opened Contracts
  import opened EventClustering
  import opened EventLog
  import opened EventTables
  import opened EventRowOrder
  import StableSort

  /** Of every event the log `snap` holds the first versions that `log` holds, or all of them. */
  ghost predicate Lags(snap: Log, log: Log) {
    forall id :: EntriesOf(snap, id) <= EntriesOf(log, id)
  }

  lemma {:induction false} LagsAt(snap: Log, log: Log, id: EventId)
    requires Lags(snap, log)
    ensures |EntriesOf(snap, id)| <= |EntriesOf(log, id)|
    ensures EntriesOf(snap, id) == EntriesOf(log, id)[..|EntriesOf(snap, id)|]
  {
    assert EntriesOf(snap, id) <= EntriesOf(log, id);
  }

  /** A prefix of a log lags behind it. */
  lemma {:induction false} PrefixLags(log: Log, n: nat)
    requires Grown(log) && n <= |log|
    ensures Grown(log[..n]) && Lags(log[..n], log)
  {
    PrefixIsGrown(log, n);
    forall id
      ensures EntriesOf(log[..n], id) <= EntriesOf(log, id)
    {
      CommittedIsForever(log, n, id, 1);
    }
  }

  /**
   * A worker decides on `entry` from what it knows: the commits `snap`, which are those it has loaded and
   * those it has made since, while the log may hold others.
   */
  ghost predicate StaleSave(log: Log, snap: Log, entry: Entry) {
    Grown(log) && Grown(snap) && Lags(snap, log) && Follows(snap, entry)
  }

  /** The chosen event has no version that the worker does not know. */
  ghost predicate EventUnchanged(log: Log, snap: Log, id: EventId) {
    |EntriesOf(log, id)| == |EntriesOf(snap, id)|
  }

  /** The raw item of the entry is new to the whole log, not only to the worker. */
  ghost predicate ItemIsNew(log: Log, entry: Entry) {
    forall e :: e in log ==> e.env.id != entry.env.id
  }

  /** The saved tables still answer every committed version as before. */
  ghost predicate KeepsHistory(log: Log, tables: Tables) {
    forall id, v :: Committed(log, id, v).Some? ==> LoadEventVersion(tables, id, v) == Committed(log, id, v)
  }

  /** The three merges of a save. */
  function Merged(t: Tables, entry: Entry): Tables {
    Tables(
      Merge(t.rawItems, entry.env, SameItemKey),
      Merge(t.eventRows, RowOf(entry.event), SameVersionKey),
      Merge(t.mentionRows, MentionRowOf(MentionOf(entry.env), entry.event), SameMentionKey))
  }

  ghost function Saved(log: Log, entry: Entry): Tables {
    Merged(TablesOf(log), entry)
  }

  lemma {:induction false} StaleSaveSucceeds(log: Log, snap: Log, entry: Entry)
    requires StaleSave(log, snap, entry) && UniqueIndexesHold(TablesOf(log).rawItems, entry.env)
    ensures Save(TablesOf(log), entry.env, entry.event, true) == Ok(Saved(log, entry))
  {
    NewMentionIsFound(snap, entry);
  }

  /** The version that the save writes, counted from what the worker knows. */
  lemma {:induction false} StaleVersion(log: Log, snap: Log, entry: Entry)
    requires StaleSave(log, snap, entry)
    ensures entry.event.eventVersion == |EntriesOf(snap, entry.event.eventId)| + 1
    ensures entry.event.mentions
            == StableSort.Sort(MentionsOf(EntriesOf(snap, entry.event.eventId)) + [MentionOf(entry.env)])
  {
    DecidedVersion(snap, entry);
  }

  lemma {:induction false} DecidedVersion(snap: Log, entry: Entry)
    requires Grown(snap) && Follows(snap, entry)
    ensures entry.event.eventVersion == |EntriesOf(snap, entry.event.eventId)| + 1
    ensures entry.event.mentions
            == StableSort.Sort(MentionsOf(EntriesOf(snap, entry.event.eventId)) + [MentionOf(entry.env)])
  {
    AppendedHistory(snap, entry);
    VersionOfAppended(EntriesOf(snap, entry.event.eventId), entry.event.eventId, entry);
  }

  lemma {:induction false} AppendedHistory(snap: Log, entry: Entry)
    requires Grown(snap) && Follows(snap, entry)
    ensures IsHistory(EntriesOf(snap, entry.event.eventId) + [entry], entry.event.eventId)
  {
    CommitGrows(snap, entry);
    AppendIsGrown(snap, entry);
    Append(snap, entry);
    History(snap + [entry], entry.event.eventId);
  }

  lemma {:induction false} VersionOfAppended(h: seq<Entry>, id: EventId, entry: Entry)
    requires IsHistory(h + [entry], id)
    ensures entry.event.eventVersion == |h| + 1
    ensures entry.event.mentions == StableSort.Sort(MentionsOf(h) + [MentionOf(entry.env)])
  {
    VersionFacts(h + [entry], id, |h|);
    assert (h + [entry])[..|h| + 1] == h + [entry];
    assert MentionsOf(h + [entry]) == MentionsOf(h) + [MentionOf(entry.env)];
  }

  /** The version is committed already exactly if the event has changed behind the worker's back. */
  lemma {:induction false} CommittedIffChanged(log: Log, snap: Log, entry: Entry)
    requires StaleSave(log, snap, entry)
    ensures Committed(log, entry.event.eventId, entry.event.eventVersion).None? <==> EventUnchanged(log, snap, entry.event.eventId)
  {
    StaleVersion(log, snap, entry);
    LagsAt(snap, log, entry.event.eventId);
  }

  // ---- counting the mentions of a version ----

  predicate Shows(row: EventMentionRow, id: EventId, v: nat) {
    row.eventId == id && row.eventVersion <= v
  }

  lemma {:induction false} OneRowCounts(row: EventMentionRow, id: EventId, v: nat)
    ensures |MentionsFor([row], id, Some(v))| == if Shows(row, id, v) then 1 else 0
  {
    assert [row][..0] == [];
  }

  lemma {:induction false} CountWith(left: seq<EventMentionRow>, row: EventMentionRow, right: seq<EventMentionRow>, id: EventId, v: nat)
    ensures |MentionsFor(left + [row] + right, id, Some(v))|
            == |MentionsFor(left + right, id, Some(v))| + if Shows(row, id, v) then 1 else 0
  {
    MentionsForParts(left + [row], right, id, Some(v));
    MentionsForParts(left, [row], id, Some(v));
    MentionsForParts(left, right, id, Some(v));
    OneRowCounts(row, id, v);
  }

  lemma {:induction false} CountReplaced(rows: seq<EventMentionRow>, i: nat, row: EventMentionRow, id: EventId, v: nat)
    requires i < |rows|
    ensures |MentionsFor(rows[i := row], id, Some(v))| + (if Shows(rows[i], id, v) then 1 else 0)
            == |MentionsFor(rows, id, Some(v))| + (if Shows(row, id, v) then 1 else 0)
  {
    assert rows == rows[..i] + [rows[i]] + rows[i + 1..];
    assert rows[i := row] == rows[..i] + [row] + rows[i + 1..];
    CountWith(rows[..i], rows[i], rows[i + 1..], id, v);
    CountWith(rows[..i], row, rows[i + 1..], id, v);
  }

  /** Version `v` has `v` mentions, so tables with another number of them answer otherwise. */
  lemma {:induction false} CountTells(log: Log, t: Tables, id: EventId, v: nat)
    requires Grown(log) && Committed(log, id, v).Some?
    requires |MentionsFor(t.mentionRows, id, Some(v))| != v
    ensures LoadEventVersion(t, id, v) != Committed(log, id, v)
  {
    CommittedMentions(log, id, v);
    MentionsRead(t, id, v);
  }

  lemma {:induction false} CommittedMentions(log: Log, id: EventId, v: nat)
    requires Grown(log) && Committed(log, id, v).Some?
    ensures |Committed(log, id, v).value.mentions| == v
  {
    History(log, id);
    VersionFacts(EntriesOf(log, id), id, v - 1);
  }

  lemma {:induction false} MentionsRead(t: Tables, id: EventId, v: nat)
    ensures var event := LoadEventVersion(t, id, v);
            event.Some? ==>
              && event.value.mentions == StableSort.Sort(MentionsFor(t.mentionRows, id, Some(v)))
              && |event.value.mentions| == |MentionsFor(t.mentionRows, id, Some(v))|
  {
    StableSort.SortPermutes(MentionsFor(t.mentionRows, id, Some(v)));
  }

  lemma {:induction false} CommittedCount(log: Log, id: EventId, v: nat)
    requires Grown(log) && Committed(log, id, v).Some?
    ensures |MentionsFor(TablesOf(log).mentionRows, id, Some(v))| == v
  {
    MentionsInLog(log, id, Some(v));
    assert EntriesOf(log, id)[..v] == FirstVersions(EntriesOf(log, id), Some(v));
  }

  // ---- a new raw item ----

  lemma {:induction false} NewItemIsAppended(log: Log, entry: Entry)
    requires ItemIsNew(log, entry)
    ensures Saved(log, entry).rawItems == TablesOf(log).rawItems + [entry.env]
    ensures Saved(log, entry).mentionRows == TablesOf(log).mentionRows + [MentionRowOf(MentionOf(entry.env), entry.event)]
  {
    assert forall i :: 0 <= i < |log| ==> log[i] in log;
    MergeFresh(TablesOf(log).rawItems, entry.env, SameItemKey);
    MergeFresh(TablesOf(log).mentionRows, MentionRowOf(MentionOf(entry.env), entry.event), SameMentionKey);
  }

  lemma {:induction false} NewVersionIsAppended(log: Log, snap: Log, entry: Entry)
    requires StaleSave(log, snap, entry) && EventUnchanged(log, snap, entry.event.eventId)
    ensures Saved(log, entry).eventRows == TablesOf(log).eventRows + [RowOf(entry.event)]
  {
    var id, rows := entry.event.eventId, TablesOf(log).eventRows;
    StaleVersion(log, snap, entry);
    History(log, id);
    forall i | 0 <= i < |log|
      ensures !SameVersionKey(rows[i], RowOf(entry.event))
    {
      if log[i].event.eventId == id {
        var k := EntryIsInItsHistory(log, i);
        VersionFacts(EntriesOf(log, id), id, k);
      }
    }
    MergeFresh(rows, RowOf(entry.event), SameVersionKey);
  }

  /** If both are new, the save makes the log one commit longer, as an up-to-date save does. */
  lemma {:induction false} HarmlessSave(log: Log, snap: Log, entry: Entry)
    requires StaleSave(log, snap, entry) && EventUnchanged(log, snap, entry.event.eventId) && ItemIsNew(log, entry)
    ensures Saved(log, entry) == TablesOf(log + [entry]) && Grown(log + [entry])
    ensures KeepsHistory(log, Saved(log, entry))
  {
    NewItemIsAppended(log, entry);
    NewVersionIsAppended(log, snap, entry);
    TablesOfAppend(log, entry);
    UnchangedGrows(log, snap, entry);
    AppendIsGrown(log, entry);
    var longer := log + [entry];
    assert longer[..|log|] == log;
    forall id, v | Committed(log, id, v).Some?
      ensures LoadEventVersion(Saved(log, entry), id, v) == Committed(log, id, v)
    {
      TimeTravel(longer, id, v);
      CommittedIsForever(longer, |log|, id, v);
    }
  }

  lemma {:induction false} UnchangedGrows(log: Log, snap: Log, entry: Entry)
    requires StaleSave(log, snap, entry) && EventUnchanged(log, snap, entry.event.eventId)
    ensures Grows(Index(log).events, entry)
  {
    var id := entry.event.eventId;
    CommitGrows(snap, entry);
    LagsAt(snap, log, id);
    assert EntriesOf(log, id) == EntriesOf(snap, id);
    SameLiveEvent(snap, log, id);
  }

  lemma {:induction false} SameLiveEvent(a: Log, b: Log, id: EventId)
    requires Grown(a) && Grown(b) && EntriesOf(a, id) == EntriesOf(b, id)
    ensures id in Index(a).events <==> id in Index(b).events
    ensures id in Index(a).events ==> Index(a).events[id] == Index(b).events[id]
  {
    History(a, id);
    History(b, id);
  }

  /** If the version is committed already, it gains a foreign mention, however the save was decided. */
  lemma {:induction false} NewItemRewrites(log: Log, entry: Entry)
    requires Grown(log) && ItemIsNew(log, entry)
    requires Committed(log, entry.event.eventId, entry.event.eventVersion).Some?
    ensures var id, v := entry.event.eventId, entry.event.eventVersion;
            LoadEventVersion(Saved(log, entry), id, v) != Committed(log, id, v)
  {
    var id, v := entry.event.eventId, entry.event.eventVersion;
    NewItemIsAppended(log, entry);
    CommittedCount(log, id, v);
    MentionsForAppend(TablesOf(log).mentionRows, MentionRowOf(MentionOf(entry.env), entry.event), id, Some(v));
    CountTells(log, Saved(log, entry), id, v);
  }

  /** So a save rewrites history if the event did change. */
  lemma {:induction false} StaleSaveRewrites(log: Log, snap: Log, entry: Entry)
    requires StaleSave(log, snap, entry) && !EventUnchanged(log, snap, entry.event.eventId) && ItemIsNew(log, entry)
    ensures var id, v := entry.event.eventId, entry.event.eventVersion;
            Committed(log, id, v).Some? && LoadEventVersion(Saved(log, entry), id, v) != Committed(log, id, v)
  {
    CommittedIffChanged(log, snap, entry);
    NewItemRewrites(log, entry);
  }

  // ---- a raw item that is stored already ----

  lemma {:induction false} MergeAt<R>(rows: seq<R>, i: nat, row: R, sameKey: (R, R) -> bool)
    requires i < |rows| && sameKey(rows[i], row)
    requires forall j :: 0 <= j < i ==> !sameKey(rows[j], row)
    ensures Merge(rows, row, sameKey) == rows[i := row]
  {
    if i > 0 {
      assert !sameKey(rows[0], row);
      MergeAt(rows[1..], i - 1, row, sameKey);
    }
  }

  /** Every commit is committed as its version. */
  lemma {:induction false} CommittedEntry(log: Log, i: nat)
    requires Grown(log) && i < |log|
    ensures var h, v := EntriesOf(log, log[i].event.eventId), log[i].event.eventVersion;
            1 <= v <= |h| && h[v - 1] == log[i]
    ensures Committed(log, log[i].event.eventId, log[i].event.eventVersion) == Some(log[i].event)
  {
    var id := log[i].event.eventId;
    History(log, id);
    var k := EntryIsInItsHistory(log, i);
    VersionFacts(EntriesOf(log, id), id, k);
  }

  lemma {:induction false} VersionRowIsUnique(log: Log, i: nat)
    requires Grown(log) && i < |log|
    ensures forall j :: 0 <= j < |log| && j != i ==>
              !SameVersionKey(TablesOf(log).eventRows[j], TablesOf(log).eventRows[i])
  {
    GrownHasDistinctItems(log);
    CommittedEntry(log, i);
    forall j | 0 <= j < |log| && log[j].event.eventId == log[i].event.eventId && log[j].event.eventVersion == log[i].event.eventVersion
      ensures j == i
    {
      CommittedEntry(log, j);
      SameItem(log, i, j);
    }
  }

  lemma {:induction false} StoredItemMoves(log: Log, entry: Entry, i: nat)
    requires Grown(log) && i < |log| && log[i].env.id == entry.env.id
    ensures var row := MentionRowOf(MentionOf(entry.env), entry.event);
            Saved(log, entry).mentionRows == TablesOf(log).mentionRows[i := row]
  {
    GrownHasDistinctItems(log);
    MergeAt(TablesOf(log).mentionRows, i, MentionRowOf(MentionOf(entry.env), entry.event), SameMentionKey);
  }

  /** An item new to the worker but not to the log is in a version that the worker does not know. */
  lemma {:induction false} StoredBehind(log: Log, snap: Log, entry: Entry, i: nat)
    requires StaleSave(log, snap, entry) && i < |log| && log[i].env.id == entry.env.id
    ensures Committed(log, log[i].event.eventId, log[i].event.eventVersion) == Some(log[i].event)
    ensures log[i].event.eventVersion > |EntriesOf(snap, log[i].event.eventId)|
  {
    var id := log[i].event.eventId;
    CommittedEntry(log, i);
    LagsAt(snap, log, id);
    forall k | 0 <= k < |EntriesOf(snap, id)|
      ensures EntriesOf(snap, id)[k] == EntriesOf(log, id)[k] && EntriesOf(snap, id)[k].env.id != entry.env.id
    {
      var j := HistoryIsInTheLog(snap, id, k);
      assert snap[j] in snap;
    }
  }

  lemma {:induction false} StoredAfterSnapshot(log: Log, snap: Log, entry: Entry, i: nat)
    requires StaleSave(log, snap, entry) && i < |log| && log[i].env.id == entry.env.id
    ensures Committed(log, log[i].event.eventId, log[i].event.eventVersion) == Some(log[i].event)
    ensures log[i].event.eventId == entry.event.eventId ==> log[i].event.eventVersion >= entry.event.eventVersion
  {
    StoredBehind(log, snap, entry, i);
    StaleVersion(log, snap, entry);
  }

  /** If the item was committed to another event, that event loses the mention. */
  lemma {:induction false} MentionLost(log: Log, snap: Log, entry: Entry, i: nat)
    requires StaleSave(log, snap, entry) && i < |log| && log[i].env.id == entry.env.id
    requires log[i].event.eventId != entry.event.eventId
    ensures !KeepsHistory(log, Saved(log, entry))
  {
    var id, v := log[i].event.eventId, log[i].event.eventVersion;
    StoredAfterSnapshot(log, snap, entry, i);
    StoredItemMoves(log, entry, i);
    CommittedCount(log, id, v);
    CountReplaced(TablesOf(log).mentionRows, i, MentionRowOf(MentionOf(entry.env), entry.event), id, v);
    CountTells(log, Saved(log, entry), id, v);
  }

  /** If it was committed as a later version of the chosen event, the mention moves to an earlier version. */
  lemma {:induction false} MentionMovedBack(log: Log, snap: Log, entry: Entry, i: nat)
    requires StaleSave(log, snap, entry) && i < |log| && log[i].env.id == entry.env.id
    requires log[i].event.eventId == entry.event.eventId && log[i].event.eventVersion > entry.event.eventVersion
    ensures !KeepsHistory(log, Saved(log, entry))
  {
    var id, v := entry.event.eventId, entry.event.eventVersion;
    StoredAfterSnapshot(log, snap, entry, i);
    StaleVersion(log, snap, entry);
    StoredItemMoves(log, entry, i);
    CommittedCount(log, id, v);
    CountReplaced(TablesOf(log).mentionRows, i, MentionRowOf(MentionOf(entry.env), entry.event), id, v);
    CountTells(log, Saved(log, entry), id, v);
  }

  lemma {:induction false} SameSnapshotMentions(log: Log, snap: Log, entry: Entry)
    requires StaleSave(log, snap, entry) && Committed(log, entry.event.eventId, entry.event.eventVersion).Some?
    ensures var h, v := EntriesOf(log, entry.event.eventId), entry.event.eventVersion;
            && 1 <= v <= |h|
            && h[v - 1].event.mentions == StableSort.Sort(MentionsOf(EntriesOf(snap, entry.event.eventId)) + [MentionOf(h[v - 1].env)])
  {
    var id, v := entry.event.eventId, entry.event.eventVersion;
    var h, before := EntriesOf(log, id), EntriesOf(snap, id);
    StaleVersion(log, snap, entry);
    LagsAt(snap, log, id);
    History(log, id);
    VersionFacts(h, id, v - 1);
    MentionsOfPrefix(h, v);
  }

  lemma {:induction false} MentionsOfPrefix(h: seq<Entry>, v: nat)
    requires 1 <= v <= |h|
    ensures MentionsOf(h[..v]) == MentionsOf(h[..v - 1]) + [MentionOf(h[v - 1].env)]
  {
    assert h[..v][..v - 1] == h[..v - 1];
  }

  lemma {:induction false} LastMentionTells(before: seq<EventMention>, a: EventMention, b: EventMention)
    requires multiset(StableSort.Sort(before + [a])) == multiset(StableSort.Sort(before + [b]))
    ensures a == b
  {
    StableSort.SortPermutes(before + [a]);
    StableSort.SortPermutes(before + [b]);
    assert multiset(before + [a]) == multiset(before) + multiset{a};
    assert multiset(before + [b]) == multiset(before) + multiset{b};
    SameAddition(multiset(before), a, b);
  }

  lemma {:induction false} SameAddition<T>(m: multiset<T>, a: T, b: T)
    requires m + multiset{a} == m + multiset{b}
    ensures a == b
  {
    assert multiset{a} == (m + multiset{a}) - m && multiset{b} == (m + multiset{b}) - m;
    assert a in multiset{b};
  }

  lemma {:induction false} FindReplaced(rows: seq<EventRow>, i: nat, row: EventRow)
    requires i < |rows| && forall j :: 0 <= j < |rows| && j != i ==> !SameVersionKey(rows[j], row)
    ensures FindVersion(rows[i := row], row.eventId, row.eventVersion) == Some(row)
  {
    var all := rows[i := row];
    if i < |rows| - 1 {
      assert all[..|all| - 1] == rows[..|rows| - 1][i := row];
      FindReplaced(rows[..|rows| - 1], i, row);
    }
  }

  lemma {:induction false} VersionReplaced(log: Log, entry: Entry, i: nat)
    requires Grown(log) && i < |log|
    requires log[i].event.eventId == entry.event.eventId && log[i].event.eventVersion == entry.event.eventVersion
    ensures Saved(log, entry).eventRows == TablesOf(log).eventRows[i := RowOf(entry.event)]
    ensures FindVersion(Saved(log, entry).eventRows, entry.event.eventId, entry.event.eventVersion) == Some(RowOf(entry.event))
  {
    var rows := TablesOf(log).eventRows;
    VersionRowIsUnique(log, i);
    forall j | 0 <= j < |rows| && j != i
      ensures !SameVersionKey(rows[j], RowOf(entry.event))
    {
      assert !SameVersionKey(rows[j], rows[i]);
    }
    MergeAt(rows, i, RowOf(entry.event), SameVersionKey);
    FindReplaced(rows, i, RowOf(entry.event));
  }

  lemma {:induction false} MentionReplaced(rows: seq<EventMentionRow>, i: nat, row: EventMentionRow, id: EventId, v: nat)
    requires i < |rows| && Shows(rows[i], id, v) && Shows(row, id, v)
    ensures multiset(MentionsFor(rows[i := row], id, Some(v))) + multiset{MentionOfRow(rows[i])}
            == multiset(MentionsFor(rows, id, Some(v))) + multiset{MentionOfRow(row)}
  {
    assert rows == rows[..i] + [rows[i]] + rows[i + 1..];
    assert rows[i := row] == rows[..i] + [row] + rows[i + 1..];
    MentionsWith(rows[..i], rows[i], rows[i + 1..], id, Some(v));
    MentionsWith(rows[..i], row, rows[i + 1..], id, Some(v));
    assert [rows[i]][..0] == [] && [row][..0] == [];
    assert MentionsFor([rows[i]], id, Some(v)) == [MentionOfRow(rows[i])];
    assert MentionsFor([row], id, Some(v)) == [MentionOfRow(row)];
  }

  /** The save decided on the event that is committed as its version already. */
  ghost predicate Repeats(log: Log, entry: Entry) {
    Committed(log, entry.event.eventId, entry.event.eventVersion) == Some(entry.event)
  }

  /** If the version read still gives what was committed, then that is the event just saved. */
  lemma {:induction false} SameVersionReplaced(log: Log, snap: Log, entry: Entry, i: nat)
    requires StaleSave(log, snap, entry) && i < |log| && log[i].env.id == entry.env.id
    requires log[i].event.eventId == entry.event.eventId && log[i].event.eventVersion == entry.event.eventVersion
    ensures KeepsHistory(log, Saved(log, entry)) ==> Repeats(log, entry)
  {
    var id, v := entry.event.eventId, entry.event.eventVersion;
    CommittedEntry(log, i);
    if KeepsHistory(log, Saved(log, entry)) {
      assert LoadEventVersion(Saved(log, entry), id, v) == Some(log[i].event);
      VersionReplaced(log, entry, i);
      SameMention(log, snap, entry, i);
      SameSnapshotMentions(log, snap, entry);
      StaleVersion(log, snap, entry);
      assert CanonicalOf(RowOf(entry.event), entry.event.mentions) == entry.event;
    }
  }

  lemma {:induction false} SameMention(log: Log, snap: Log, entry: Entry, i: nat)
    requires StaleSave(log, snap, entry) && i < |log| && log[i].env.id == entry.env.id
    requires log[i].event.eventId == entry.event.eventId && log[i].event.eventVersion == entry.event.eventVersion
    requires LoadEventVersion(Saved(log, entry), entry.event.eventId, entry.event.eventVersion) == Some(log[i].event)
    ensures MentionOf(log[i].env) == MentionOf(entry.env)
  {
    var id, v := entry.event.eventId, entry.event.eventVersion;
    var rows, row := TablesOf(log).mentionRows, MentionRowOf(MentionOf(entry.env), entry.event);
    StoredItemMoves(log, entry, i);
    MentionReplaced(rows, i, row, id, v);
    StoredAfterSnapshot(log, snap, entry, i);
    TimeTravel(log, id, v);
    SameReadSameMentions(Saved(log, entry), TablesOf(log), id, v);
    SameAddition(multiset(MentionsFor(rows, id, Some(v))), MentionOf(log[i].env), MentionOf(entry.env));
  }

  lemma {:induction false} SameReadSameMentions(a: Tables, b: Tables, id: EventId, v: nat)
    requires LoadEventVersion(a, id, v).Some? && LoadEventVersion(a, id, v) == LoadEventVersion(b, id, v)
    ensures multiset(MentionsFor(a.mentionRows, id, Some(v))) == multiset(MentionsFor(b.mentionRows, id, Some(v)))
  {
    MentionsRead(a, id, v);
    MentionsRead(b, id, v);
    StableSort.SortPermutes(MentionsFor(a.mentionRows, id, Some(v)));
    StableSort.SortPermutes(MentionsFor(b.mentionRows, id, Some(v)));
  }

  lemma {:induction false} SameRowsSameRead(a: Tables, b: Tables, id: EventId, v: nat)
    requires a.eventRows == b.eventRows && a.mentionRows == b.mentionRows
    ensures LoadEventVersion(a, id, v) == LoadEventVersion(b, id, v)
  {
  }

  /** A repeated commit is one of the same item. */
  lemma {:induction false} RepeatedItem(log: Log, snap: Log, entry: Entry) returns (i: nat)
    requires StaleSave(log, snap, entry) && Repeats(log, entry)
    ensures i < |log| && log[i].event == entry.event && MentionOf(log[i].env) == MentionOf(entry.env)
  {
    var id, v := entry.event.eventId, entry.event.eventVersion;
    SameSnapshotMentions(log, snap, entry);
    StaleVersion(log, snap, entry);
    i := HistoryIsInTheLog(log, id, v - 1);
    SameLastMention(MentionsOf(EntriesOf(snap, id)), log[i], entry);
  }

  lemma {:induction false} SameLastMention(before: seq<EventMention>, a: Entry, b: Entry)
    requires a.event == b.event
    requires a.event.mentions == StableSort.Sort(before + [MentionOf(a.env)])
    requires b.event.mentions == StableSort.Sort(before + [MentionOf(b.env)])
    ensures MentionOf(a.env) == MentionOf(b.env)
  {
    LastMentionTells(before, MentionOf(a.env), MentionOf(b.env));
  }

  /** Such a save changes no version and no mention. */
  lemma {:induction false} RepeatKeeps(log: Log, snap: Log, entry: Entry)
    requires StaleSave(log, snap, entry) && Repeats(log, entry)
    ensures Saved(log, entry).eventRows == TablesOf(log).eventRows && Saved(log, entry).mentionRows == TablesOf(log).mentionRows
    ensures KeepsHistory(log, Saved(log, entry))
  {
    var i := RepeatedItem(log, snap, entry);
    assert log[i].env.id == MentionOf(log[i].env).rawItemId == entry.env.id;
    StoredItemMoves(log, entry, i);
    VersionReplaced(log, entry, i);
    forall id, v | Committed(log, id, v).Some?
      ensures LoadEventVersion(Saved(log, entry), id, v) == Committed(log, id, v)
    {
      TimeTravel(log, id, v);
      SameRowsSameRead(Saved(log, entry), TablesOf(log), id, v);
    }
  }

  /**
   * A save of a worker that knows only part of the log keeps the committed history if and only if the
   * version it writes is committed already as the very same event, or is not committed yet, so that the
   * worker knows all versions of the event, and the raw item is new to the tables.
   */
  lemma {:induction false} StaleSaveKeepsHistoryIff(log: Log, snap: Log, entry: Entry)
    requires StaleSave(log, snap, entry)
    ensures KeepsHistory(log, Saved(log, entry)) <==>
              match Committed(log, entry.event.eventId, entry.event.eventVersion)
              case Some(event) => event == entry.event
              case None => ItemIsNew(log, entry)
  {
    CommittedIffChanged(log, snap, entry);
    if Repeats(log, entry) {
      RepeatKeeps(log, snap, entry);
    } else if ItemIsNew(log, entry) {
      if EventUnchanged(log, snap, entry.event.eventId) {
        HarmlessSave(log, snap, entry);
      } else {
        StaleSaveRewrites(log, snap, entry);
      }
    } else {
      var e :| e in log && e.env.id == entry.env.id;
      var i :| 0 <= i < |log| && log[i] == e;
      StoredItemDamages(log, snap, entry, i);
    }
  }

  lemma {:induction false} StoredItemDamages(log: Log, snap: Log, entry: Entry, i: nat)
    requires StaleSave(log, snap, entry) && !Repeats(log, entry) && i < |log| && log[i].env.id == entry.env.id
    ensures !KeepsHistory(log, Saved(log, entry))
  {
    if log[i].event.eventId != entry.event.eventId {
      MentionLost(log, snap, entry, i);
    } else if log[i].event.eventVersion > entry.event.eventVersion {
      MentionMovedBack(log, snap, entry, i);
    } else {
      StoredAfterSnapshot(log, snap, entry, i);
      SameVersionReplaced(log, snap, entry, i);
    }
  }

  /** A redelivered item shows the second case: saved again under a new event, it leaves the old one. */
  lemma {:induction false} RedeliveredItemMoves(log: Log, snap: Log, entry: Entry, i: nat)
    requires StaleSave(log, snap, entry) && i < |log| && log[i].env == entry.env
    requires entry.event.eventId !in Index(log).events
    ensures EventUnchanged(log, snap, entry.event.eventId) && !KeepsHistory(log, Saved(log, entry))
  {
    History(log, entry.event.eventId);
    StaleVersion(log, snap, entry);
    LagsAt(snap, log, entry.event.eventId);
    assert log[i] in log;
    StaleSaveKeepsHistoryIff(log, snap, entry);
  }
}
