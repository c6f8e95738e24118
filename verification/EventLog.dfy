/**
 * The append-only log of committed ingests, which is the simple reference for both the in-memory
 * indexes and the database tables.
 */
module EventLog {
  import opened Common
  import opened Contracts
  import opened EventClustering
  import StableSort

  /** One committed `save`: the item and the event version it produced. */
  datatype Entry = Entry(env: RawEnvelope, event: CanonicalEvent)

  type Log = seq<Entry>

  /** The indexes that `ingest` maintains, entry by entry. */
  function Index(log: Log): (mem: Memory)
    ensures Filed(mem.events)
  {
    if log == [] then EMPTY_MEMORY
    else
      var last := log[|log| - 1];
      Record(Index(log[..|log| - 1]), last.env, last.event)
  }

  /** `entry` is what an up-to-date service commits next: the key and the raw item are new. */
  ghost predicate Follows(log: Log, entry: Entry) {
    && KeyOf(entry.env) !in Index(log).byIdentity
    && (forall e :: e in log ==> e.env.id != entry.env.id)
    && (SimilarEvent(Index(log), entry.env).None? ==> entry.event.eventId !in Index(log).events)
    && entry.event == Decide(Index(log), entry.env, entry.event.eventId)
  }

  ghost predicate CommitOk(log: Log, n: nat)
    requires n < |log|
  {
    Follows(log[..n], log[n])
  }

  ghost predicate Reachable(log: Log) {
    forall n :: 0 <= n < |log| ==> CommitOk(log, n)
  }

  lemma {:induction false} Append(log: Log, entry: Entry)
    ensures Index(log + [entry]) == Record(Index(log), entry.env, entry.event)
    ensures forall id :: EntriesOf(log + [entry], id)
                         == EntriesOf(log, id) + if entry.event.eventId == id then [entry] else []
  {
    assert (log + [entry])[..|log|] == log;
  }

  lemma {:induction false} AppendIsReachable(log: Log, entry: Entry)
    requires Reachable(log) && Follows(log, entry)
    ensures Reachable(log + [entry])
  {
    var longer := log + [entry];
    forall n | 0 <= n < |longer|
      ensures CommitOk(longer, n)
    {
      assert longer[..n] == log[..n];
      if n < |log| {
        assert CommitOk(log, n);
      } else {
        assert log[..n] == log;
      }
    }
  }

  lemma {:induction false} PrefixIsReachable(log: Log, n: nat)
    requires Reachable(log) && n <= |log|
    ensures Reachable(log[..n])
  {
    forall k | 0 <= k < n
      ensures CommitOk(log[..n], k)
    {
      assert CommitOk(log, k);
      assert log[..n][..k] == log[..k];
    }
  }

  /** A commit adds a raw item, and its event is new or extends a live event that was within the window. */
  ghost predicate GrowthOk(log: Log, n: nat)
    requires n < |log|
  {
    && Grows(Index(log[..n]).events, log[n])
    && forall e :: e in log[..n] ==> e.env.id != log[n].env.id
  }

  /** All that versions and rows depend on: the writers need not have been up to date. */
  ghost predicate Grown(log: Log) {
    forall n :: 0 <= n < |log| ==> GrowthOk(log, n)
  }

  lemma {:induction false} AppendIsGrown(log: Log, entry: Entry)
    requires Grown(log) && Grows(Index(log).events, entry) && forall e :: e in log ==> e.env.id != entry.env.id
    ensures Grown(log + [entry])
  {
    var longer := log + [entry];
    forall n | 0 <= n < |longer|
      ensures GrowthOk(longer, n)
    {
      assert longer[..n] == log[..n];
      if n < |log| {
        assert GrowthOk(log, n);
      } else {
        assert log[..n] == log;
      }
    }
  }

  lemma {:induction false} PrefixIsGrown(log: Log, n: nat)
    requires Grown(log) && n <= |log|
    ensures Grown(log[..n])
  {
    forall k | 0 <= k < n
      ensures GrowthOk(log[..n], k)
    {
      assert GrowthOk(log, k);
      assert log[..n][..k] == log[..k];
    }
  }

  /** Reachable logs are grown. */
  lemma {:induction false} ReachableIsGrown(log: Log)
    requires Reachable(log)
    ensures Grown(log)
  {
    forall n | 0 <= n < |log|
      ensures GrowthOk(log, n)
    {
      assert CommitOk(log, n);
      CommitGrows(log[..n], log[n]);
    }
  }

  /** What a grown log says about its last commit. */
  lemma {:induction false} LastGrowth(log: Log) returns (before: Log, entry: Entry)
    requires Grown(log) && log != []
    ensures before == log[..|log| - 1] && entry == log[|log| - 1] && log == before + [entry]
    ensures Grown(before) && Grows(Index(before).events, entry)
    ensures forall e :: e in before ==> e.env.id != entry.env.id
  {
    before, entry := log[..|log| - 1], log[|log| - 1];
    PrefixIsGrown(log, |before|);
    assert GrowthOk(log, |before|);
  }

  /** What a reachable log says about its last commit. */
  lemma {:induction false} LastCommit(log: Log) returns (before: Log, entry: Entry)
    requires Reachable(log) && log != []
    ensures before == log[..|log| - 1] && entry == log[|log| - 1]
    ensures Reachable(before)
    ensures KeyOf(entry.env) !in Index(before).byIdentity
    ensures forall e :: e in before ==> e.env.id != entry.env.id
    ensures Grows(Index(before).events, entry)
  {
    before, entry := log[..|log| - 1], log[|log| - 1];
    PrefixIsReachable(log, |before|);
    LastFollows(log);
    CommitGrows(before, entry);
  }

  lemma {:induction false} LastFollows(log: Log)
    requires Reachable(log) && log != []
    ensures Follows(log[..|log| - 1], log[|log| - 1])
  {
    assert CommitOk(log, |log| - 1);
  }

  // ---- the history of one event ----

  /** The commits of one event, oldest first. */
  ghost function EntriesOf(log: Log, id: EventId): seq<Entry> {
    if log == [] then []
    else
      var last := log[|log| - 1];
      EntriesOf(log[..|log| - 1], id) + if last.event.eventId == id then [last] else []
  }

  ghost function MentionsOf(entries: seq<Entry>): seq<EventMention> {
    seq(|entries|, i requires 0 <= i < |entries| => MentionOf(entries[i].env))
  }

  /** Versions 1, 2, ... of one event, each made from the one before. */
  ghost predicate IsHistory(history: seq<Entry>, id: EventId) {
    forall k :: 0 <= k < |history| ==> VersionOk(history, id, k)
  }

  ghost predicate VersionOk(history: seq<Entry>, id: EventId, k: nat)
    requires k < |history|
  {
    var event := history[k].event;
    && event.eventId == id
    && event.eventVersion == k + 1
    && WellFormed(event)
    && event.mentions == StableSort.Sort(MentionsOf(history[..k + 1]))
    && event == if k == 0 then NewEvent(history[0].env, id) else Extend(history[k - 1].event, history[k].env)
  }

  lemma {:induction false} HistoryGrows(history: seq<Entry>, id: EventId, entry: Entry)
    requires IsHistory(history, id)
    requires VersionOk(history + [entry], id, |history|)
    ensures IsHistory(history + [entry], id)
  {
    var longer := history + [entry];
    forall k | 0 <= k < |history|
      ensures VersionOk(longer, id, k)
    {
      assert VersionOk(history, id, k);
      assert longer[..k + 1] == history[..k + 1];
    }
  }

  lemma {:induction false} VersionFacts(history: seq<Entry>, id: EventId, k: nat)
    requires IsHistory(history, id) && k < |history|
    ensures history[k].event.eventId == id
    ensures history[k].event.eventVersion == |history[k].event.mentions| == k + 1
    ensures history[k].event.mentions == StableSort.Sort(MentionsOf(history[..k + 1]))
  {
    assert VersionOk(history, id, k);
  }

  lemma {:induction false} FirstVersion(entry: Entry, id: EventId)
    requires entry.event == NewEvent(entry.env, id)
    ensures VersionOk([entry], id, 0)
  {
    NewEventIsWellFormed(entry.env, id);
    var m := MentionOf(entry.env);
    assert MentionsOf([entry][..1]) == [m];
    assert StableSort.Sort([m]) == StableSort.Insert(StableSort.Sort([]), m);
  }

  lemma {:induction false} NextVersion(history: seq<Entry>, id: EventId, entry: Entry)
    requires IsHistory(history, id) && history != []
    requires Distance(entry.env, history[|history| - 1].event) <= CLUSTER_WINDOW
    requires entry.event == Extend(history[|history| - 1].event, entry.env)
    ensures VersionOk(history + [entry], id, |history|)
  {
    var latest := history[|history| - 1].event;
    LatestFacts(history, id);
    ExtendIsWellFormed(latest, entry.env);
    ExtendFacts(latest, entry.env);
    MentionsOneMore(history, entry);
    LaterVersion(history + [entry], id, |history|);
  }

  lemma {:induction false} LaterVersion(history: seq<Entry>, id: EventId, k: nat)
    requires 0 < k == |history| - 1
    requires history[k].event.eventId == id && history[k].event.eventVersion == k + 1 && WellFormed(history[k].event)
    requires history[k].event.mentions == StableSort.Sort(MentionsOf(history))
    requires history[k].event == Extend(history[k - 1].event, history[k].env)
    ensures VersionOk(history, id, k)
  {
    assert history[..k + 1] == history;
  }

  lemma {:induction false} LatestFacts(history: seq<Entry>, id: EventId)
    requires IsHistory(history, id) && history != []
    ensures var latest := history[|history| - 1].event;
            && latest.eventId == id && latest.eventVersion == |history| && WellFormed(latest)
            && latest.mentions == StableSort.Sort(MentionsOf(history))
  {
    assert VersionOk(history, id, |history| - 1);
    assert history[..|history|] == history;
  }

  lemma {:induction false} ExtendFacts(event: CanonicalEvent, env: RawEnvelope)
    ensures var next := Extend(event, env);
            && next.eventId == event.eventId && next.eventVersion == event.eventVersion + 1
            && next.mentions == StableSort.Sort(event.mentions + [MentionOf(env)])
  {
  }

  lemma {:induction false} MentionsOneMore(history: seq<Entry>, entry: Entry)
    ensures StableSort.Sort(StableSort.Sort(MentionsOf(history)) + [MentionOf(entry.env)])
            == StableSort.Sort(MentionsOf(history + [entry]))
  {
    assert MentionsOf(history + [entry]) == MentionsOf(history) + [MentionOf(entry.env)];
    StableSort.OneAtATimeIsWholeLog(MentionsOf(history), MentionOf(entry.env));
  }

  /** The event of a commit is new, or extends a live event that was within the window. */
  ghost predicate Grows(events: map<EventId, CanonicalEvent>, entry: Entry) {
    var id := entry.event.eventId;
    if id in events then
      Distance(entry.env, events[id]) <= CLUSTER_WINDOW && entry.event == Extend(events[id], entry.env)
    else
      entry.event == NewEvent(entry.env, id)
  }

  lemma {:induction false} CommitGrows(log: Log, entry: Entry)
    requires Follows(log, entry)
    ensures Grows(Index(log).events, entry)
  {
    var similar := SimilarEvent(Index(log), entry.env);
    if similar.Some? {
      assert similar.value in Candidates(Index(log), entry.env);
    }
  }

  /** In a grown log every event has the versions 1..n, and the index holds the latest of them. */
  lemma {:induction false} History(log: Log, id: EventId)
    requires Grown(log)
    ensures IsHistory(EntriesOf(log, id), id)
    ensures id in Index(log).events <==> EntriesOf(log, id) != []
    ensures id in Index(log).events ==> Index(log).events[id] == EntriesOf(log, id)[|EntriesOf(log, id)| - 1].event
  {
    if log != [] {
      var before, entry := LastGrowth(log);
      History(before, id);
      if entry.event.eventId == id {
        HistoryStep(EntriesOf(before, id), id, Index(before).events, entry);
      } else {
        assert EntriesOf(log, id) == EntriesOf(before, id);
      }
    }
  }

  lemma {:induction false} HistoryStep(history: seq<Entry>, id: EventId, events: map<EventId, CanonicalEvent>, entry: Entry)
    requires IsHistory(history, id) && entry.event.eventId == id && Grows(events, entry)
    requires id in events <==> history != []
    requires id in events ==> events[id] == history[|history| - 1].event
    ensures IsHistory(history + [entry], id)
  {
    if history == [] {
      FirstVersion(entry, id);
      assert history + [entry] == [entry];
    } else {
      NextVersion(history, id, entry);
    }
    HistoryGrows(history, id, entry);
  }

  /** What the log has committed as version `v` of an event. */
  ghost function Committed(log: Log, id: EventId, v: nat): Option<CanonicalEvent> {
    var history := EntriesOf(log, id);
    if 1 <= v <= |history| then Some(history[v - 1].event) else None
  }

  lemma {:induction false} CommittedAppend(log: Log, entry: Entry, id: EventId, v: nat)
    requires entry.event.eventId == id ==> entry.event.eventVersion == |EntriesOf(log, id)| + 1
    ensures Committed(log + [entry], id, v)
            == if entry.event.eventId == id && entry.event.eventVersion == v then Some(entry.event) else Committed(log, id, v)
  {
    Append(log, entry);
  }

  lemma {:induction false} VersionOfLast(log: Log)
    requires Grown(log) && log != []
    ensures var entry := log[|log| - 1];
            entry.event.eventVersion == |EntriesOf(log[..|log| - 1], entry.event.eventId)| + 1
  {
    var id := log[|log| - 1].event.eventId;
    History(log, id);
    VersionFacts(EntriesOf(log, id), id, |EntriesOf(log[..|log| - 1], id)|);
  }

  /** Later commits never alter what was committed. */
  lemma {:induction false} CommittedIsForever(log: Log, n: nat, id: EventId, v: nat)
    requires n <= |log|
    ensures |EntriesOf(log[..n], id)| <= |EntriesOf(log, id)|
    ensures EntriesOf(log[..n], id) == EntriesOf(log, id)[..|EntriesOf(log[..n], id)|]
    ensures Committed(log[..n], id, v).Some? ==> Committed(log, id, v) == Committed(log[..n], id, v)
  {
    if n < |log| {
      assert log[..|log| - 1][..n] == log[..n];
      CommittedIsForever(log[..|log| - 1], n, id, v);
    } else {
      assert log[..n] == log;
    }
  }

  // ---- the indexes agree with a scan of the log ----

  /** `_versions` as kept by `ingest` holds every committed version and nothing else. */
  lemma {:induction false} VersionsAreTheLog(log: Log, id: EventId, v: nat)
    requires Grown(log)
    ensures (id, v) in Index(log).versions <==> Committed(log, id, v).Some?
    ensures (id, v) in Index(log).versions ==> Committed(log, id, v) == Some(Index(log).versions[(id, v)])
  {
    if log != [] {
      var before, entry := LastGrowth(log);
      VersionsAreTheLog(before, id, v);
      Append(before, entry);
      VersionOfLast(log);
      CommittedAppend(before, entry, id, v);
    }
  }

  /** The content index equals a scan of all ingested items. */
  lemma {:induction false} ContentIndexIsAScan(log: Log, hash: string, id: EventId)
    ensures id in ExactIds(Index(log).byContentHash, hash)
            <==> exists e :: e in log && e.env.contentHash == hash && e.event.eventId == id
  {
    if log != [] {
      var before, entry := log[..|log| - 1], log[|log| - 1];
      ContentIndexIsAScan(before, hash, id);
      assert log == before + [entry];
    }
  }

  lemma {:induction false} KeysAreAScan(log: Log, key: IdentityKey)
    ensures key in Index(log).byIdentity <==> exists i :: 0 <= i < |log| && KeyOf(log[i].env) == key
  {
    if log != [] {
      var before, entry := log[..|log| - 1], log[|log| - 1];
      KeysAreAScan(before, key);
      if i :| 0 <= i < |before| && KeyOf(before[i].env) == key {
        assert KeyOf(log[i].env) == key;
      }
    }
  }

  /** No two commits share a raw item. */
  ghost predicate DistinctItems(log: Log) {
    forall i, j :: 0 <= i < j < |log| ==> log[i].env.id != log[j].env.id
  }

  /** No two commits share an identity key or a raw item. */
  ghost predicate Distinct(log: Log) {
    DistinctItems(log) && forall i, j :: 0 <= i < j < |log| ==> KeyOf(log[i].env) != KeyOf(log[j].env)
  }

  lemma {:induction false} GrownHasDistinctItems(log: Log)
    requires Grown(log)
    ensures DistinctItems(log)
  {
    if log != [] {
      var before, entry := LastGrowth(log);
      GrownHasDistinctItems(before);
      assert forall i :: 0 <= i < |before| ==> log[i] in before;
    }
  }

  lemma {:induction false} ReachableIsDistinct(log: Log)
    requires Reachable(log)
    ensures Distinct(log)
  {
    if log != [] {
      var before, entry := LastCommit(log);
      ReachableIsDistinct(before);
      KeysAreAScan(before, KeyOf(entry.env));
      assert forall i :: 0 <= i < |before| ==> log[i] in before;
    }
  }

  /** The identity index sends the key of every commit to the event of that commit. */
  lemma {:induction false} IdentityIndexIsAScan(log: Log, i: nat)
    requires Distinct(log) && i < |log|
    ensures KeyOf(log[i].env) in Index(log).byIdentity
    ensures Index(log).byIdentity[KeyOf(log[i].env)] == log[i].event.eventId
  {
    if i < |log| - 1 {
      IdentityIndexIsAScan(log[..|log| - 1], i);
    }
  }

  /** An identity stays with its event for good. */
  lemma {:induction false} IdentityIsForever(log: Log, n: nat, key: IdentityKey)
    requires Reachable(log) && n <= |log| && key in Index(log[..n]).byIdentity
    ensures key in Index(log).byIdentity
    ensures Index(log).byIdentity[key] == Index(log[..n]).byIdentity[key]
  {
    ReachableIsDistinct(log);
    KeysAreAScan(log[..n], key);
    var i :| 0 <= i < n && KeyOf(log[..n][i].env) == key;
    IdentityIndexIsAScan(log, i);
    IdentityIndexIsAScan(log[..n], i);
  }

  // ---- lineage accounting ----

  /** The number of mentions of all live events together. */
  ghost function MentionCount(events: map<EventId, CanonicalEvent>, ids: set<EventId>): nat
    requires ids <= events.Keys
  {
    if ids == {} then 0
    else
      var id :| id in ids;
      |events[id].mentions| + MentionCount(events, ids - {id})
  }

  lemma {:induction false} CountOne(events: map<EventId, CanonicalEvent>, ids: set<EventId>, id: EventId)
    requires ids <= events.Keys && id in ids
    ensures MentionCount(events, ids) == |events[id].mentions| + MentionCount(events, ids - {id})
    decreases |ids|
  {
    var first :| first in ids && MentionCount(events, ids) == |events[first].mentions| + MentionCount(events, ids - {first});
    if first != id {
      CountOne(events, ids - {first}, id);
      CountOne(events, ids - {id}, first);
      assert ids - {first} - {id} == ids - {id} - {first};
    }
  }

  lemma {:induction false} CountSame(a: map<EventId, CanonicalEvent>, b: map<EventId, CanonicalEvent>, ids: set<EventId>)
    requires ids <= a.Keys && ids <= b.Keys && forall id :: id in ids ==> a[id] == b[id]
    ensures MentionCount(a, ids) == MentionCount(b, ids)
    decreases |ids|
  {
    if ids != {} {
      var id :| id in ids;
      CountOne(a, ids, id);
      CountOne(b, ids, id);
      CountSame(a, b, ids - {id});
    }
  }

  lemma {:induction false} CountAfterUpdate(was: map<EventId, CanonicalEvent>, id: EventId, event: CanonicalEvent)
    ensures var now := was[id := event];
            MentionCount(now, now.Keys)
            == MentionCount(was, was.Keys) + |event.mentions| - if id in was then |was[id].mentions| else 0
  {
    var now := was[id := event];
    CountOne(now, now.Keys, id);
    assert now.Keys - {id} == was.Keys - {id};
    CountSame(was, now, was.Keys - {id});
    if id in was {
      CountOne(was, was.Keys, id);
    } else {
      assert was.Keys - {id} == was.Keys;
    }
  }

  /** A commit adds one mention to its event. */
  lemma {:induction false} OneMentionMore(log: Log, before: Log, entry: Entry)
    requires Grown(log) && Grown(before) && log == before + [entry]
    ensures var id, events := entry.event.eventId, Index(before).events;
            |entry.event.mentions| == 1 + if id in events then |events[id].mentions| else 0
  {
    var id := entry.event.eventId;
    History(before, id);
    History(log, id);
    Append(before, entry);
    var h := EntriesOf(before, id);
    VersionFacts(EntriesOf(log, id), id, |h|);
    if h != [] {
      VersionFacts(h, id, |h| - 1);
    }
  }

  /** Every ingested item is mentioned once: mentions, identities and commits are equally many. */
  lemma {:induction false} MentionsAddUp(log: Log)
    requires Reachable(log)
    ensures MentionCount(Index(log).events, Index(log).events.Keys) == |log| == |Index(log).byIdentity|
  {
    if log != [] {
      var before, entry := LastCommit(log);
      MentionsAddUp(before);
      assert log == before + [entry];
      ReachableIsGrown(log);
      ReachableIsGrown(before);
      OneMentionMore(log, before, entry);
      CountAfterUpdate(Index(before).events, entry.event.eventId, entry.event);
    }
  }

  /** An item is mentioned by the event it was committed to, and by no other live event. */
  lemma {:induction false} ItemLiesInOneEvent(log: Log, i: nat, id: EventId)
    requires Grown(log) && i < |log| && id in Index(log).events
    ensures Mentions(Index(log).events[id].mentions, log[i].env.id) <==> id == log[i].event.eventId
  {
    var h := EntriesOf(log, id);
    History(log, id);
    VersionFacts(h, id, |h| - 1);
    assert h[..|h|] == h;
    SortedMentions(h, log[i].env.id);
    GrownHasDistinctItems(log);
    if id == log[i].event.eventId {
      var k := EntryIsInItsHistory(log, i);
    } else if k :| 0 <= k < |h| && h[k].env.id == log[i].env.id {
      var j := HistoryIsInTheLog(log, id, k);
      SameItem(log, i, j);
    }
  }

  lemma {:induction false} SameItem(log: Log, i: nat, j: nat)
    requires DistinctItems(log) && i < |log| && j < |log| && log[i].env.id == log[j].env.id
    ensures i == j
  {
  }

  ghost predicate Mentions(mentions: seq<EventMention>, item: RawItemId) {
    exists m :: m in mentions && m.rawItemId == item
  }

  lemma {:induction false} SortedMentions(h: seq<Entry>, item: RawItemId)
    ensures Mentions(StableSort.Sort(MentionsOf(h)), item) <==> exists k :: 0 <= k < |h| && h[k].env.id == item
  {
    var ms := MentionsOf(h);
    StableSort.SortPermutes(ms);
    if k :| 0 <= k < |h| && h[k].env.id == item {
      assert ms[k] in StableSort.Sort(ms);
    }
    if Mentions(StableSort.Sort(ms), item) {
      var m :| m in StableSort.Sort(ms) && m.rawItemId == item;
      var k :| 0 <= k < |ms| && ms[k] == m;
      assert h[k].env.id == item;
    }
  }

  lemma {:induction false} EntryIsInItsHistory(log: Log, i: nat) returns (k: nat)
    requires i < |log|
    ensures k < |EntriesOf(log, log[i].event.eventId)|
    ensures EntriesOf(log, log[i].event.eventId)[k] == log[i]
  {
    if i < |log| - 1 {
      k := EntryIsInItsHistory(log[..|log| - 1], i);
    } else {
      k := |EntriesOf(log, log[i].event.eventId)| - 1;
    }
  }

  lemma {:induction false} HistoryIsInTheLog(log: Log, id: EventId, k: nat) returns (j: nat)
    requires k < |EntriesOf(log, id)|
    ensures j < |log| && log[j] == EntriesOf(log, id)[k] && log[j].event.eventId == id
  {
    if k < |EntriesOf(log[..|log| - 1], id)| {
      j := HistoryIsInTheLog(log[..|log| - 1], id, k);
    } else {
      j := |log| - 1;
    }
  }
}
