/** What the mentions of an event say about the items that were ingested, field by field. */
module EventLineage {
  import opened Contracts
  import opened EventClustering
  import opened EventLog
  import opened EventTables
  import StableSort

  /** The group that an item counts for: its own if it names one, and its source otherwise. */
  ghost function GroupOf(env: RawEnvelope): string {
    if env.independenceGroup.Some? && env.independenceGroup.value != "" then env.independenceGroup.value else env.sourceId
  }

  /** The mention is that of the item. */
  ghost predicate Cites(m: EventMention, env: RawEnvelope) {
    && m.rawItemId == env.id && m.sourceId == env.sourceId && m.independenceGroup == GroupOf(env)
    && m.publishedAt == env.publishedAt && m.receivedAt == env.receivedAt
  }

  lemma {:induction false} MentionCites(env: RawEnvelope)
    ensures Cites(MentionOf(env), env)
    ensures forall m: EventMention :: Cites(m, env) ==> m == MentionOf(env)
  {
  }

  /** Commit `i` gave a version of the event up to `v`. */
  ghost predicate IsCommitOf(log: Log, i: nat, id: EventId, v: nat) {
    i < |log| && log[i].event.eventId == id && log[i].event.eventVersion <= v
  }

  ghost predicate CitesACommit(log: Log, id: EventId, v: nat, m: EventMention) {
    exists i: nat :: IsCommitOf(log, i, id, v) && Cites(m, log[i].env)
  }

  ghost predicate DistinctItemIds(mentions: seq<EventMention>) {
    forall k, l :: 0 <= k < l < |mentions| ==> mentions[k].rawItemId != mentions[l].rawItemId
  }

  /** Every mention is of one of the commits, every commit is mentioned, and no raw item is mentioned twice. */
  ghost predicate Lineage(log: Log, id: EventId, v: nat, mentions: seq<EventMention>) {
    && |mentions| == v
    && (forall m :: m in mentions ==> CitesACommit(log, id, v, m))
    && (forall i: nat :: IsCommitOf(log, i, id, v) ==> exists m :: m in mentions && Cites(m, log[i].env))
    && DistinctItemIds(mentions)
  }

  /** The first `v` commits of the event, as positions in the log. */
  lemma {:induction false} CommitOfVersion(log: Log, id: EventId, v: nat, k: nat) returns (i: nat)
    requires Grown(log) && k < v <= |EntriesOf(log, id)|
    ensures IsCommitOf(log, i, id, v) && log[i] == EntriesOf(log, id)[k]
  {
    History(log, id);
    VersionFacts(EntriesOf(log, id), id, k);
    i := HistoryIsInTheLog(log, id, k);
  }

  lemma {:induction false} VersionOfCommitOf(log: Log, id: EventId, v: nat, i: nat) returns (k: nat)
    requires Grown(log) && IsCommitOf(log, i, id, v) && v <= |EntriesOf(log, id)|
    ensures k < v && EntriesOf(log, id)[k] == log[i]
  {
    History(log, id);
    k := EntryIsInItsHistory(log, i);
    VersionFacts(EntriesOf(log, id), id, k);
  }

  lemma {:induction false} CountsOnce(mentions: seq<EventMention>, m: EventMention)
    requires DistinctItemIds(mentions)
    ensures multiset(mentions)[m] <= 1
  {
    if mentions != [] {
      var n := |mentions| - 1;
      CountsOnce(mentions[..n], m);
      assert mentions == mentions[..n] + [mentions[n]];
      assert mentions[n] == m ==> m !in mentions[..n];
    }
  }

  lemma {:induction false} CountsTwice(mentions: seq<EventMention>, k: nat, l: nat)
    requires k < l < |mentions| && mentions[k] == mentions[l]
    ensures multiset(mentions)[mentions[k]] >= 2
  {
    assert mentions == mentions[..l] + [mentions[l]] + mentions[l + 1..];
    assert mentions[..l][k] == mentions[k];
  }

  /** Reordering keeps item ids distinct. */
  lemma {:induction false} SortKeepsDistinctIds(mentions: seq<EventMention>)
    requires DistinctItemIds(mentions)
    ensures DistinctItemIds(StableSort.Sort(mentions))
  {
    var sorted := StableSort.Sort(mentions);
    StableSort.SortPermutes(mentions);
    forall k, l | 0 <= k < l < |sorted|
      ensures sorted[k].rawItemId != sorted[l].rawItemId
    {
      assert sorted[k] in mentions && sorted[l] in mentions;
      if sorted[k].rawItemId == sorted[l].rawItemId {
        assert sorted[k] == sorted[l];
        CountsTwice(sorted, k, l);
        CountsOnce(mentions, sorted[k]);
      }
    }
  }

  lemma {:induction false} HistoryHasDistinctIds(log: Log, id: EventId, v: nat)
    requires Grown(log) && v <= |EntriesOf(log, id)|
    ensures DistinctItemIds(MentionsOf(EntriesOf(log, id)[..v]))
  {
    var h := EntriesOf(log, id);
    EntriesHaveDistinctIds(log, id);
    forall k, l | 0 <= k < l < v
      ensures MentionsOf(h[..v])[k].rawItemId != MentionsOf(h[..v])[l].rawItemId
    {
      assert h[k].env.id != h[l].env.id;
    }
  }

  lemma {:induction false} EntriesHaveDistinctIds(log: Log, id: EventId)
    requires Grown(log)
    ensures forall k, l :: 0 <= k < l < |EntriesOf(log, id)| ==> EntriesOf(log, id)[k].env.id != EntriesOf(log, id)[l].env.id
  {
    if log != [] {
      var before, entry := LastGrowth(log);
      EntriesHaveDistinctIds(before, id);
      forall k | 0 <= k < |EntriesOf(before, id)|
        ensures EntriesOf(before, id)[k].env.id != entry.env.id
      {
        var j := HistoryIsInTheLog(before, id, k);
        assert before[j] in before;
      }
    }
  }

  lemma {:induction false} LineageOfHistory(log: Log, id: EventId, v: nat)
    requires Grown(log) && v <= |EntriesOf(log, id)|
    ensures Lineage(log, id, v, MentionsOf(EntriesOf(log, id)[..v]))
  {
    var ms := MentionsOf(EntriesOf(log, id)[..v]);
    HistoryHasDistinctIds(log, id, v);
    forall m | m in ms
      ensures CitesACommit(log, id, v, m)
    {
      var k :| 0 <= k < v && ms[k] == m;
      var i := CommitOfVersion(log, id, v, k);
      MentionCites(log[i].env);
    }
    forall i: nat | IsCommitOf(log, i, id, v)
      ensures exists m :: m in ms && Cites(m, log[i].env)
    {
      var k := VersionOfCommitOf(log, id, v, i);
      MentionCites(log[i].env);
      assert ms[k] == MentionOf(log[i].env) && ms[k] in ms;
    }
  }

  lemma {:induction false} SortKeepsLineage(log: Log, id: EventId, v: nat, mentions: seq<EventMention>)
    requires Lineage(log, id, v, mentions)
    ensures Lineage(log, id, v, StableSort.Sort(mentions))
  {
    StableSort.SortPermutes(mentions);
    SortKeepsDistinctIds(mentions);
    forall i: nat | IsCommitOf(log, i, id, v)
      ensures exists m :: m in StableSort.Sort(mentions) && Cites(m, log[i].env)
    {
      var m :| m in mentions && Cites(m, log[i].env);
      assert m in StableSort.Sort(mentions);
    }
  }

  /**
   * Lineage. In every grown log each version of an event mentions just the items of its first commits, each
   * once, with item, source, group, publication and receipt of the item that was ingested, in order of receipt.
   */
  lemma {:induction false} MentionsAreTheItems(log: Log, id: EventId, v: nat)
    requires Grown(log) && Committed(log, id, v).Some?
    ensures var mentions := Committed(log, id, v).value.mentions;
            && Lineage(log, id, v, mentions)
            && forall k, l :: 0 <= k < l < |mentions| ==> mentions[k].receivedAt <= mentions[l].receivedAt
  {
    var ms := MentionsOf(EntriesOf(log, id)[..v]);
    History(log, id);
    VersionFacts(EntriesOf(log, id), id, v - 1);
    LineageOfHistory(log, id, v);
    SortKeepsLineage(log, id, v, ms);
    StableSort.SortIsStable(ms);
  }

  /** Each mention is of exactly one commit of the whole log. */
  lemma {:induction false} CitedOnce(log: Log, m: EventMention, i: nat, j: nat)
    requires Grown(log) && i < |log| && j < |log| && Cites(m, log[i].env) && Cites(m, log[j].env)
    ensures i == j
  {
    GrownHasDistinctItems(log);
    SameItem(log, i, j);
  }

  // ---- independence ----

  /** The groups of the items that were ingested into the event up to version `v`. */
  ghost function ItemGroups(log: Log, id: EventId, v: nat): set<string> {
    set i: nat | 0 <= i < |log| && IsCommitOf(log, i, id, v) :: GroupOf(log[i].env)
  }

  lemma {:induction false} GroupsAreItemGroups(log: Log, id: EventId, v: nat, mentions: seq<EventMention>)
    requires Lineage(log, id, v, mentions)
    ensures Groups(mentions) == ItemGroups(log, id, v)
  {
    forall g | g in Groups(mentions)
      ensures g in ItemGroups(log, id, v)
    {
      var m :| m in mentions && m.independenceGroup == g;
      assert CitesACommit(log, id, v, m);
    }
    forall g | g in ItemGroups(log, id, v)
      ensures g in Groups(mentions)
    {
      var i: nat :| 0 <= i < |log| && IsCommitOf(log, i, id, v) && GroupOf(log[i].env) == g;
      var m :| m in mentions && Cites(m, log[i].env);
    }
  }

  /** Independence counts the groups of the ingested items: half for one, a quarter more for each other, up to one. */
  lemma {:induction false} IndependenceCountsGroups(log: Log, id: EventId, v: nat)
    requires Grown(log) && Committed(log, id, v).Some?
    ensures var n := |ItemGroups(log, id, v)|;
            && n >= 1
            && Committed(log, id, v).value.sourceIndependence == if n == 1 then 2 else if n == 2 then 3 else 4
  {
    var event := Committed(log, id, v).value;
    MentionsAreTheItems(log, id, v);
    GroupsAreItemGroups(log, id, v, event.mentions);
    History(log, id);
    assert VersionOk(EntriesOf(log, id), id, v - 1);
    assert event.mentions[0].independenceGroup in Groups(event.mentions);
  }

  /** Syndicated items of one group do not make an event more independent, however many there are. */
  lemma {:induction false} OneGroupStaysAtHalf(log: Log, id: EventId, v: nat, group: string)
    requires Grown(log) && Committed(log, id, v).Some?
    requires forall i: nat :: IsCommitOf(log, i, id, v) ==> GroupOf(log[i].env) == group
    ensures Committed(log, id, v).value.sourceIndependence == 2
  {
    IndependenceCountsGroups(log, id, v);
    assert forall g :: g in ItemGroups(log, id, v) ==> g == group;
    if |ItemGroups(log, id, v)| > 1 {
      OneElement(ItemGroups(log, id, v), group);
    }
  }

  lemma {:induction false} OneElement<T>(s: set<T>, x: T)
    requires forall y :: y in s ==> y == x
    ensures |s| <= 1
  {
    assert s <= {x};
    if s != {} {
      assert s == {x};
    }
  }

  // ---- the stored rows ----

  /** Column by column, the rows that a commit has left in the tables. */
  lemma {:induction false} StoredColumns(log: Log, i: nat)
    requires i < |log|
    ensures var t, env, event := TablesOf(log), log[i].env, log[i].event;
            && t.rawItems[i] == env
            && t.mentionRows[i].rawItemId == env.id && t.mentionRows[i].sourceId == env.sourceId
            && t.mentionRows[i].independenceGroup == GroupOf(env)
            && t.mentionRows[i].publishedAt == env.publishedAt && t.mentionRows[i].receivedAt == env.receivedAt
            && t.mentionRows[i].eventId == event.eventId && t.mentionRows[i].eventVersion == event.eventVersion
            && t.eventRows[i].eventId == event.eventId && t.eventRows[i].eventVersion == event.eventVersion
            && t.eventRows[i].versionCreatedAt == event.versionCreatedAt
            && t.eventRows[i].canonicalTitle == event.canonicalTitle && t.eventRows[i].eventType == event.eventType
            && t.eventRows[i].eventTime == event.eventTime && t.eventRows[i].language == event.language
            && t.eventRows[i].firstReceivedAt == event.firstReceivedAt
            && t.eventRows[i].lastUpdatedAt == event.lastUpdatedAt
            && t.eventRows[i].sourceIndependence == event.sourceIndependence
  {
    MentionCites(log[i].env);
  }
}
