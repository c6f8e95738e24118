/** What whole runs of `ingest` guarantee about one cluster: its time span and its title diameter. */
module EventClusters {
  import opened Contracts
  import opened TitleSimilarity
  import opened EventClustering
  import opened EventLog

  /** Every live event is well formed, and its span is bounded by its number of versions. */
  lemma {:induction false} LiveEventShape(log: Log, id: EventId)
    requires Grown(log) && id in Index(log).events
    ensures WellFormed(Index(log).events[id])
    ensures var event := Index(log).events[id];
            event.lastUpdatedAt - event.firstReceivedAt <= CLUSTER_WINDOW * (event.eventVersion - 1)
  {
    History(log, id);
    var h := EntriesOf(log, id);
    assert VersionOk(h, id, |h| - 1);
    var ms := Index(log).events[id].mentions;
    SpanOfChain(ms, |ms| - 1);
  }

  /** The item's content had not been seen in its event before. */
  ghost predicate FreshContent(log: Log, i: nat)
    requires i < |log|
  {
    forall j :: 0 <= j < i && log[j].event.eventId == log[i].event.eventId ==>
      log[j].env.contentHash != log[i].env.contentHash
  }

  ghost predicate Founder(log: Log, i: nat)
    requires i < |log|
  {
    forall j :: 0 <= j < i ==> log[j].event.eventId != log[i].event.eventId
  }

  /** The item got in by its title: it brought new content, or its title was close enough anyway. */
  ghost predicate ByTitle(log: Log, i: nat)
    requires i < |log|
  {
    FreshContent(log, i) || Similarity(log[i].env, log[i].event) >= 0.85
  }

  /** `event` was founded by `env`: the parts that `ingest` sets once and never updates. */
  ghost predicate FoundedBy(event: CanonicalEvent, env: RawEnvelope) {
    && event.canonicalTitle == env.title && event.eventType == env.category && event.language == env.language
    && event.eventTime == (if env.eventTime.Some? then env.eventTime else env.publishedAt)
  }

  lemma {:induction false} FounderOfHistory(h: seq<Entry>, id: EventId, k: nat)
    requires IsHistory(h, id) && k < |h|
    ensures FoundedBy(h[k].event, h[0].env) && h[k].event.versionCreatedAt == h[k].env.processedAt
  {
    assert VersionOk(h, id, k);
    if k > 0 {
      FounderOfHistory(h, id, k - 1);
    }
  }

  lemma {:induction false} FirstOfHistory(log: Log, i: nat)
    requires i < |log|
    ensures EntriesOf(log, log[i].event.eventId) != []
    ensures Founder(log, i) ==> EntriesOf(log, log[i].event.eventId)[0] == log[i]
    ensures !Founder(log, i) ==> EntriesOf(log[..i], log[i].event.eventId) != []
  {
    var id := log[i].event.eventId;
    CommittedIsForever(log, i + 1, id, 1);
    assert log[..i + 1][..i] == log[..i];
    if Founder(log, i) {
      NoEntries(log[..i], id);
    } else {
      var j :| 0 <= j < i && log[j].event.eventId == id;
      var _ := EntryIsInItsHistory(log[..i], j);
    }
  }

  lemma {:induction false} NoEntries(log: Log, id: EventId)
    requires forall j :: 0 <= j < |log| ==> log[j].event.eventId != id
    ensures EntriesOf(log, id) == []
  {
    if log != [] {
      NoEntries(log[..|log| - 1], id);
    }
  }

  /** Title, type, language and event time are those of the founding item, in every version of the event. */
  lemma {:induction false} FounderIsForever(log: Log, i: nat, j: nat)
    requires Grown(log) && i < |log| && j < |log| && log[i].event.eventId == log[j].event.eventId
    ensures log[i].event.canonicalTitle == log[j].event.canonicalTitle
    ensures Founder(log, i) ==> FoundedBy(log[j].event, log[i].env)
    ensures log[j].event.versionCreatedAt == log[j].env.processedAt
  {
    var id := log[i].event.eventId;
    History(log, id);
    var h := EntriesOf(log, id);
    var k := EntryIsInItsHistory(log, i);
    var l := EntryIsInItsHistory(log, j);
    FounderOfHistory(h, id, k);
    FounderOfHistory(h, id, l);
    FirstOfHistory(log, i);
  }

  /** An event collects items of its own category only, each within the window of the version before. */
  lemma {:induction false} CategoryIsShared(log: Log, i: nat)
    requires Reachable(log) && i < |log|
    ensures log[i].event.eventType == log[i].env.category
    ensures var live, id := Index(log[..i]).events, log[i].event.eventId;
            id in live ==> Distance(log[i].env, live[id]) <= CLUSTER_WINDOW
  {
    var before, entry := log[..i], log[i];
    assert CommitOk(log, i);
    var similar := SimilarEvent(Index(before), entry.env);
    assert similar.Some? ==> similar.value in Candidates(Index(before), entry.env);
  }

  /** An item that did not found its event and got in by title clears 0.85 against the canonical title. */
  lemma {:induction false} AdmittedByTitle(log: Log, i: nat)
    requires Reachable(log) && i < |log| && ByTitle(log, i) && !Founder(log, i)
    ensures Similarity(log[i].env, log[i].event) >= 0.85
  {
    var before, entry, id := log[..i], log[i], log[i].event.eventId;
    assert CommitOk(log, i);
    CommitGrows(before, entry);
    PrefixIsReachable(log, i);
    ReachableIsGrown(before);
    History(before, id);
    FirstOfHistory(log, i);
    ContentIndexIsAScan(before, entry.env.contentHash, id);
    assert forall e :: e in before ==> exists j :: 0 <= j < i && log[j] == e;
    var similar := SimilarEvent(Index(before), entry.env);
    assert similar.Some? && similar.value in Candidates(Index(before), entry.env);
  }

  /**
   * Cluster diameter: any two items admitted to one event by title have titles with similarity at
   * least 0.70 to each other, however many items lie between them.
   */
  lemma {:induction false} ClusterDiameter(log: Log, i: nat, j: nat)
    requires Reachable(log) && i < j < |log| && log[i].event.eventId == log[j].event.eventId
    requires ByTitle(log, i) && ByTitle(log, j)
    ensures Jaccard(TitleFingerprint(log[i].env.title), TitleFingerprint(log[j].env.title)) >= 0.70
  {
    ReachableIsGrown(log);
    FounderIsForever(log, i, j);
    AdmittedByTitle(log, j);
    var a, b := TitleFingerprint(log[i].env.title), TitleFingerprint(log[j].env.title);
    JaccardRange(a, b);
    if !Founder(log, i) {
      AdmittedByTitle(log, i);
      SimilarToOneTitle(a, TitleFingerprint(log[i].event.canonicalTitle), b);
    }
  }
}
