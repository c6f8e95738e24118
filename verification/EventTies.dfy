/** Services whose events are those of a log but for the order of mentions received at one instant. */
module EventTies {
  import opened Common
  import opened Contracts
  import opened EventClustering
  import opened EventLog
  import opened EventTables
  import opened EventReload
  import StableSort

  /** The same indexes, with events up to ties. */
  ghost predicate TiedIndexes(a: Memory, b: Memory) {
    && a.events.Keys == b.events.Keys
    && (forall id :: id in a.events ==> SameUpToTies(a.events[id], b.events[id]))
    && a.byIdentity == b.byIdentity && a.byContentHash == b.byContentHash
  }

  /** Every cached version is the committed one, up to ties. */
  ghost predicate TiedCache(versions: map<(EventId, nat), CanonicalEvent>, log: Log) {
    forall id, v :: (id, v) in versions ==> TiedAnswer(Some(versions[(id, v)]), Committed(log, id, v))
  }

  /** Two answers to a version read that differ at most in the order of ties. */
  ghost predicate TiedAnswer(a: Option<CanonicalEvent>, b: Option<CanonicalEvent>) {
    (a.Some? <==> b.Some?) && (a.Some? ==> SameUpToTies(a.value, b.value))
  }

  ghost predicate TiedTo(mem: Memory, log: Log) {
    TiedIndexes(mem, Index(log)) && TiedCache(mem.versions, log)
  }

  lemma {:induction false} TiedIsFiled(a: Memory, b: Memory)
    requires Filed(b.events) && TiedIndexes(a, b)
    ensures Filed(a.events) && |a.events| == |b.events|
  {
    forall id | id in a.events
      ensures a.events[id].eventId == id
    {
      assert SameUpToTies(a.events[id], b.events[id]);
    }
    assert |a.events.Keys| == |a.events| && |b.events.Keys| == |b.events|;
  }

  // ---- the decision ----

  lemma {:induction false} TiedRanks(x: CanonicalEvent, y: CanonicalEvent, env: RawEnvelope, exactIds: set<EventId>)
    requires SameUpToTies(x, y)
    ensures Eligible(env, x, exactIds) == Eligible(env, y, exactIds)
    ensures RankOf(env, x, exactIds) == RankOf(env, y, exactIds)
  {
  }

  /** The choice of an event does not depend on the order of mentions. */
  lemma {:induction false} TiedChoice(a: Memory, b: Memory, env: RawEnvelope)
    requires Filed(a.events) && Filed(b.events) && TiedIndexes(a, b)
    ensures SimilarEvent(a, env) == SimilarEvent(b, env)
  {
    var exactIds := ExactIds(b.byContentHash, env.contentHash);
    forall id | id in a.events
      ensures Eligible(env, a.events[id], exactIds) == Eligible(env, b.events[id], exactIds)
      ensures RankOf(env, a.events[id], exactIds) == RankOf(env, b.events[id], exactIds)
    {
      TiedRanks(a.events[id], b.events[id], env, exactIds);
    }
    assert Candidates(a, env) == Candidates(b, env);
    var similar := SimilarEvent(b, env);
    if similar.Some? {
      assert IsBest(a, env, Candidates(a, env), similar.value);
      SimilarEventIsTheMaximum(a, env, similar.value);
    }
  }

  lemma {:induction false} SameGroups(a: seq<EventMention>, b: seq<EventMention>)
    requires multiset(a) == multiset(b)
    ensures Groups(a) == Groups(b)
  {
    SameElements(a, b);
  }

  lemma {:induction false} TiedExtend(x: CanonicalEvent, y: CanonicalEvent, env: RawEnvelope)
    requires SameUpToTies(x, y)
    ensures SameUpToTies(Extend(x, env), Extend(y, env))
  {
    var m := MentionOf(env);
    SameGroups(x.mentions, y.mentions);
    var row := RowOf(Extend(y, env));
    SortsAreTied(row, x.mentions + [m], y.mentions + [m]);
    assert Extend(x, env) == CanonicalOf(row, StableSort.Sort(x.mentions + [m]));
    assert Extend(y, env) == CanonicalOf(row, StableSort.Sort(y.mentions + [m]));
  }

  lemma {:induction false} TiedDecision(a: Memory, b: Memory, env: RawEnvelope, newId: EventId)
    requires Filed(a.events) && Filed(b.events) && TiedIndexes(a, b)
    ensures SameUpToTies(Decide(a, env, newId), Decide(b, env, newId))
  {
    TiedChoice(a, b, env);
    var similar := SimilarEvent(b, env);
    if similar.Some? {
      assert similar.value in Candidates(b, env);
      TiedExtend(a.events[similar.value], b.events[similar.value], env);
    }
  }

  // ---- the save ----

  /** Rows do not show the order of mentions: both events are saved alike. */
  lemma {:induction false} TiedSave(log: Log, env: RawEnvelope, x: CanonicalEvent, y: CanonicalEvent, available: bool)
    requires Grown(log) && Follows(log, Entry(env, y)) && SameUpToTies(x, y)
    ensures Save(TablesOf(log), env, x, available) == Save(TablesOf(log), env, y, available)
  {
    NewMentionIsOnly(log, Entry(env, y));
    SameElements(x.mentions, y.mentions);
    OnlyMention(x.mentions, MentionOf(env));
    OnlyMention(y.mentions, MentionOf(env));
    assert RowOf(x) == RowOf(y);
  }

  lemma {:induction false} TiedRecord(a: Memory, b: Memory, env: RawEnvelope, x: CanonicalEvent, y: CanonicalEvent)
    requires TiedIndexes(a, b) && SameUpToTies(x, y)
    ensures TiedIndexes(Record(a, env, x), Record(b, env, y))
  {
  }

  lemma {:induction false} TiedCacheGrows(versions: map<(EventId, nat), CanonicalEvent>, log: Log, entry: Entry)
    requires TiedCache(versions, log)
    ensures TiedCache(versions, log + [entry])
  {
    var longer := log + [entry];
    assert longer[..|log|] == log;
    forall id, v | (id, v) in versions
      ensures TiedAnswer(Some(versions[(id, v)]), Committed(longer, id, v))
    {
      CommittedIsForever(longer, |log|, id, v);
    }
  }

  /**
   * A service tied to a log, deciding on an item the log does not know: what it saves is what an exact
   * service would save, and afterwards it is tied to the log of one commit more.
   */
  lemma {:induction false} TiedIngest(mem: Memory, log: Log, env: RawEnvelope, newId: EventId, available: bool)
    requires Grown(log) && Filed(mem.events) && TiedTo(mem, log)
    requires Follows(log, Entry(env, Decide(Index(log), env, newId)))
    ensures var entry := Entry(env, Decide(Index(log), env, newId));
            && Save(TablesOf(log), env, Decide(mem, env, newId), available) == Save(TablesOf(log), env, entry.event, available)
            && TiedTo(Record(mem, env, Decide(mem, env, newId)), log + [entry])
  {
    var x, y := Decide(mem, env, newId), Decide(Index(log), env, newId);
    var entry := Entry(env, y);
    TiedDecision(mem, Index(log), env, newId);
    TiedSave(log, env, x, y, available);
    TiedRecord(mem, Index(log), env, x, y);
    Append(log, entry);
    TiedCacheGrows(mem.versions, log, entry);
    NewVersionCommitted(log, entry);
  }

  lemma {:induction false} NewVersionCommitted(log: Log, entry: Entry)
    requires Grown(log) && Follows(log, entry)
    ensures Committed(log + [entry], entry.event.eventId, entry.event.eventVersion) == Some(entry.event)
  {
    var longer, id := log + [entry], entry.event.eventId;
    CommitGrows(log, entry);
    AppendIsGrown(log, entry);
    Append(log, entry);
    History(longer, id);
    VersionFacts(EntriesOf(longer, id), id, |EntriesOf(log, id)|);
  }

  // ---- loads and reads ----

  /** A service that has just loaded, in whatever order the rows came, is tied to the log. */
  lemma {:induction false} LoadIsTied(log: Log, rows: Tables)
    requires Reachable(log) && SameRows(rows, TablesOf(log))
    ensures TiedTo(Rebuild(LoadState(rows)), log)
  {
    ReloadOnlyMovesTies(log, rows);
    ReachableIsGrown(log);
    var mem := Rebuild(LoadState(rows));
    forall id, v | (id, v) in mem.versions
      ensures TiedAnswer(Some(mem.versions[(id, v)]), Committed(log, id, v))
    {
      assert SameUpToTies(mem.events[id], Index(log).events[id]);
      LiveIsCommitted(log, id);
    }
  }

  lemma {:induction false} LiveIsCommitted(log: Log, id: EventId)
    requires Grown(log) && id in Index(log).events
    ensures Committed(log, id, Index(log).events[id].eventVersion) == Some(Index(log).events[id])
  {
    History(log, id);
    VersionFacts(EntriesOf(log, id), id, |EntriesOf(log, id)| - 1);
  }

  /** A version read, from the cache or from rows in any order, is the committed version up to ties. */
  lemma {:induction false} ReadIsTied(mem: Memory, log: Log, rows: Tables, id: EventId, v: nat)
    requires Grown(log) && TiedCache(mem.versions, log) && SameRows(rows, TablesOf(log))
    ensures var answer := if (id, v) in mem.versions then Some(mem.versions[(id, v)]) else LoadEventVersion(rows, id, v);
            TiedAnswer(answer, Committed(log, id, v))
  {
    TimeTravelInAnyOrder(log, rows, id, v);
  }
}
