/** The decisions of `EventService.ingest` as functions of the in-memory indexes. */
module EventClustering {
  import opened Common
  import opened Contracts
  import opened TitleSimilarity
  import StableSort

  /** 24 hours in microseconds. */
  const CLUSTER_WINDOW: Time := 24 * 3600 * 1_000_000

  type IdentityKey = (string, string, string)

  /** The four dictionaries of `EventService`. */
  datatype Memory = Memory(
    events: map<EventId, CanonicalEvent>,
    versions: map<(EventId, nat), CanonicalEvent>,
    byIdentity: map<IdentityKey, EventId>,
    byContentHash: map<string, set<EventId>>)

  const EMPTY_MEMORY := Memory(map[], map[], map[], map[])

  function Identity(nativeId: Option<string>, contentHash: string): string {
    OrElse(nativeId, "sha256:" + contentHash)
  }

  function KeyOf(env: RawEnvelope): IdentityKey {
    (env.provider, env.sourceId, Identity(env.nativeId, env.contentHash))
  }

  function ExactIds(byContentHash: map<string, set<EventId>>, contentHash: string): set<EventId> {
    if contentHash in byContentHash then byContentHash[contentHash] else {}
  }

  // ---- choosing the event an item belongs to ----

  datatype Rank = Rank(exact: nat, similarity: real, closeness: int, id: EventId)

  /** Python's lexicographic order on the rank tuple. */
  predicate RankLess(a: Rank, b: Rank) {
    a.exact < b.exact
    || (a.exact == b.exact
        && (a.similarity < b.similarity
            || (a.similarity == b.similarity
                && (a.closeness < b.closeness || (a.closeness == b.closeness && a.id < b.id)))))
  }

  function Distance(env: RawEnvelope, event: CanonicalEvent): nat {
    var apart := env.receivedAt - event.lastUpdatedAt;
    if apart < 0 then -apart else apart
  }

  function Similarity(env: RawEnvelope, event: CanonicalEvent): real {
    Jaccard(TitleFingerprint(env.title), TitleFingerprint(event.canonicalTitle))
  }

  predicate Eligible(env: RawEnvelope, event: CanonicalEvent, exactIds: set<EventId>) {
    && event.eventType == env.category
    && Distance(env, event) <= CLUSTER_WINDOW
    && (event.eventId in exactIds || Similarity(env, event) >= 0.85)
  }

  function RankOf(env: RawEnvelope, event: CanonicalEvent, exactIds: set<EventId>): Rank {
    Rank(if event.eventId in exactIds then 1 else 0, Similarity(env, event), 0 - Distance(env, event), event.eventId)
  }

  /** Every event is filed under its own id. */
  ghost predicate Filed(events: map<EventId, CanonicalEvent>) {
    forall id :: id in events ==> events[id].eventId == id
  }

  ghost function Candidates(mem: Memory, env: RawEnvelope): set<EventId> {
    set id | id in mem.events && Eligible(env, mem.events[id], ExactIds(mem.byContentHash, env.contentHash))
  }

  ghost predicate IsBest(mem: Memory, env: RawEnvelope, ids: set<EventId>, best: EventId)
    requires ids <= mem.events.Keys
  {
    && best in ids
    && var exactIds := ExactIds(mem.byContentHash, env.contentHash);
       forall id :: id in ids && id != best ==>
         RankLess(RankOf(env, mem.events[id], exactIds), RankOf(env, mem.events[best], exactIds))
  }

  lemma {:induction false} BestExists(mem: Memory, env: RawEnvelope, ids: set<EventId>)
    requires Filed(mem.events) && ids <= mem.events.Keys && ids != {}
    ensures exists best :: IsBest(mem, env, ids, best)
    decreases |ids|
  {
    var one :| one in ids;
    if ids == {one} {
      assert IsBest(mem, env, ids, one);
    } else {
      assert ids - {one} != {};
      BestExists(mem, env, ids - {one});
      var best :| IsBest(mem, env, ids - {one}, best);
      var exactIds := ExactIds(mem.byContentHash, env.contentHash);
      if RankLess(RankOf(env, mem.events[one], exactIds), RankOf(env, mem.events[best], exactIds)) {
        assert IsBest(mem, env, ids, best);
      } else {
        assert IsBest(mem, env, ids, one);
      }
    }
  }

  lemma {:induction false} BestIsUnique(mem: Memory, env: RawEnvelope, ids: set<EventId>, a: EventId, b: EventId)
    requires ids <= mem.events.Keys && IsBest(mem, env, ids, a) && IsBest(mem, env, ids, b)
    ensures a == b
  {
  }

  /** `_similar_event`: the best ranked candidate, if there is one. */
  ghost function SimilarEvent(mem: Memory, env: RawEnvelope): (r: Option<EventId>)
    requires Filed(mem.events)
    ensures r.None? <==> Candidates(mem, env) == {}
    ensures r.Some? ==> IsBest(mem, env, Candidates(mem, env), r.value)
  {
    var ids := Candidates(mem, env);
    if ids == {} then None
    else
      BestExists(mem, env, ids);
      var best :| IsBest(mem, env, ids, best);
      Some(best)
  }

  /**
   * The choice looks at nothing but the live events and the ids filed under the item's content hash:
   * it is `best` exactly when `best` outranks every other candidate.
   */
  lemma {:induction false} SimilarEventIsTheMaximum(mem: Memory, env: RawEnvelope, best: EventId)
    requires Filed(mem.events)
    ensures SimilarEvent(mem, env) == Some(best) <==> IsBest(mem, env, Candidates(mem, env), best)
  {
    if IsBest(mem, env, Candidates(mem, env), best) {
      BestIsUnique(mem, env, Candidates(mem, env), best, SimilarEvent(mem, env).value);
    }
  }

  /** So two services with the same live events and content index choose alike. */
  lemma {:induction false} SameIndexesSameChoice(a: Memory, b: Memory, env: RawEnvelope)
    requires Filed(a.events) && a.events == b.events && a.byContentHash == b.byContentHash
    ensures SimilarEvent(a, env) == SimilarEvent(b, env)
  {
    assert Candidates(a, env) == Candidates(b, env);
    if SimilarEvent(a, env).Some? {
      var best := SimilarEvent(a, env).value;
      assert IsBest(b, env, Candidates(b, env), best);
      SimilarEventIsTheMaximum(b, env, best);
    }
  }

  // ---- the event after an item ----

  function MentionOf(env: RawEnvelope): EventMention {
    EventMention(env.id, env.sourceId, OrElse(env.independenceGroup, env.sourceId), env.publishedAt, env.receivedAt)
  }

  function NewEvent(env: RawEnvelope, id: EventId): CanonicalEvent {
    CanonicalEvent(
      id, 1, env.processedAt, env.title, env.category,
      if env.eventTime.Some? then env.eventTime else env.publishedAt,
      env.receivedAt, env.receivedAt, env.language, 2, [MentionOf(env)])
  }

  function Groups(mentions: seq<EventMention>): set<string> {
    set m | m in mentions :: m.independenceGroup
  }

  function Extend(existing: CanonicalEvent, env: RawEnvelope): CanonicalEvent {
    var groups := Groups(existing.mentions) + {OrElse(env.independenceGroup, env.sourceId)};
    existing.(
      eventVersion := existing.eventVersion + 1,
      versionCreatedAt := env.processedAt,
      firstReceivedAt := Min(existing.firstReceivedAt, env.receivedAt),
      lastUpdatedAt := Max(existing.lastUpdatedAt, env.receivedAt),
      sourceIndependence := Min(4, 2 + (|groups| - 1)),
      mentions := StableSort.Sort(existing.mentions + [MentionOf(env)]))
  }

  /** The four updates at the end of `ingest`. */
  function Record(mem: Memory, env: RawEnvelope, event: CanonicalEvent): Memory {
    Memory(
      mem.events[event.eventId := event],
      mem.versions[(event.eventId, event.eventVersion) := event],
      mem.byIdentity[KeyOf(env) := event.eventId],
      mem.byContentHash[env.contentHash := ExactIds(mem.byContentHash, env.contentHash) + {event.eventId}])
  }

  /** The event that `ingest` saves for an item with an unknown key. */
  ghost function Decide(mem: Memory, env: RawEnvelope, newId: EventId): CanonicalEvent
    requires Filed(mem.events)
  {
    match SimilarEvent(mem, env)
    case None => NewEvent(env, newId)
    case Some(id) => Extend(mem.events[id], env)
  }

  // ---- what every event keeps ----

  /** Neighbouring mentions were received at most one cluster window apart. */
  ghost predicate Chained(mentions: seq<EventMention>) {
    forall i :: 0 <= i < |mentions| - 1 ==>
      mentions[i + 1].receivedAt - mentions[i].receivedAt <= CLUSTER_WINDOW
  }

  ghost predicate WellFormed(event: CanonicalEvent) {
    && |event.mentions| == event.eventVersion >= 1
    && StableSort.Sorted(event.mentions)
    && event.firstReceivedAt == event.mentions[0].receivedAt
    && event.lastUpdatedAt == event.mentions[|event.mentions| - 1].receivedAt
    && event.sourceIndependence == Min(4, 2 + (|Groups(event.mentions)| - 1))
    && Chained(event.mentions)
  }

  lemma {:induction false} NewEventIsWellFormed(env: RawEnvelope, id: EventId)
    ensures WellFormed(NewEvent(env, id))
  {
    assert Groups([MentionOf(env)]) == {MentionOf(env).independenceGroup};
  }

  lemma {:induction false} GroupsOfSort(mentions: seq<EventMention>, m: EventMention)
    ensures Groups(StableSort.Sort(mentions + [m])) == Groups(mentions) + {m.independenceGroup}
  {
    var all := mentions + [m];
    StableSort.SortPermutes(all);
    assert m in all && forall x :: x in mentions ==> x in all;
  }

  /** Inserting a mention that is within the window of the latest one keeps the chain. */
  lemma {:induction false} InsertKeepsChain(ms: seq<EventMention>, m: EventMention)
    requires ms != [] && StableSort.Sorted(ms) && Chained(ms)
    requires -CLUSTER_WINDOW <= m.receivedAt - ms[|ms| - 1].receivedAt <= CLUSTER_WINDOW
    ensures
      var r := StableSort.Insert(ms, m);
      && |r| == |ms| + 1
      && Chained(r)
      && r[0].receivedAt == Min(ms[0].receivedAt, m.receivedAt)
      && r[|ms|].receivedAt == Max(ms[|ms| - 1].receivedAt, m.receivedAt)
  {
    var init, last := ms[..|ms| - 1], ms[|ms| - 1];
    StableSort.InsertPermutes(ms, m);
    StableSort.InsertPermutes(init, m);
    if m.receivedAt < last.receivedAt && init != [] {
      assert ms[|init| - 1 + 1].receivedAt - init[|init| - 1].receivedAt <= CLUSTER_WINDOW;
      InsertKeepsChain(init, m);
      assert StableSort.Insert(ms, m) == StableSort.Insert(init, m) + [last];
    }
  }

  /** Sorting the new mention in is inserting it. */
  lemma {:induction false} SortIsInsert(ms: seq<EventMention>, m: EventMention)
    requires StableSort.Sorted(ms)
    ensures StableSort.Sort(ms + [m]) == StableSort.Insert(ms, m) && StableSort.Sorted(StableSort.Insert(ms, m))
  {
    StableSort.SortOfSorted(ms);
    assert (ms + [m])[..|ms|] == ms;
    StableSort.SortIsStable(ms + [m]);
  }

  /** An eligible item turns a well-formed event into a well-formed event. */
  lemma {:induction false} ExtendIsWellFormed(event: CanonicalEvent, env: RawEnvelope)
    requires WellFormed(event) && Distance(env, event) <= CLUSTER_WINDOW
    ensures WellFormed(Extend(event, env))
  {
    SortIsInsert(event.mentions, MentionOf(env));
    InsertKeepsChain(event.mentions, MentionOf(env));
    GroupsOfSort(event.mentions, MentionOf(env));
  }

  /** A chain of gaps bounds the whole life of the event by its number of versions. */
  lemma {:induction false} SpanOfChain(ms: seq<EventMention>, k: nat)
    requires Chained(ms) && k < |ms|
    ensures ms[k].receivedAt - ms[0].receivedAt <= CLUSTER_WINDOW * k
  {
    if k > 0 {
      SpanOfChain(ms, k - 1);
      assert ms[k - 1 + 1].receivedAt - ms[k - 1].receivedAt <= CLUSTER_WINDOW;
    }
  }
}
