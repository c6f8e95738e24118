/** `SqlEventRepository`, `EventService`, the bootstrap replay, the lease and the worker, as objects. */
module EventService {
  import opened Common
  import opened Contracts
  import opened EventClustering
  import opened EventLog
  import opened EventTables
  import opened EventReplay
  import opened EventIngest
  import EventProcesses
  import StableSort

  function Grouped(mentionsByEvent: map<EventId, seq<EventMention>>, id: EventId): seq<EventMention> {
    if id in mentionsByEvent then mentionsByEvent[id] else []
  }

  /** The mentions of each event among the rows, as `load_state` collects them. */
  ghost predicate GroupsRows(mentionsByEvent: map<EventId, seq<EventMention>>, rows: seq<EventMentionRow>) {
    forall id :: Grouped(mentionsByEvent, id) == MentionsFor(rows, id, None)
  }

  lemma {:induction false} GroupOneMore(grouped: map<EventId, seq<EventMention>>, rows: seq<EventMentionRow>, row: EventMentionRow)
    requires GroupsRows(grouped, rows)
    ensures GroupsRows(grouped[row.eventId := Grouped(grouped, row.eventId) + [MentionOfRow(row)]], rows + [row])
  {
    var more := grouped[row.eventId := Grouped(grouped, row.eventId) + [MentionOfRow(row)]];
    forall id
      ensures Grouped(more, id) == MentionsFor(rows + [row], id, None)
    {
      MentionsForAppend(rows, row, id, None);
      assert Grouped(grouped, id) == MentionsFor(rows, id, None);
    }
  }

  class SqlEventRepository {
    var rawItems: seq<RawItemRow>
    var eventRows: seq<EventRow>
    var mentionRows: seq<EventMentionRow>

    function Rows(): Tables
      reads this
    {
      Tables(rawItems, eventRows, mentionRows)
    }

    /** A repository over the tables as they are. */
    constructor (tables: Tables)
      ensures Rows() == tables
    {
      rawItems, eventRows, mentionRows := tables.rawItems, tables.eventRows, tables.mentionRows;
    }

    /** One transaction: all three rows, or an error and no change. */
    method Save(env: RawEnvelope, event: CanonicalEvent, available: bool) returns (r: Result<(), SaveError>)
      modifies this
      ensures match EventTables.Save(old(Rows()), env, event, available)
              case Ok(tables) => r == Ok(()) && Rows() == tables
              case Err(error) => r == Err(error) && Rows() == old(Rows())
    {
      var current := FirstMention(event.mentions, env.id);
      if current.None? {
        return Err(MissingMention);
      }
      if !UniqueIndexesHold(rawItems, env) {
        return Err(UniqueIndexViolated);
      }
      if !available {
        return Err(DatabaseUnavailable);
      }
      rawItems := Merge(rawItems, env, SameItemKey);
      eventRows := Merge(eventRows, RowOf(event), SameVersionKey);
      mentionRows := Merge(mentionRows, MentionRowOf(current.value, event), SameMentionKey);
      return Ok(());
    }

    /** Collects the mentions of each event and the index entries, row by row. */
    method ReadJoined(joined: seq<(EventMentionRow, RawItemRow)>)
      returns (mentionsByEvent: map<EventId, seq<EventMention>>, items: seq<StoredItemIndex>)
      ensures GroupsRows(mentionsByEvent, MentionSide(joined))
      ensures items == seq(|joined|, i requires 0 <= i < |joined| => StoredItem(joined[i]))
    {
      ghost var side := MentionSide(joined);
      mentionsByEvent, items := map[], [];
      for i := 0 to |joined|
        invariant GroupsRows(mentionsByEvent, side[..i])
        invariant items == seq(i, j requires 0 <= j < i => StoredItem(joined[j]))
      {
        var row := joined[i].0;
        GroupOneMore(mentionsByEvent, side[..i], row);
        assert side[..i + 1] == side[..i] + [row];
        mentionsByEvent := mentionsByEvent[row.eventId := Grouped(mentionsByEvent, row.eventId) + [MentionOfRow(row)]];
        items := items + [StoredItem(joined[i])];
      }
      assert side[..|joined|] == side;
    }

    method LoadState() returns (state: PersistedEventState)
      ensures state == EventTables.LoadState(Rows())
    {
      var joined := Joined(mentionRows, rawItems);
      var mentionsByEvent, items := ReadJoined(joined);
      var events: seq<CanonicalEvent> := [];
      for n := 0 to |eventRows|
        invariant events == LatestEvents(eventRows, n, MentionSide(joined))
      {
        var row := eventRows[n];
        if IsLatest(eventRows, row) {
          events := events + [CanonicalOf(row, StableSort.Sort(Grouped(mentionsByEvent, row.eventId)))];
        }
      }
      state := PersistedEventState(events, items);
    }

    /**
     * Finds the row of the version, collects the mentions added up to it, and sorts them. On the tables of
     * a log the answer is what the log has committed as the version.
     */
    method LoadEventVersion(id: EventId, v: nat) returns (event: Option<CanonicalEvent>)
      ensures forall log: Log :: Grown(log) && Rows() == TablesOf(log) ==> event == Committed(log, id, v)
      ensures event == EventTables.LoadEventVersion(Rows(), id, v)
    {
      forall log: Log | Grown(log) && Rows() == TablesOf(log)
        ensures EventTables.LoadEventVersion(Rows(), id, v) == Committed(log, id, v)
      {
        TimeTravel(log, id, v);
      }
      var row := FindVersion(eventRows, id, v);
      if row.None? {
        return None;
      }
      var mentions: seq<EventMention> := [];
      for i := 0 to |mentionRows|
        invariant mentions == MentionsFor(mentionRows[..i], id, Some(v))
      {
        MentionsForAppend(mentionRows[..i], mentionRows[i], id, Some(v));
        assert mentionRows[..i + 1] == mentionRows[..i] + [mentionRows[i]];
        if mentionRows[i].eventId == id && mentionRows[i].eventVersion <= v {
          mentions := mentions + [MentionOfRow(mentionRows[i])];
        }
      }
      assert mentionRows[..|mentionRows|] == mentionRows;
      event := Some(CanonicalOf(row.value, StableSort.Sort(mentions)));
    }
  }

  /** Neither the key nor the raw item of the envelope is in the log. */
  ghost predicate ItemIsUnknown(log: Log, env: RawEnvelope) {
    !Known(log, KeyOf(env)) && forall e :: e in log ==> e.env.id != env.id
  }

  /** The candidate list holds exactly the `chosen` events, each with its rank. */
  ghost predicate AllRanked(
      candidates: seq<(Rank, CanonicalEvent)>, chosen: set<EventId>, events: map<EventId, CanonicalEvent>,
      env: RawEnvelope, exactIds: set<EventId>)
  {
    && (forall j :: 0 <= j < |candidates| ==>
         var event := candidates[j].1;
         event.eventId in chosen && event.eventId in events && events[event.eventId] == event
         && candidates[j].0 == RankOf(env, event, exactIds))
    && (forall id :: id in chosen ==> exists j :: 0 <= j < |candidates| && candidates[j].1.eventId == id)
  }

  lemma {:induction false} RankOneMore(
      candidates: seq<(Rank, CanonicalEvent)>, chosen: set<EventId>, events: map<EventId, CanonicalEvent>,
      env: RawEnvelope, exactIds: set<EventId>, id: EventId)
    requires AllRanked(candidates, chosen, events, env, exactIds) && id in events && events[id].eventId == id
    ensures AllRanked(
              candidates + [(RankOf(env, events[id], exactIds), events[id])], chosen + {id}, events, env, exactIds)
  {
    var more := candidates + [(RankOf(env, events[id], exactIds), events[id])];
    forall x | x in chosen + {id}
      ensures exists j :: 0 <= j < |more| && more[j].1.eventId == x
    {
      if x in chosen {
        var j :| 0 <= j < |candidates| && candidates[j].1.eventId == x;
        assert more[j].1.eventId == x;
      } else {
        assert more[|candidates|].1.eventId == x;
      }
    }
  }

  lemma {:induction false} BestOfRanked(
      mem: Memory, candidates: seq<(Rank, CanonicalEvent)>, env: RawEnvelope, best: (Rank, CanonicalEvent))
    requires AllRanked(candidates, Candidates(mem, env), mem.events, env, ExactIds(mem.byContentHash, env.contentHash))
    requires best in candidates
    requires forall j :: 0 <= j < |candidates| ==> RankLess(candidates[j].0, best.0) || candidates[j].0 == best.0
    ensures IsBest(mem, env, Candidates(mem, env), best.1.eventId)
    ensures best.1 == mem.events[best.1.eventId]
  {
    var exactIds := ExactIds(mem.byContentHash, env.contentHash);
    forall id | id in Candidates(mem, env) && id != best.1.eventId
      ensures RankLess(RankOf(env, mem.events[id], exactIds), RankOf(env, best.1, exactIds))
    {
      var j :| 0 <= j < |candidates| && candidates[j].1.eventId == id;
      assert candidates[j] != best;
    }
  }

  /** The candidate of greatest rank, the first of them if there were several. */
  method MaxCandidate(candidates: seq<(Rank, CanonicalEvent)>) returns (best: (Rank, CanonicalEvent))
    requires candidates != []
    ensures best in candidates
    ensures forall j :: 0 <= j < |candidates| ==> RankLess(candidates[j].0, best.0) || candidates[j].0 == best.0
  {
    best := candidates[0];
    for i := 1 to |candidates|
      invariant best in candidates
      invariant forall j :: 0 <= j < i ==> RankLess(candidates[j].0, best.0) || candidates[j].0 == best.0
    {
      if RankLess(best.0, candidates[i].0) {
        best := candidates[i];
      }
    }
  }

  class EventService {
    var events: map<EventId, CanonicalEvent>
    var versions: map<(EventId, nat), CanonicalEvent>
    var byIdentity: map<IdentityKey, EventId>
    var byContentHash: map<string, set<EventId>>
    const persistence: SqlEventRepository?

    function Indexes(): Memory
      reads this
    {
      Memory(events, versions, byIdentity, byContentHash)
    }

    ghost function State(): Store
      reads this, persistence
    {
      Store(Indexes(), if persistence == null then None else Some(persistence.Rows()))
    }

    ghost predicate Valid()
      reads this
    {
      Filed(events)
    }

    constructor (persistence: SqlEventRepository?)
      ensures this.persistence == persistence && Valid()
      ensures Indexes() == if persistence == null then EMPTY_MEMORY else Rebuild(EventTables.LoadState(persistence.Rows()))
    {
      events, versions, byIdentity, byContentHash := map[], map[], map[], map[];
      this.persistence := persistence;
      new;
      if persistence != null {
        Refresh();
      }
    }

    /** Replaces all four indexes by what the rows say. */
    method Refresh()
      requires Valid()
      modifies this
      ensures Valid()
      ensures Indexes() == if persistence == null then old(Indexes()) else Rebuild(EventTables.LoadState(persistence.Rows()))
    {
      if persistence == null {
        return;
      }
      var state := persistence.LoadState();
      var identities: map<IdentityKey, EventId> := map[];
      var contentHashes: map<string, set<EventId>> := map[];
      for i := 0 to |state.items|
        invariant identities == Identities(state.items[..i])
        invariant contentHashes == ContentHashes(state.items[..i])
      {
        var item := state.items[i];
        identities := identities[(item.provider, item.sourceId, Identity(item.nativeId, item.contentHash)) := item.eventId];
        contentHashes :=
          contentHashes[item.contentHash := ExactIds(contentHashes, item.contentHash) + {item.eventId}];
        assert state.items[..i + 1][..i] == state.items[..i];
      }
      assert state.items[..|state.items|] == state.items;
      events := EventsById(state.events);
      versions := VersionsById(state.events);
      byIdentity := identities;
      byContentHash := contentHashes;
    }

    /** Walks the live events, in an arbitrary order, and ranks those the item could belong to. */
    method RankCandidates(env: RawEnvelope) returns (candidates: seq<(Rank, CanonicalEvent)>)
      requires Valid()
      ensures AllRanked(
                candidates, Candidates(Indexes(), env), events, env, ExactIds(byContentHash, env.contentHash))
    {
      var exactIds := ExactIds(byContentHash, env.contentHash);
      candidates := [];
      var left := events.Keys;
      ghost var chosen: set<EventId> := {};
      while left != {}
        invariant left <= events.Keys
        invariant AllRanked(candidates, chosen, events, env, exactIds)
        invariant forall id :: id in chosen <==> id in events.Keys - left && Eligible(env, events[id], exactIds)
        decreases |left|
      {
        var id :| id in left;
        left := left - {id};
        var event := events[id];
        if Eligible(env, event, exactIds) {
          RankOneMore(candidates, chosen, events, env, exactIds, id);
          candidates := candidates + [(RankOf(env, event, exactIds), event)];
          chosen := chosen + {id};
        }
      }
      assert chosen == Candidates(Indexes(), env);
    }

    /** The candidate of greatest rank: whatever the order of the walk, the event the specification names. */
    method SimilarEvent(env: RawEnvelope) returns (similar: Option<CanonicalEvent>)
      requires Valid()
      ensures similar == match EventClustering.SimilarEvent(Indexes(), env)
                         case None => None
                         case Some(id) => Some(events[id])
    {
      var candidates := RankCandidates(env);
      if candidates == [] {
        assert Candidates(Indexes(), env) == {};
        return None;
      }
      var best := MaxCandidate(candidates);
      BestOfRanked(Indexes(), candidates, env, best);
      SimilarEventIsTheMaximum(Indexes(), env, best.1.eventId);
      return Some(best.1);
    }

    /**
     * Makes the new event, or the next version of the existing one. If the indexes are those of a log to
     * which the item and the id are new, the event is a legal next commit of that log.
     */
    method NextVersion(env: RawEnvelope, existing: Option<CanonicalEvent>, newId: EventId) returns (event: CanonicalEvent)
      requires Valid()
      requires existing == match EventClustering.SimilarEvent(Indexes(), env)
                           case None => None
                           case Some(id) => Some(events[id])
      ensures forall log: Log ::
                EventProcesses.SameIndexes(Indexes(), Index(log)) && ItemIsUnknown(log, env) && newId !in events ==>
                  Follows(log, Entry(env, event))
      ensures event == Decide(Indexes(), env, newId)
    {
      var group := OrElse(env.independenceGroup, env.sourceId);
      var mention := EventMention(env.id, env.sourceId, group, env.publishedAt, env.receivedAt);
      if existing.None? {
        var eventTime := if env.eventTime.Some? then env.eventTime else env.publishedAt;
        event := CanonicalEvent(
          newId, 1, env.processedAt, env.title, env.category, eventTime,
          env.receivedAt, env.receivedAt, env.language, 2, [mention]);
      } else {
        var similar := existing.value;
        var uniqueGroups := Groups(similar.mentions) + {group};
        var sourceIndependence := Min(4, 2 + (|uniqueGroups| - 1));
        var mentions := StableSort.Sort(similar.mentions + [mention]);
        event := similar.(
          eventVersion := similar.eventVersion + 1,
          versionCreatedAt := env.processedAt,
          firstReceivedAt := Min(similar.firstReceivedAt, env.receivedAt),
          lastUpdatedAt := Max(similar.lastUpdatedAt, env.receivedAt),
          sourceIndependence := sourceIndependence,
          mentions := mentions);
      }
      forall log: Log
        | EventProcesses.SameIndexes(Indexes(), Index(log)) && ItemIsUnknown(log, env) && newId !in events
        ensures Follows(log, Entry(env, Decide(Indexes(), env, newId)))
      {
        EventProcesses.OwnerFollows(Indexes(), log, env, newId);
      }
    }

    method Remember(env: RawEnvelope, event: CanonicalEvent)
      requires Valid()
      modifies this
      ensures Valid() && Indexes() == Record(old(Indexes()), env, event)
    {
      events := events[event.eventId := event];
      versions := versions[(event.eventId, event.eventVersion) := event];
      byContentHash := byContentHash[env.contentHash := ExactIds(byContentHash, env.contentHash) + {event.eventId}];
      byIdentity := byIdentity[KeyOf(env) := event.eventId];
    }

    method Ingest(env: RawEnvelope, ids: IdSupply, available: bool) returns (outcome: Outcome)
      requires Valid()
      modifies this, persistence
      ensures Valid()
      ensures (State(), outcome) == IngestInto(old(State()), env, ids, available)
    {
      var key := KeyOf(env);
      if key in byIdentity {
        var id := byIdentity[key];
        return if id in events then Ok(IngestResult(events[id], false, true)) else Err(UnknownEvent(id));
      }
      var existing := SimilarEvent(env);
      var event := NextVersion(env, existing, ids(|events|));
      if persistence != null {
        var saved := persistence.Save(env, event, available);
        if saved.Err? {
          return Err(SaveRaised(saved.error));
        }
      }
      Remember(env, event);
      outcome := Ok(IngestResult(event, existing.None?, false));
    }

    /** Answers from the cache or the rows, and remembers what the rows say. */
    method GetEventVersion(id: EventId, v: nat) returns (event: Option<CanonicalEvent>)
      modifies this
      ensures event == if (id, v) in old(versions) then Some(old(versions)[(id, v)])
                       else if persistence == null then None
                       else EventTables.LoadEventVersion(persistence.Rows(), id, v)
      ensures Indexes() == if event.Some? then old(Indexes()).(versions := old(versions)[(id, v) := event.value]) else old(Indexes())
      ensures Indexes() == EventProcesses.Remember(old(Indexes()), id, v, event)
    {
      event := if (id, v) in versions then Some(versions[(id, v)]) else None;
      if event.None? && persistence != null {
        event := persistence.LoadEventVersion(id, v);
        if event.Some? {
          versions := versions[(id, v) := event.value];
        }
      }
    }

    /** `ingest` for item after item, until one raises. */
    method IngestItems(items: seq<RawEnvelope>, ids: IdSupply, available: RawEnvelope -> bool) returns (ok: bool)
      requires Valid()
      modifies this, persistence
      ensures Valid()
      ensures (State(), ok) == EventIngest.IngestItems(old(State()), items, ids, available)
    {
      ghost var start: FiledStore := State();
      ok := true;
      for i := 0 to |items|
        invariant Valid() && ok && EventIngest.IngestItems(start, items[..i], ids, available) == (State(), true)
      {
        ghost var before: FiledStore := State();
        var outcome := Ingest(items[i], ids, available(items[i]));
        OneMoreItem(start, items, i, ids, available, before, State(), outcome);
        if outcome.Err? {
          return false;
        }
      }
      assert items[..|items|] == items;
    }
  }

  /** Loads the recorded feed into an in-memory service, once. */
  class ReplayEventBootstrap {
    const service: EventService
    var loaded: bool

    constructor (service: EventService)
      ensures this.service == service && !loaded
    {
      this.service := service;
      loaded := false;
    }

    method EnsureLoaded(feed: seq<RawEnvelope>, ids: IdSupply)
      requires service.Valid() && service.persistence == null
      requires Injective(ids) && IdsNameItems(feed)
      requires service.Indexes() == if loaded then Index(IngestAll(feed, ids)) else EMPTY_MEMORY
      modifies this, service
      ensures service.Valid() && loaded && service.Indexes() == Index(IngestAll(feed, ids))
    {
      if loaded {
        return;
      }
      InMemoryPass(feed, ids, _ => true);
      var _ := service.IngestItems(feed, ids, _ => true);
      loaded := true;
    }
  }

  /** The advisory lock of `postgres_advisory_lease`: one session may hold it, any number of times. */
  class AdvisoryLock {
    var holder: Option<nat>
    var depth: nat

    ghost predicate Valid()
      reads this
    {
      holder.Some? <==> depth > 0
    }

    method TryAcquire(session: nat) returns (acquired: bool)
      requires Valid()
      modifies this
      ensures Valid()
      ensures acquired <==> old(holder) == None || old(holder) == Some(session)
      ensures acquired ==> holder == Some(session) && depth == old(depth) + 1
      ensures !acquired ==> holder == old(holder) && depth == old(depth)
    {
      acquired := holder.None? || holder.value == session;
      if acquired {
        holder := Some(session);
        depth := depth + 1;
      }
    }

    method Unlock(session: nat)
      requires Valid()
      modifies this
      ensures Valid()
      ensures old(holder) == Some(session) ==>
                depth == old(depth) - 1 && holder == (if depth == 0 then None else Some(session))
      ensures old(holder) != Some(session) ==> holder == old(holder) && depth == old(depth)
    {
      if holder == Some(session) {
        depth := depth - 1;
        if depth == 0 {
          holder := None;
        }
      }
    }
  }

  datatype WorkerExit = Finished | IngestRaised | LeaseUnavailable

  /**
   * `event_worker.main` after its service is built; `lock` is null for a database without advisory
   * locks, and `session` is the connection opened for the lease. Without the lease nothing is ingested;
   * with it the feeds are ingested in order up to the first item that raises, and on every exit the lock
   * is as it was found.
   */
  method RunWorker(
      service: EventService, lock: AdvisoryLock?, session: nat,
      feeds: seq<seq<RawEnvelope>>, ids: IdSupply, available: RawEnvelope -> bool)
    returns (exit: WorkerExit)
    requires service.Valid() && (lock != null ==> lock.Valid())
    modifies service, service.persistence, lock
    ensures service.Valid() && (lock != null ==> lock.Valid())
    ensures lock != null ==> lock.holder == old(lock.holder) && lock.depth == old(lock.depth)
    ensures exit == LeaseUnavailable <==> lock != null && old(lock.holder.Some? && lock.holder.value != session)
    ensures exit == LeaseUnavailable ==> service.State() == old(service.State())
    ensures exit != LeaseUnavailable ==>
              (service.State(), exit == Finished) == EventIngest.IngestItems(old(service.State()), Flatten(feeds), ids, available)
  {
    if lock != null {
      var acquired := lock.TryAcquire(session);
      if !acquired {
        return LeaseUnavailable;
      }
    }
    ghost var start: FiledStore := service.State();
    exit := Finished;
    for i := 0 to |feeds|
      invariant service.Valid() && exit == Finished
      invariant lock != null ==> lock.Valid() && lock.holder == Some(session) && lock.depth == old(lock.depth) + 1
      invariant EventIngest.IngestItems(start, Flatten(feeds[..i]), ids, available) == (service.State(), true)
    {
      ghost var before: FiledStore := service.State();
      var ok := service.IngestItems(feeds[i], ids, available);
      OneMoreFeed(start, feeds, i, ids, available, before, service.State(), ok);
      if !ok {
        exit := IngestRaised;
        break;
      }
    }
    assert exit == Finished ==> feeds[..|feeds|] == feeds;
    if lock != null {
      lock.Unlock(session);
    }
  }
}
