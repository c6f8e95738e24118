/**
 * When an item is known, which event it joins and when it founds one, said on the fields of items and
 * events and on what has been committed.
 */
module EventJoining {
  import opened Common
  import opened Contracts
  import opened TitleWords
  import opened EventClustering
  import opened EventLog
  import opened EventReplay
  import opened EventIngest
  import EventTables

  // ---- which items are one ----

  ghost predicate HasNativeId(env: RawEnvelope) {
    env.nativeId.Some? && env.nativeId.value != ""
  }

  /**
   * Two items of one source are the same if they have one native id, or neither has any and they have one
   * content; a native id that spells out the other item's content hash stands for that content.
   */
  ghost predicate SameSourceItem(a: RawEnvelope, b: RawEnvelope) {
    && a.provider == b.provider && a.sourceId == b.sourceId
    && if HasNativeId(a) then
         if HasNativeId(b) then a.nativeId == b.nativeId else a.nativeId == Some("sha256:" + b.contentHash)
       else
         if HasNativeId(b) then b.nativeId == Some("sha256:" + a.contentHash) else a.contentHash == b.contentHash
  }

  lemma {:induction false} SameTail(prefix: string, a: string, b: string)
    ensures prefix + a == prefix + b <==> a == b
  {
    assert a == (prefix + a)[|prefix|..] && b == (prefix + b)[|prefix|..];
  }

  lemma {:induction false} KeysAgreeIff(a: RawEnvelope, b: RawEnvelope)
    ensures KeyOf(a) == KeyOf(b) <==> SameSourceItem(a, b)
  {
    SameTail("sha256:", a.contentHash, b.contentHash);
  }

  ghost predicate IsCommitted(log: Log, env: RawEnvelope) {
    exists i :: 0 <= i < |log| && SameSourceItem(log[i].env, env)
  }

  lemma {:induction false} KnownIffCommitted(log: Log, env: RawEnvelope)
    ensures Known(log, KeyOf(env)) <==> IsCommitted(log, env)
  {
    KeysAreAScan(log, KeyOf(env));
    forall i | 0 <= i < |log|
      ensures KeyOf(log[i].env) == KeyOf(env) <==> SameSourceItem(log[i].env, env)
    {
      KeysAgreeIff(log[i].env, env);
    }
  }

  // ---- which events an item can join ----

  /** Some item of the event has the content. */
  ghost predicate Carries(log: Log, id: EventId, contentHash: string) {
    exists e :: e in log && e.event.eventId == id && e.env.contentHash == contentHash
  }

  /** A live event of the item's category, last updated within 24 hours of it, with its content or a title alike. */
  ghost predicate Joinable(log: Log, env: RawEnvelope, id: EventId) {
    && id in Index(log).events
    && var event := Index(log).events[id];
       && event.eventType == env.category
       && -86_400_000_000 <= env.receivedAt - event.lastUpdatedAt <= 86_400_000_000
       && (Carries(log, id, env.contentHash) || Alike(env.title, event.canonicalTitle))
  }

  ghost function Apart(a: Time, b: Time): nat {
    if a < b then b - a else a - b
  }

  /** Of two live events the first is preferred: by content, then by title, then by nearness in time, then by id. */
  ghost predicate Beats(log: Log, env: RawEnvelope, a: EventId, b: EventId)
    requires a in Index(log).events && b in Index(log).events
  {
    var x, y := Index(log).events[a], Index(log).events[b];
    if Carries(log, a, env.contentHash) != Carries(log, b, env.contentHash) then Carries(log, a, env.contentHash)
    else if MoreAlike(env.title, x.canonicalTitle, y.canonicalTitle) then true
    else if MoreAlike(env.title, y.canonicalTitle, x.canonicalTitle) then false
    else if Apart(env.receivedAt, x.lastUpdatedAt) != Apart(env.receivedAt, y.lastUpdatedAt) then
      Apart(env.receivedAt, x.lastUpdatedAt) < Apart(env.receivedAt, y.lastUpdatedAt)
    else a > b
  }

  lemma {:induction false} CandidateIffJoinable(log: Log, env: RawEnvelope, id: EventId)
    ensures id in Candidates(Index(log), env) <==> Joinable(log, env, id)
  {
    if id in Index(log).events {
      ContentIndexIsAScan(log, env.contentHash, id);
      SimilarIffAlike(env.title, Index(log).events[id].canonicalTitle);
    }
  }

  lemma {:induction false} OutranksIffBeats(log: Log, env: RawEnvelope, a: EventId, b: EventId)
    requires a in Index(log).events && b in Index(log).events
    ensures var exactIds := ExactIds(Index(log).byContentHash, env.contentHash);
            RankLess(RankOf(env, Index(log).events[b], exactIds), RankOf(env, Index(log).events[a], exactIds))
            <==> Beats(log, env, a, b)
  {
    ContentIndexIsAScan(log, env.contentHash, a);
    ContentIndexIsAScan(log, env.contentHash, b);
    MoreSimilarIff(env.title, Index(log).events[a].canonicalTitle, Index(log).events[b].canonicalTitle);
    MoreSimilarIff(env.title, Index(log).events[b].canonicalTitle, Index(log).events[a].canonicalTitle);
  }

  /** The item can join the event, and the event is preferred to every other one that it can join. */
  ghost predicate BestToJoin(log: Log, env: RawEnvelope, id: EventId) {
    Joinable(log, env, id) && forall other :: Joinable(log, env, other) && other != id ==> Beats(log, env, id, other)
  }

  lemma {:induction false} BestIffBestToJoin(log: Log, env: RawEnvelope, id: EventId)
    ensures IsBest(Index(log), env, Candidates(Index(log), env), id) <==> BestToJoin(log, env, id)
  {
    CandidateIffJoinable(log, env, id);
    forall other
      ensures other in Candidates(Index(log), env) <==> Joinable(log, env, other)
      ensures Joinable(log, env, id) && Joinable(log, env, other) ==>
                (RankLess(
                   RankOf(env, Index(log).events[other], ExactIds(Index(log).byContentHash, env.contentHash)),
                   RankOf(env, Index(log).events[id], ExactIds(Index(log).byContentHash, env.contentHash)))
                 <==> Beats(log, env, id, other))
    {
      CandidateIffJoinable(log, env, other);
      if Joinable(log, env, id) && Joinable(log, env, other) {
        OutranksIffBeats(log, env, id, other);
      }
    }
  }

  /** A service chooses the best event to join, and none exactly if the item can join none. */
  lemma {:induction false} ChosenIff(log: Log, env: RawEnvelope, id: EventId)
    ensures SimilarEvent(Index(log), env) == Some(id) <==> BestToJoin(log, env, id)
    ensures SimilarEvent(Index(log), env) == None <==> forall other :: !Joinable(log, env, other)
  {
    SimilarEventIsTheMaximum(Index(log), env, id);
    BestIffBestToJoin(log, env, id);
    forall other
      ensures other in Candidates(Index(log), env) <==> Joinable(log, env, other)
    {
      CandidateIffJoinable(log, env, other);
    }
  }

  /**
   * Clustering, for every commit of every reachable log: the item joined an existing event if and only if
   * there was one it could join, and then the one preferred to all others.
   */
  lemma {:induction false} CommitJoinsIff(log: Log, i: nat)
    requires Reachable(log) && i < |log|
    ensures var before, env, id := log[..i], log[i].env, log[i].event.eventId;
            && (id in Index(before).events <==> exists other :: Joinable(before, env, other))
            && (id in Index(before).events ==> BestToJoin(before, env, id))
            && !IsCommitted(before, env)
  {
    var before, env, id := log[..i], log[i].env, log[i].event.eventId;
    assert CommitOk(log, i);
    KnownIffCommitted(before, env);
    ChosenIff(before, env, id);
    var similar := SimilarEvent(Index(before), env);
    if similar.Some? {
      assert similar.value in Candidates(Index(before), env);
    }
  }

  /**
   * One call of `ingest` on a service without a database, or whose save goes through: an item that has been
   * committed is answered with its event as it is now; any other founds an event if it can join none,
   * and otherwise gives the next version of the best event to join.
   */
  lemma {:induction false} IngestMeans(log: Log, rows: Option<EventTables.Tables>, env: RawEnvelope, ids: IdSupply, available: bool)
    requires Reachable(log)
    ensures var (after, outcome) := IngestInto(Store(Index(log), rows), env, ids, available);
            && (IsCommitted(log, env) ==>
                 && after == Store(Index(log), rows) && outcome.Ok?
                 && outcome.value.idempotent && !outcome.value.created
                 && exists i :: 0 <= i < |log| && SameSourceItem(log[i].env, env)
                                && log[i].event.eventId in Index(log).events
                                && outcome.value.event == Index(log).events[log[i].event.eventId])
            && (!IsCommitted(log, env) && outcome.Ok? ==>
                 && !outcome.value.idempotent
                 && (outcome.value.created <==> forall id :: !Joinable(log, env, id))
                 && (!outcome.value.created ==>
                      && var id := outcome.value.event.eventId;
                      && BestToJoin(log, env, id)
                      && outcome.value.event.eventVersion == Index(log).events[id].eventVersion + 1))
            && (rows.None? ==> outcome.Ok?)
  {
    KnownIffCommitted(log, env);
    if IsCommitted(log, env) {
      KnownAnswer(log, rows, env, ids, available);
    } else {
      var similar := SimilarEvent(Index(log), env);
      ChosenIff(log, env, if similar.Some? then similar.value else 0);
      if similar.Some? {
        assert similar.value in Candidates(Index(log), env);
      }
    }
  }

  lemma {:induction false} KnownAnswer(log: Log, rows: Option<EventTables.Tables>, env: RawEnvelope, ids: IdSupply, available: bool)
    requires Reachable(log) && Known(log, KeyOf(env))
    ensures var (after, outcome) := IngestInto(Store(Index(log), rows), env, ids, available);
            && after == Store(Index(log), rows) && outcome.Ok?
            && outcome.value.idempotent && !outcome.value.created
            && exists i :: 0 <= i < |log| && SameSourceItem(log[i].env, env)
                           && log[i].event.eventId in Index(log).events
                           && outcome.value.event == Index(log).events[log[i].event.eventId]
  {
    KeysAreAScan(log, KeyOf(env));
    var i :| 0 <= i < |log| && KeyOf(log[i].env) == KeyOf(env);
    KeysAgreeIff(log[i].env, env);
    ReachableIsDistinct(log);
    ReachableIsGrown(log);
    IdentityIndexIsAScan(log, i);
    var k := EntryIsInItsHistory(log, i);
    History(log, log[i].event.eventId);
  }
}
