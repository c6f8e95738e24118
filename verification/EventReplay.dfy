/**
 * Redelivery of event feeds: crashed workers that read their feed again, and replays that run side
 * by side over one service, all end where one clean pass over the feed ends.
 */
module EventReplay {
  import opened Contracts
  import opened EventClustering
  import opened EventLog
  import opened Redelivery

  /** The supply of event ids: the k-th event to be created gets `ids(k)`. */
  type IdSupply = nat -> EventId

  ghost predicate Known(log: Log, key: IdentityKey) {
    key in Index(log).byIdentity
  }

  ghost function Commit(log: Log, env: RawEnvelope, ids: IdSupply): Entry {
    Entry(env, Decide(Index(log), env, ids(|Index(log).events|)))
  }

  /** `ingest` on an up-to-date service whose save succeeds. */
  ghost function IngestOne(log: Log, env: RawEnvelope, ids: IdSupply): Log {
    if Known(log, KeyOf(env)) then log else log + [Commit(log, env, ids)]
  }

  ghost function Ingest(ids: IdSupply): (Log, RawEnvelope) -> Log {
    (log, env) => IngestOne(log, env, ids)
  }

  ghost function IngestAll(feed: seq<RawEnvelope>, ids: IdSupply): Log {
    Pass([], feed, Ingest(ids))
  }

  lemma {:induction false} IngestObeysLaws(ids: IdSupply)
    ensures Laws(Ingest(ids), Known, KeyOf)
  {
    forall log: Log, env: RawEnvelope, key: IdentityKey
      ensures Known(IngestOne(log, env, ids), key) <==> Known(log, key) || key == KeyOf(env)
    {
      Append(log, Commit(log, env, ids));
    }
  }

  /** Ingesting a feed is ingesting the first item of each identity key. */
  lemma {:induction false} FeedDuplicatesDoNothing(feed: seq<RawEnvelope>, ids: IdSupply)
    ensures IngestAll(feed, ids) == IngestAll(FirstOccurrences(feed, KeyOf), ids)
  {
    IngestObeysLaws(ids);
    DuplicatesDoNothing([], feed, Ingest(ids), Known, KeyOf);
  }

  ghost function RunReplays(steps: seq<ReplayStep>, replays: nat, feed: seq<RawEnvelope>, ids: IdSupply): Replays<Log> {
    Run([], steps, replays, feed, Ingest(ids), Known, KeyOf)
  }

  /**
   * Crash and replay equivalence. The log is always that of a pass over a prefix of the feed, and as
   * soon as some replay has reached the end it is that of one clean pass over the whole feed.
   */
  lemma {:induction false} EventReplaysEndLikeOnePass(
      steps: seq<ReplayStep>, replays: nat, feed: seq<RawEnvelope>, ids: IdSupply)
    ensures var s := RunReplays(steps, replays, feed, ids);
            && (exists n :: 0 <= n <= |feed| && s.store == IngestAll(feed[..n], ids))
            && ((exists r :: 0 <= r < |s.cursors| && s.cursors[r] == |feed|) ==> s.store == IngestAll(feed, ids))
  {
    IngestObeysLaws(ids);
    var n := ReplaysEndLikeOnePass([], steps, replays, feed, Ingest(ids), Known, KeyOf);
    var s := Run([], steps, replays, feed, Ingest(ids), Known, KeyOf);
    assert RunReplays(steps, replays, feed, ids) == s;
    if r :| 0 <= r < |s.cursors| && s.cursors[r] == |feed| {
      assert n == |feed| && feed[..n] == feed;
    }
  }

  // ---- the log of a pass is a reachable log ----

  ghost predicate Injective(ids: IdSupply) {
    forall a: nat, b: nat :: ids(a) == ids(b) ==> a == b
  }

  /** A raw item id names one item: redelivered under the same id, it has the same key. */
  ghost predicate IdsNameItems(feed: seq<RawEnvelope>) {
    forall i, j :: 0 <= i < |feed| && 0 <= j < |feed| && feed[i].id == feed[j].id ==> KeyOf(feed[i]) == KeyOf(feed[j])
  }

  /** The live events carry the ids supplied so far. */
  ghost predicate Supplied(events: set<EventId>, ids: IdSupply) {
    forall id :: id in events <==> exists k: nat :: k < |events| && ids(k) == id
  }

  lemma {:induction false} SupplyOneMore(events: set<EventId>, ids: IdSupply)
    requires Injective(ids) && Supplied(events, ids)
    ensures ids(|events|) !in events && Supplied(events + {ids(|events|)}, ids)
  {
    var newId := ids(|events|);
    assert forall k: nat :: ids(k) == newId ==> k == |events|;
    forall id
      ensures id in events + {newId} <==> exists k: nat :: k < |events + {newId}| && ids(k) == id
    {
      if k: nat :| k < |events| && ids(k) == id {
        assert k < |events + {newId}|;
      }
    }
  }

  /** The commit of an unknown item is a legal next entry of the log. */
  lemma {:induction false} CommitFollows(log: Log, env: RawEnvelope, ids: IdSupply)
    requires Injective(ids) && Supplied(Index(log).events.Keys, ids)
    requires !Known(log, KeyOf(env)) && forall e :: e in log ==> e.env.id != env.id
    ensures Follows(log, Commit(log, env, ids))
    ensures Supplied(Index(log).events.Keys + {Commit(log, env, ids).event.eventId}, ids)
  {
    var events := Index(log).events;
    SupplyOneMore(events.Keys, ids);
    assert |events| == |events.Keys|;
    var similar := SimilarEvent(Index(log), env);
    if similar.Some? {
      assert similar.value in Candidates(Index(log), env);
      assert events.Keys + {similar.value} == events.Keys;
    }
  }

  lemma {:induction false} PassGrows(feed: seq<RawEnvelope>, ids: IdSupply)
    requires feed != []
    ensures var n := |feed| - 1;
            IngestAll(feed, ids) == IngestOne(IngestAll(feed[..n], ids), feed[n], ids)
  {
  }

  lemma {:induction false} PassCommitsItems(feed: seq<RawEnvelope>, ids: IdSupply)
    ensures forall e :: e in IngestAll(feed, ids) ==> e.env in feed
  {
    if feed != [] {
      PassCommitsItems(feed[..|feed| - 1], ids);
      PassGrows(feed, ids);
    }
  }

  /** So everything proved of reachable logs holds of the log of a pass, and of every replay. */
  lemma {:induction false} PassIsReachable(feed: seq<RawEnvelope>, ids: IdSupply)
    requires Injective(ids) && IdsNameItems(feed)
    ensures Reachable(IngestAll(feed, ids))
    ensures Supplied(Index(IngestAll(feed, ids)).events.Keys, ids)
  {
    if feed != [] {
      var init, last := feed[..|feed| - 1], feed[|feed| - 1];
      assert feed == init + [last];
      PassIsReachable(init, ids);
      PassGrows(feed, ids);
      if !Known(IngestAll(init, ids), KeyOf(last)) {
        PassCommitsItems(init, ids);
        FreshItem(init, last, ids);
        PassStep(IngestAll(init, ids), last, ids);
      }
    }
  }

  lemma {:induction false} PassStep(log: Log, env: RawEnvelope, ids: IdSupply)
    requires Reachable(log) && Injective(ids) && Supplied(Index(log).events.Keys, ids)
    requires !Known(log, KeyOf(env)) && forall e :: e in log ==> e.env.id != env.id
    ensures var longer := log + [Commit(log, env, ids)];
            Reachable(longer) && Supplied(Index(longer).events.Keys, ids)
  {
    CommitFollows(log, env, ids);
    AppendIsReachable(log, Commit(log, env, ids));
    AppendFilesOneEvent(log, Commit(log, env, ids));
  }

  lemma {:induction false} AppendFilesOneEvent(log: Log, entry: Entry)
    ensures Index(log + [entry]).events.Keys == Index(log).events.Keys + {entry.event.eventId}
  {
    Append(log, entry);
  }

  /** An item whose key is still unknown after `feed` is not among the committed items. */
  lemma {:induction false} FreshItem(feed: seq<RawEnvelope>, env: RawEnvelope, ids: IdSupply)
    requires IdsNameItems(feed + [env]) && !Known(IngestAll(feed, ids), KeyOf(env))
    requires forall e :: e in IngestAll(feed, ids) ==> e.env in feed
    ensures forall e :: e in IngestAll(feed, ids) ==> e.env.id != env.id
  {
    IngestObeysLaws(ids);
    KnownAfterPass([], feed, Ingest(ids), Known, KeyOf, KeyOf(env));
    forall e | e in IngestAll(feed, ids)
      ensures e.env.id != env.id
    {
      var i :| 0 <= i < |feed| && feed[i] == e.env;
      assert KeyOf(feed[i]) != KeyOf(env);
      assert (feed + [env])[i] == feed[i] && (feed + [env])[|feed|] == env;
    }
  }
}
