/**
 * Redelivery as it happens: every reading of a feed makes new envelopes, with raw ids of their own. The
 * logs of such runs are equal but for raw ids.
 */
module EventRedelivery {
  import opened Contracts
  import opened EventClustering
  import opened EventLog
  import opened Redelivery
  import opened EventReplay
  import StableSort

  // ---- forgetting raw ids ----

  function EraseEnv(env: RawEnvelope): RawEnvelope {
    env.(id := 0)
  }

  function EraseFeed(feed: seq<RawEnvelope>): seq<RawEnvelope> {
    seq(|feed|, i requires 0 <= i < |feed| => EraseEnv(feed[i]))
  }

  function EraseMentions(ms: seq<EventMention>): seq<EventMention> {
    seq(|ms|, i requires 0 <= i < |ms| => ms[i].(rawItemId := 0))
  }

  function EraseEvent(event: CanonicalEvent): CanonicalEvent {
    event.(mentions := EraseMentions(event.mentions))
  }

  function EraseEvents(events: map<EventId, CanonicalEvent>): map<EventId, CanonicalEvent> {
    map id | id in events :: EraseEvent(events[id])
  }

  function EraseLog(log: Log): Log {
    seq(|log|, i requires 0 <= i < |log| => Entry(EraseEnv(log[i].env), EraseEvent(log[i].event)))
  }

  lemma {:induction false} EraseAppend(ms: seq<EventMention>, m: EventMention)
    ensures EraseMentions(ms + [m]) == EraseMentions(ms) + [m.(rawItemId := 0)]
  {
  }

  lemma {:induction false} InsertErases(ms: seq<EventMention>, m: EventMention)
    ensures StableSort.Insert(EraseMentions(ms), m.(rawItemId := 0)) == EraseMentions(StableSort.Insert(ms, m))
  {
    if ms == [] || ms[|ms| - 1].receivedAt <= m.receivedAt {
      EraseAppend(ms, m);
    } else {
      var init, last := ms[..|ms| - 1], ms[|ms| - 1];
      InsertErases(init, m);
      assert EraseMentions(ms)[..|ms| - 1] == EraseMentions(init);
      EraseAppend(StableSort.Insert(init, m), last);
    }
  }

  /** The order of mentions does not depend on their raw ids. */
  lemma {:induction false} SortErases(ms: seq<EventMention>)
    ensures StableSort.Sort(EraseMentions(ms)) == EraseMentions(StableSort.Sort(ms))
  {
    if ms != [] {
      var init, last := ms[..|ms| - 1], ms[|ms| - 1];
      SortErases(init);
      assert EraseMentions(ms)[..|ms| - 1] == EraseMentions(init);
      InsertErases(StableSort.Sort(init), last);
    }
  }

  lemma {:induction false} GroupsErase(ms: seq<EventMention>)
    ensures Groups(EraseMentions(ms)) == Groups(ms)
  {
    forall m | m in ms
      ensures m.independenceGroup in Groups(EraseMentions(ms))
    {
      var i :| 0 <= i < |ms| && ms[i] == m;
      assert EraseMentions(ms)[i].independenceGroup == m.independenceGroup && EraseMentions(ms)[i] in EraseMentions(ms);
    }
    forall m | m in EraseMentions(ms)
      ensures m.independenceGroup in Groups(ms)
    {
      var i :| 0 <= i < |ms| && EraseMentions(ms)[i] == m;
      assert ms[i] in ms;
    }
  }

  lemma {:induction false} NewEventErases(env: RawEnvelope, id: EventId)
    ensures NewEvent(EraseEnv(env), id) == EraseEvent(NewEvent(env, id))
  {
  }

  lemma {:induction false} ExtendErases(event: CanonicalEvent, env: RawEnvelope)
    ensures Extend(EraseEvent(event), EraseEnv(env)) == EraseEvent(Extend(event, env))
  {
    GroupsErase(event.mentions);
    SortErases(event.mentions + [MentionOf(env)]);
    EraseAppend(event.mentions, MentionOf(env));
  }

  /** The indexes of the erased log are the erased indexes. */
  lemma {:induction false} IndexErases(log: Log)
    ensures var a, b := Index(EraseLog(log)), Index(log);
            a.events == EraseEvents(b.events) && a.byIdentity == b.byIdentity && a.byContentHash == b.byContentHash
  {
    if log != [] {
      IndexErases(log[..|log| - 1]);
      assert EraseLog(log)[..|log| - 1] == EraseLog(log[..|log| - 1]);
    }
  }

  /** The choice of an event does not depend on raw ids. */
  lemma {:induction false} ChoiceErases(a: Memory, b: Memory, env: RawEnvelope)
    requires Filed(a.events) && Filed(b.events)
    requires a.events == EraseEvents(b.events) && a.byContentHash == b.byContentHash
    ensures SimilarEvent(a, EraseEnv(env)) == SimilarEvent(b, env)
  {
    assert Candidates(a, EraseEnv(env)) == Candidates(b, env);
    var similar := SimilarEvent(b, env);
    if similar.Some? {
      assert IsBest(a, EraseEnv(env), Candidates(a, EraseEnv(env)), similar.value);
      SimilarEventIsTheMaximum(a, EraseEnv(env), similar.value);
    }
  }

  lemma {:induction false} DecideErases(a: Memory, b: Memory, env: RawEnvelope, newId: EventId)
    requires Filed(a.events) && Filed(b.events)
    requires a.events == EraseEvents(b.events) && a.byContentHash == b.byContentHash
    ensures Decide(a, EraseEnv(env), newId) == EraseEvent(Decide(b, env, newId))
  {
    ChoiceErases(a, b, env);
    match SimilarEvent(b, env) {
      case None => NewEventErases(env, newId);
      case Some(id) => ExtendErases(b.events[id], env);
    }
  }

  /** Ingesting and forgetting raw ids commute. */
  lemma {:induction false} IngestErases(log: Log, env: RawEnvelope, ids: IdSupply)
    ensures EraseLog(IngestOne(log, env, ids)) == IngestOne(EraseLog(log), EraseEnv(env), ids)
    ensures forall key :: Known(EraseLog(log), key) <==> Known(log, key)
  {
    IndexErases(log);
    DecideErases(Index(EraseLog(log)), Index(log), env, ids(|Index(log).events|));
    assert Index(EraseLog(log)).events.Keys == Index(log).events.Keys;
    assert |Index(EraseLog(log)).events.Keys| == |Index(EraseLog(log)).events|;
    assert |Index(log).events.Keys| == |Index(log).events|;
    assert EraseLog(log + [Commit(log, env, ids)])
        == EraseLog(log) + [Entry(EraseEnv(env), EraseEvent(Commit(log, env, ids).event))];
  }

  lemma {:induction false} PassErases(feed: seq<RawEnvelope>, ids: IdSupply)
    ensures EraseLog(IngestAll(feed, ids)) == IngestAll(EraseFeed(feed), ids)
  {
    if feed != [] {
      var n := |feed| - 1;
      PassErases(feed[..n], ids);
      assert EraseFeed(feed)[..n] == EraseFeed(feed[..n]);
      PassGrows(feed, ids);
      PassGrows(EraseFeed(feed), ids);
      IngestErases(IngestAll(feed[..n], ids), feed[n], ids);
    }
  }

  // ---- replays that make their own envelopes ----

  /** A step of some replay; if it delivers, then under the raw id `rawId`. */
  datatype Delivery = Delivery(step: ReplayStep, rawId: RawItemId)

  /** The feed as one reading of it would make it now. */
  function Stamped(feed: seq<RawEnvelope>, rawId: RawItemId): seq<RawEnvelope> {
    seq(|feed|, i requires 0 <= i < |feed| => feed[i].(id := rawId))
  }

  ghost function DeliverNext(s: Replays<Log>, d: Delivery, feed: seq<RawEnvelope>, ids: IdSupply): Replays<Log> {
    Next(s, d.step, Stamped(feed, d.rawId), Ingest(ids), Known, KeyOf)
  }

  ghost function RunDeliveries(deliveries: seq<Delivery>, replays: nat, feed: seq<RawEnvelope>, ids: IdSupply): Replays<Log> {
    if deliveries == [] then Replays(seq(replays, _ => 0), [])
    else
      var n := |deliveries| - 1;
      DeliverNext(RunDeliveries(deliveries[..n], replays, feed, ids), deliveries[n], feed, ids)
  }

  function Steps(deliveries: seq<Delivery>): seq<ReplayStep> {
    seq(|deliveries|, i requires 0 <= i < |deliveries| => deliveries[i].step)
  }

  ghost function EraseStore(s: Replays<Log>): Replays<Log> {
    Replays(s.cursors, EraseLog(s.store))
  }

  lemma {:induction false} DeliveryErases(s: Replays<Log>, d: Delivery, feed: seq<RawEnvelope>, ids: IdSupply)
    ensures EraseStore(DeliverNext(s, d, feed, ids))
            == Next(EraseStore(s), d.step, EraseFeed(feed), Ingest(ids), Known, KeyOf)
  {
    if d.step.replay < |s.cursors| && d.step.Deliver? && s.cursors[d.step.replay] < |feed| {
      var env := Stamped(feed, d.rawId)[s.cursors[d.step.replay]];
      assert EraseEnv(env) == EraseFeed(feed)[s.cursors[d.step.replay]];
      IngestErases(s.store, env, ids);
    }
  }

  lemma {:induction false} RunErases(deliveries: seq<Delivery>, replays: nat, feed: seq<RawEnvelope>, ids: IdSupply)
    ensures EraseStore(RunDeliveries(deliveries, replays, feed, ids))
            == RunReplays(Steps(deliveries), replays, EraseFeed(feed), ids)
  {
    if deliveries == [] {
      assert EraseLog([]) == [];
    } else {
      var n := |deliveries| - 1;
      RunErases(deliveries[..n], replays, feed, ids);
      assert Steps(deliveries)[..n] == Steps(deliveries[..n]);
      DeliveryErases(RunDeliveries(deliveries[..n], replays, feed, ids), deliveries[n], feed, ids);
    }
  }

  /**
   * Crash and replay equivalence with new raw ids on every reading: but for raw ids the log is always
   * that of a pass over a prefix of the feed, and that of one clean pass once some replay is through.
   */
  lemma {:induction false} RedeliveryEndsLikeOnePass(
      deliveries: seq<Delivery>, replays: nat, feed: seq<RawEnvelope>, ids: IdSupply)
    ensures var s := RunDeliveries(deliveries, replays, feed, ids);
            && (exists n :: 0 <= n <= |feed| && EraseLog(s.store) == EraseLog(IngestAll(feed[..n], ids)))
            && ((exists r :: 0 <= r < |s.cursors| && s.cursors[r] == |feed|) ==>
                 EraseLog(s.store) == EraseLog(IngestAll(feed, ids)))
  {
    RunErases(deliveries, replays, feed, ids);
    EventReplaysEndLikeOnePass(Steps(deliveries), replays, EraseFeed(feed), ids);
    var s := RunReplays(Steps(deliveries), replays, EraseFeed(feed), ids);
    var n :| 0 <= n <= |feed| && s.store == IngestAll(EraseFeed(feed)[..n], ids);
    assert EraseFeed(feed)[..n] == EraseFeed(feed[..n]);
    PassErases(feed[..n], ids);
    PassErases(feed, ids);
  }

  // ---- the log of such a run is reachable ----

  /** No two deliveries make an envelope with the same raw id. */
  ghost predicate OwnRawIds(deliveries: seq<Delivery>) {
    forall i, j :: 0 <= i < j < |deliveries| ==> deliveries[i].rawId != deliveries[j].rawId
  }

  ghost predicate Delivered(log: Log, deliveries: seq<Delivery>, ids: IdSupply) {
    && Reachable(log) && Supplied(Index(log).events.Keys, ids)
    && forall e :: e in log ==> exists i :: 0 <= i < |deliveries| && deliveries[i].rawId == e.env.id
  }

  lemma {:induction false} OneMoreDelivery(
      s: Replays<Log>, init: seq<Delivery>, d: Delivery, feed: seq<RawEnvelope>, ids: IdSupply)
    requires Injective(ids) && OwnRawIds(init + [d]) && Delivered(s.store, init, ids)
    ensures Delivered(DeliverNext(s, d, feed, ids).store, init + [d], ids)
  {
    var all, after := init + [d], DeliverNext(s, d, feed, ids).store;
    assert all[|init|] == d && forall i :: 0 <= i < |init| ==> all[i] == init[i];
    if after != s.store {
      var env := Stamped(feed, d.rawId)[s.cursors[d.step.replay]];
      PassStep(s.store, env, ids);
      assert after == s.store + [Commit(s.store, env, ids)];
    }
    forall e | e in after
      ensures exists i :: 0 <= i < |all| && all[i].rawId == e.env.id
    {
      if e in s.store {
        var i :| 0 <= i < |init| && init[i].rawId == e.env.id;
        assert all[i].rawId == e.env.id;
      } else {
        assert all[|init|].rawId == e.env.id;
      }
    }
  }

  /** So everything proved of reachable logs holds of these runs too. */
  lemma {:induction false} RedeliveryIsReachable(deliveries: seq<Delivery>, replays: nat, feed: seq<RawEnvelope>, ids: IdSupply)
    requires Injective(ids) && OwnRawIds(deliveries)
    ensures Delivered(RunDeliveries(deliveries, replays, feed, ids).store, deliveries, ids)
  {
    if deliveries != [] {
      var init, d := deliveries[..|deliveries| - 1], deliveries[|deliveries| - 1];
      assert deliveries == init + [d];
      RedeliveryIsReachable(init, replays, feed, ids);
      OneMoreDelivery(RunDeliveries(init, replays, feed, ids), init, d, feed, ids);
    }
  }
}
