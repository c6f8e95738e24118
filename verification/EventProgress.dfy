/**
 * When the worker of `EventCrashes` gets through its feed. The unique index on native ids also covers the
 * empty one, which `ingest` treats as absent: two such items of one source stop the worker for good.
 */
module EventProgress {
  import opened Common
  import opened Contracts
  import opened EventClustering
  import opened EventLog
  import opened EventTables
  import opened Redelivery
  import opened EventReplay
  import opened EventRedelivery
  import opened EventCrashes

  /** Two items of one source whose native id is empty. */
  predicate BothEmpty(a: RawEnvelope, b: RawEnvelope) {
    && a.nativeId == Some("") && b.nativeId == Some("")
    && a.provider == b.provider && a.sourceId == b.sourceId
  }

  ghost predicate OneEmptyId(items: seq<RawEnvelope>) {
    forall i, j :: 0 <= i < j < |items| ==> !BothEmpty(items[i], items[j])
  }

  function Items(log: Log): seq<RawEnvelope> {
    seq(|log|, i requires 0 <= i < |log| => log[i].env)
  }

  /** A clean pass commits the first item of each identity key. */
  lemma {:induction false} PassCommitsFirsts(feed: seq<RawEnvelope>, ids: IdSupply)
    ensures Items(IngestAll(feed, ids)) == FirstOccurrences(feed, KeyOf)
  {
    if feed != [] {
      var init, last := feed[..|feed| - 1], feed[|feed| - 1];
      PassCommitsFirsts(init, ids);
      PassGrows(feed, ids);
      IngestObeysLaws(ids);
      KnownAfterPass([], init, Ingest(ids), Known, KeyOf, KeyOf(last));
      ItemsAppend(IngestAll(init, ids), Commit(IngestAll(init, ids), last, ids));
    }
  }

  lemma {:induction false} ItemsAppend(log: Log, entry: Entry)
    ensures Items(log + [entry]) == Items(log) + [entry.env]
  {
  }

  lemma {:induction false} EraseKeepsOneEmptyId(log: Log)
    ensures OneEmptyId(Items(EraseLog(log))) <==> OneEmptyId(Items(log))
  {
    var a, b := Items(EraseLog(log)), Items(log);
    forall i, j | 0 <= i < j < |log|
      ensures BothEmpty(a[i], a[j]) <==> BothEmpty(b[i], b[j])
    {
      assert a[i] == EraseEnv(b[i]) && a[j] == EraseEnv(b[j]);
    }
  }

  /** The log of a pass over the first items is the start of the log of the whole pass. */
  lemma {:induction false} PassesExtend(feed: seq<RawEnvelope>, n: nat, ids: IdSupply)
    requires n <= |feed|
    ensures IngestAll(feed[..n], ids) <= IngestAll(feed, ids)
  {
    if n == |feed| {
      assert feed[..n] == feed;
    } else {
      var k := |feed| - 1;
      assert feed[..k][..n] == feed[..n];
      PassesExtend(feed[..k], n, ids);
      PassGrows(feed, ids);
    }
  }

  /** Whether the database takes a new item, when what it holds has at most one empty id per source. */
  lemma {:induction false} AcceptedIff(log: Log, env: RawEnvelope)
    requires OneEmptyId(Items(log)) && !Known(log, KeyOf(env)) && forall e :: e in log ==> e.env.id != env.id
    ensures UniqueIndexesHold(TablesOf(log).rawItems, env) <==> OneEmptyId(Items(log) + [env])
  {
    RefusedByUniqueIndex(log, env);
    var items := Items(log) + [env];
    forall i | 0 <= i < |log|
      ensures items[i] == log[i].env && items[|log|] == env
    {
    }
    if UniqueIndexesHold(TablesOf(log).rawItems, env) {
      forall i, j | 0 <= i < j < |items|
        ensures !BothEmpty(items[i], items[j])
      {
        if j < |log| {
          assert !BothEmpty(Items(log)[i], Items(log)[j]);
        }
      }
    } else {
      var i :| 0 <= i < |log| && log[i].env.nativeId == Some("")
               && log[i].env.provider == env.provider && log[i].env.sourceId == env.sourceId;
      assert BothEmpty(items[i], items[|log|]);
    }
  }

  // ---- what the tables ever hold ----

  lemma {:induction false} ItemKeepsOneEmptyId(
      w: Worker, log: Log, step: WorkerStep, feed: seq<RawEnvelope>, ids: IdSupply, env: RawEnvelope)
    requires Tracks(w.store, log) && Reachable(log) && w.cursor < |feed| && env == feed[w.cursor].(id := step.rawId)
    requires Injective(ids) && Supplied(Index(log).events.Keys, ids) && forall e :: e in log ==> e.env.id != env.id
    requires OneEmptyId(Items(log)) && Offer(w, step, feed, ids).1.Ok?
    ensures OneEmptyId(Items(IngestOne(log, env, ids)))
  {
    if !Known(log, KeyOf(env)) {
      NewItem(w.store, log, env, ids, step.available);
      AcceptedIff(log, env);
      ItemsAppend(log, Commit(log, env, ids));
    }
  }

  /** Whatever the worker is offered, the tables hold at most one empty native id for each source. */
  lemma {:induction false} StoredOneEmptyId(steps: seq<WorkerStep>, feed: seq<RawEnvelope>, ids: IdSupply)
    requires Injective(ids) && OwnItems(steps)
    ensures OneEmptyId(Items(LogAfter(steps, feed, ids)))
  {
    if steps != [] {
      var n := |steps| - 1;
      var before := steps[..n];
      var w, log := AfterSteps(before, feed, ids), LogAfter(before, feed, ids);
      StoredOneEmptyId(before, feed, ids);
      StepsLeaveALog(before, feed, ids);
      FreshRawId(steps, feed, ids);
      LogOneStepMore(steps, feed, ids);
      if !steps[n].dies && w.cursor < |feed| && Offer(w, steps[n], feed, ids).1.Ok? {
        ItemKeepsOneEmptyId(w, log, steps[n], feed, ids, feed[w.cursor].(id := steps[n].rawId));
      }
    }
  }

  lemma {:induction false} LastOfRun(deliveries: seq<Delivery>, feed: seq<RawEnvelope>, ids: IdSupply)
    requires deliveries != []
    ensures var n := |deliveries| - 1;
            RunDeliveries(deliveries, 1, feed, ids)
            == DeliverNext(RunDeliveries(deliveries[..n], 1, feed, ids), deliveries[n], feed, ids)
  {
  }

  /** The log after the worker has had an item. */
  lemma {:induction false} ItemInLog(
      w: Worker, s: Replays<Log>, step: WorkerStep, feed: seq<RawEnvelope>, ids: IdSupply, env: RawEnvelope, ok: bool)
    requires Together(w, s) && Reachable(s.store) && !step.dies && w.cursor < |feed| && env == feed[w.cursor].(id := step.rawId)
    requires Injective(ids) && Supplied(Index(s.store).events.Keys, ids) && forall e :: e in s.store ==> e.env.id != env.id
    requires ok == Offer(w, step, feed, ids).1.Ok?
    ensures DeliverNext(s, DeliveryOf(w, step, feed, ids), feed, ids).store == if ok then IngestOne(s.store, env, ids) else s.store
  {
    WorkOnItem(w, step, feed, ids, Offer(w, step, feed, ids));
    ItemTracks(w, s.store, step, feed, ids, env);
    OneDelivery(s, Delivery(Deliver(0, ok), step.rawId), feed, ids, w.cursor);
  }

  /** The log after one more step of the worker. */
  lemma {:induction false} LogOneStepMore(steps: seq<WorkerStep>, feed: seq<RawEnvelope>, ids: IdSupply)
    requires steps != [] && Injective(ids) && OwnItems(steps)
    ensures var n := |steps| - 1;
            var w, log := AfterSteps(steps[..n], feed, ids), LogAfter(steps[..n], feed, ids);
            LogAfter(steps, feed, ids) ==
              if !steps[n].dies && w.cursor < |feed| && Offer(w, steps[n], feed, ids).1.Ok?
              then IngestOne(log, feed[w.cursor].(id := steps[n].rawId), ids)
              else log
  {
    var n := |steps| - 1;
    var before, step := steps[..n], steps[n];
    var w, s := AfterSteps(before, feed, ids), RunDeliveries(DeliveriesOf(before, feed, ids), 1, feed, ids);
    StepsLeaveALog(before, feed, ids);
    FreshRawId(steps, feed, ids);
    LastDelivery(steps, feed, ids);
    LastOfRun(DeliveriesOf(steps, feed, ids), feed, ids);
    if step.dies || w.cursor >= |feed| {
      NoDelivery(s, DeliveryOf(w, step, feed, ids), feed, ids, w.cursor);
    } else {
      var env := feed[w.cursor].(id := step.rawId);
      ItemInLog(w, s, step, feed, ids, env, Offer(w, step, feed, ids).1.Ok?);
    }
  }

  // ---- getting through ----

  lemma {:induction false} SameErasedItems(a: Log, b: Log)
    requires EraseLog(a) == EraseLog(b) && OneEmptyId(Items(b))
    ensures OneEmptyId(Items(a))
  {
    EraseKeepsOneEmptyId(a);
    EraseKeepsOneEmptyId(b);
  }

  /** A worker that is through has read no two empty native ids of one source. */
  lemma {:induction false} ThroughMeansOneEmptyId(steps: seq<WorkerStep>, feed: seq<RawEnvelope>, ids: IdSupply)
    requires Injective(ids) && OwnItems(steps) && AfterSteps(steps, feed, ids).cursor == |feed|
    ensures OneEmptyId(FirstOccurrences(feed, KeyOf))
  {
    CrashesEndLikeOnePass(steps, feed, ids);
    StoredOneEmptyId(steps, feed, ids);
    SameErasedItems(IngestAll(feed, ids), LogAfter(steps, feed, ids));
    PassCommitsFirsts(feed, ids);
  }

  /** What the worker would store next is part of what one clean pass stores. */
  lemma {:induction false} NextIsOfThePass(
      steps: seq<WorkerStep>, feed: seq<RawEnvelope>, ids: IdSupply, rawId: RawItemId)
    requires Injective(ids) && OwnItems(steps) && OneEmptyId(FirstOccurrences(feed, KeyOf))
    requires AfterSteps(steps, feed, ids).cursor < |feed|
    ensures var env := feed[AfterSteps(steps, feed, ids).cursor].(id := rawId);
            OneEmptyId(Items(IngestOne(LogAfter(steps, feed, ids), env, ids)))
  {
    var w, init := AfterSteps(steps, feed, ids), DeliveriesOf(steps, feed, ids);
    var d := Delivery(Deliver(0, true), rawId);
    var all := init + [d];
    StepsLeaveALog(steps, feed, ids);
    assert all[..|all| - 1] == init;
    OneDelivery(RunDeliveries(init, 1, feed, ids), d, feed, ids, w.cursor);
    RedeliveryEndsLikeOnePass(all, 1, feed, ids);
    var n :| 0 <= n <= |feed| && EraseLog(RunDeliveries(all, 1, feed, ids).store) == EraseLog(IngestAll(feed[..n], ids));
    PartHasOneEmptyId(feed, n, ids);
    SameErasedItems(RunDeliveries(all, 1, feed, ids).store, IngestAll(feed[..n], ids));
  }

  lemma {:induction false} PartHasOneEmptyId(feed: seq<RawEnvelope>, n: nat, ids: IdSupply)
    requires n <= |feed| && OneEmptyId(FirstOccurrences(feed, KeyOf))
    ensures OneEmptyId(Items(IngestAll(feed[..n], ids)))
  {
    PassesExtend(feed, n, ids);
    PassCommitsFirsts(feed, ids);
    var part, whole := IngestAll(feed[..n], ids), IngestAll(feed, ids);
    forall i, j | 0 <= i < j < |part|
      ensures !BothEmpty(Items(part)[i], Items(part)[j])
    {
      assert !BothEmpty(Items(whole)[i], Items(whole)[j]);
    }
  }

  /** A worker left alone: it does not die and its database is up. */
  predicate LeftAlone(steps: seq<WorkerStep>) {
    forall i :: 0 <= i < |steps| ==> !steps[i].dies && steps[i].available
  }

  lemma {:induction false} OfferSucceeds(steps: seq<WorkerStep>, step: WorkerStep, feed: seq<RawEnvelope>, ids: IdSupply)
    requires Injective(ids) && OwnItems(steps + [step]) && OneEmptyId(FirstOccurrences(feed, KeyOf))
    requires OwnItems(steps) && AfterSteps(steps, feed, ids).cursor < |feed| && step.available
    ensures Offer(AfterSteps(steps, feed, ids), step, feed, ids).1.Ok?
  {
    var w, log := AfterSteps(steps, feed, ids), LogAfter(steps, feed, ids);
    var env := feed[w.cursor].(id := step.rawId);
    StepsLeaveALog(steps, feed, ids);
    assert (steps + [step])[..|steps|] == steps;
    FreshRawId(steps + [step], feed, ids);
    ItemTracks(w, log, step, feed, ids, env);
    if !Known(log, KeyOf(env)) {
      StoredOneEmptyId(steps, feed, ids);
      NextIsOfThePass(steps, feed, ids, step.rawId);
      ItemsAppend(log, Commit(log, env, ids));
      AcceptedIff(log, env);
      NewItem(w.store, log, env, ids, step.available);
    }
  }

  lemma {:induction false} CursorStaysInFeed(steps: seq<WorkerStep>, feed: seq<RawEnvelope>, ids: IdSupply)
    ensures AfterSteps(steps, feed, ids).cursor <= |feed|
  {
    if steps != [] {
      CursorStaysInFeed(steps[..|steps| - 1], feed, ids);
    }
  }

  lemma {:induction false} EachStepAdvances(
      steps: seq<WorkerStep>, alone: seq<WorkerStep>, feed: seq<RawEnvelope>, ids: IdSupply)
    requires Injective(ids) && OwnItems(steps + alone) && LeftAlone(alone) && OneEmptyId(FirstOccurrences(feed, KeyOf))
    ensures AfterSteps(steps + alone, feed, ids).cursor >= if |alone| <= |feed| then |alone| else |feed|
  {
    if alone != [] {
      var n := |alone| - 1;
      var before, step := steps + alone[..n], alone[n];
      assert steps + alone == before + [step] && (before + [step])[..|before|] == before;
      assert forall i :: 0 <= i < |before| ==> before[i] == (steps + alone)[i];
      EachStepAdvances(steps, alone[..n], feed, ids);
      var w := AfterSteps(before, feed, ids);
      if w.cursor < |feed| {
        OfferSucceeds(before, step, feed, ids);
      }
    }
  }

  /**
   * Progress. A worker that has had any number of crashes and is then left alone for as many steps as the
   * feed has items is through if and only if, among the first items of each identity key, no source has
   * two with an empty native id. Otherwise it never is.
   */
  lemma {:induction false} WorkerGetsThroughIff(
      steps: seq<WorkerStep>, alone: seq<WorkerStep>, feed: seq<RawEnvelope>, ids: IdSupply)
    requires Injective(ids) && OwnItems(steps + alone) && LeftAlone(alone) && |alone| >= |feed|
    ensures AfterSteps(steps + alone, feed, ids).cursor == |feed| <==> OneEmptyId(FirstOccurrences(feed, KeyOf))
  {
    if OneEmptyId(FirstOccurrences(feed, KeyOf)) {
      EachStepAdvances(steps, alone, feed, ids);
      CursorStaysInFeed(steps + alone, feed, ids);
    }
    if AfterSteps(steps + alone, feed, ids).cursor == |feed| {
      ThroughMeansOneEmptyId(steps + alone, feed, ids);
    }
  }

  // ---- two items that stop a worker ----

  /** Two items with empty native ids and different content. */
  function EmptyIdItem(k: nat): RawEnvelope {
    RawEnvelope(
      k, "wire", "source", Some(""), None, None, 0, 0, "title", "en", "news", if k == 0 then "one" else "other", None)
  }

  ghost function LogOfFirst(id: EventId): Log {
    [Entry(EmptyIdItem(0), NewEvent(EmptyIdItem(0), id))]
  }

  lemma {:induction false} EmptyIdsFallBackToContent()
    ensures KeyOf(EmptyIdItem(0)) != KeyOf(EmptyIdItem(1)) && BothEmpty(EmptyIdItem(0), EmptyIdItem(1))
  {
    var a, b := KeyOf(EmptyIdItem(0)).2, KeyOf(EmptyIdItem(1)).2;
    assert a[7..] == "one" && b[7..] == "other";
  }

  lemma {:induction false} LogOfFirstIsReachable(id: EventId)
    ensures Reachable(LogOfFirst(id)) && Index(LogOfFirst(id)) == Record(EMPTY_MEMORY, EmptyIdItem(0), NewEvent(EmptyIdItem(0), id))
  {
    var log := LogOfFirst(id);
    assert Candidates(EMPTY_MEMORY, EmptyIdItem(0)) == {};
    assert log == [] + log;
    Append([], log[0]);
    AppendIsReachable([], log[0]);
  }

  lemma {:induction false} SecondFollows(id: EventId, newId: EventId)
    requires id != newId
    ensures Follows(LogOfFirst(id), Entry(EmptyIdItem(1), Decide(Index(LogOfFirst(id)), EmptyIdItem(1), newId)))
  {
    var log, env := LogOfFirst(id), EmptyIdItem(1);
    LogOfFirstIsReachable(id);
    EmptyIdsFallBackToContent();
    var similar := SimilarEvent(Index(log), env);
    assert similar.Some? ==> similar.value in Candidates(Index(log), env);
  }

  /** To `ingest` the second item is new; the database refuses it, whatever event it is put in. */
  lemma {:induction false} SecondEmptyIdIsRefused(id: EventId, newId: EventId, available: bool)
    requires id != newId
    ensures Reachable(LogOfFirst(id)) && !Known(LogOfFirst(id), KeyOf(EmptyIdItem(1)))
    ensures Save(TablesOf(LogOfFirst(id)), EmptyIdItem(1), Decide(Index(LogOfFirst(id)), EmptyIdItem(1), newId), available)
            == Err(UniqueIndexViolated)
  {
    var log, env := LogOfFirst(id), EmptyIdItem(1);
    LogOfFirstIsReachable(id);
    SecondFollows(id, newId);
    ReachableIsGrown(log);
    NewMentionIsFound(log, Entry(env, Decide(Index(log), env, newId)));
    assert Collides(TablesOf(log).rawItems[0], env);
  }

  lemma {:induction false} FirstsOfTwo(a: RawEnvelope, b: RawEnvelope)
    requires KeyOf(a) != KeyOf(b)
    ensures FirstOccurrences([a, b], KeyOf) == [a, b]
  {
    assert [a, b][..1] == [a] && [a][..0] == [];
    assert FirstOccurrences([a], KeyOf) == [a];
  }

  /** A worker whose feed is two such items never gets through it. */
  lemma {:induction false} EmptyIdsStopTheWorker(a: RawEnvelope, b: RawEnvelope, steps: seq<WorkerStep>, ids: IdSupply)
    requires Injective(ids) && OwnItems(steps) && BothEmpty(a, b) && KeyOf(a) != KeyOf(b)
    ensures AfterSteps(steps, [a, b], ids).cursor < 2
  {
    FirstsOfTwo(a, b);
    CursorStaysInFeed(steps, [a, b], ids);
    assert BothEmpty([a, b][0], [a, b][1]);
    if AfterSteps(steps, [a, b], ids).cursor == 2 {
      ThroughMeansOneEmptyId(steps, [a, b], ids);
    }
  }
}
