/**
 * A persistent worker that dies and starts over: it loads the tables, in whatever order the rows come,
 * and reads its feed again from the start, with new raw ids.
 */
module EventCrashes {
  import opened Common
  import opened Contracts
  import opened EventClustering
  import opened EventLog
  import opened EventTables
  import opened Redelivery
  import opened EventReplay
  import opened EventIngest
  import opened EventRedelivery
  import opened EventReload
  import opened EventTies

  /**
   * The worker dies, or takes its next item under the raw id `rawId`; `available` says whether the
   * database would take the rows, and `rows` is the order in which a restarted worker gets them.
   */
  datatype WorkerStep = WorkerStep(rawId: RawItemId, dies: bool, available: bool, rows: Tables)

  datatype Worker = Worker(store: FiledStore, cursor: nat)

  ghost function Restarted(store: FiledStore, rows: Tables): Worker {
    if store.rows.None? then Worker(store, 0)
    else Worker(Store(Rebuild(LoadState(Returned(rows, store.rows.value))), store.rows), 0)
  }

  /** The item as this reading makes it, offered to the service. */
  ghost function Offer(w: Worker, step: WorkerStep, feed: seq<RawEnvelope>, ids: IdSupply): (FiledStore, Outcome)
    requires w.cursor < |feed|
  {
    IngestInto(w.store, feed[w.cursor].(id := step.rawId), ids, step.available)
  }

  /** A call that raises ends the process too. */
  ghost function Work(w: Worker, step: WorkerStep, feed: seq<RawEnvelope>, ids: IdSupply): Worker {
    if step.dies then Restarted(w.store, step.rows)
    else if w.cursor >= |feed| then w
    else
      var (after, outcome) := Offer(w, step, feed, ids);
      if outcome.Ok? then Worker(after, w.cursor + 1) else Restarted(after, step.rows)
  }

  ghost function AfterSteps(steps: seq<WorkerStep>, feed: seq<RawEnvelope>, ids: IdSupply): Worker {
    if steps == [] then Worker(Store(EMPTY_MEMORY, Some(EMPTY_TABLES)), 0)
    else Work(AfterSteps(steps[..|steps| - 1], feed, ids), steps[|steps| - 1], feed, ids)
  }

  /** A worker that dies, or whose call raises, knows again just what is stored, and is at the start of its feed. */
  lemma {:induction false} StartsOver(w: Worker, step: WorkerStep, feed: seq<RawEnvelope>, ids: IdSupply)
    requires w.store.rows.Some?
    requires step.dies || (w.cursor < |feed| && Offer(w, step, feed, ids).1.Err?)
    ensures var after := Work(w, step, feed, ids);
            && after.cursor == 0 && after.store.rows.Some?
            && exists rows :: SameRows(rows, after.store.rows.value) && after.store.memory == Rebuild(LoadState(rows))
  {
    var store := if step.dies then w.store else Offer(w, step, feed, ids).0;
    var rows := Returned(step.rows, store.rows.value);
    assert SameRows(rows, store.rows.value);
  }

  // ---- one call ----

  /** The tables are those of the log, and the memory is that of the log up to ties. */
  ghost predicate Tracks(store: Store, log: Log) {
    store.rows == Some(TablesOf(log)) && TiedTo(store.memory, log)
  }

  lemma {:induction false} RestartTracks(store: FiledStore, log: Log, rows: Tables)
    requires Reachable(log) && store.rows == Some(TablesOf(log))
    ensures Tracks(Restarted(store, rows).store, log)
  {
    LoadIsTied(log, Returned(rows, TablesOf(log)));
  }

  lemma {:induction false} KnownIsFiled(log: Log, key: IdentityKey)
    requires Reachable(log) && Known(log, key)
    ensures Index(log).byIdentity[key] in Index(log).events
  {
    KeysAreAScan(log, key);
    var i :| 0 <= i < |log| && KeyOf(log[i].env) == key;
    ReachableIsDistinct(log);
    ReachableIsGrown(log);
    IdentityIndexIsAScan(log, i);
    var k := EntryIsInItsHistory(log, i);
    History(log, log[i].event.eventId);
  }

  lemma {:induction false} KnownItem(store: FiledStore, log: Log, env: RawEnvelope, ids: IdSupply, available: bool)
    requires Tracks(store, log) && Reachable(log) && Known(log, KeyOf(env))
    ensures var (after, outcome) := IngestInto(store, env, ids, available);
            after == store && outcome.Ok?
  {
    KnownIsFiled(log, KeyOf(env));
  }

  /** Saving a legal next commit. */
  lemma {:induction false} SaveOfCommit(log: Log, entry: Entry, available: bool)
    requires Grown(log) && Follows(log, entry)
    ensures var saved := Save(TablesOf(log), entry.env, entry.event, available);
            && (saved.Ok? <==> available && UniqueIndexesHold(TablesOf(log).rawItems, entry.env))
            && (saved.Ok? ==> saved.value == TablesOf(log + [entry]))
  {
    NewMentionIsFound(log, entry);
    if available && UniqueIndexesHold(TablesOf(log).rawItems, entry.env) {
      SaveAppends(log, entry);
    }
  }

  lemma {:induction false} OutcomeOfSave(
      store: FiledStore, env: RawEnvelope, ids: IdSupply, available: bool, event: CanonicalEvent, saved: Result<Tables, SaveError>)
    requires KeyOf(env) !in store.memory.byIdentity && store.rows.Some?
    requires event == Decide(store.memory, env, ids(|store.memory.events|))
    requires saved == Save(store.rows.value, env, event, available)
    ensures var (after, outcome) := IngestInto(store, env, ids, available);
            && (outcome.Ok? <==> saved.Ok?)
            && after == if saved.Ok? then Store(Record(store.memory, env, event), Some(saved.value)) else store
  {
  }

  lemma {:induction false} NewItem(store: FiledStore, log: Log, env: RawEnvelope, ids: IdSupply, available: bool)
    requires Tracks(store, log) && Reachable(log) && !Known(log, KeyOf(env))
    requires Injective(ids) && Supplied(Index(log).events.Keys, ids) && forall e :: e in log ==> e.env.id != env.id
    ensures var (after, outcome) := IngestInto(store, env, ids, available);
            && (outcome.Ok? <==> available && UniqueIndexesHold(TablesOf(log).rawItems, env))
            && (outcome.Ok? ==> Tracks(after, log + [Commit(log, env, ids)]))
            && (outcome.Err? ==> after == store)
  {
    var newId := ids(|Index(log).events|);
    ReachableIsGrown(log);
    TiedIsFiled(store.memory, Index(log));
    CommitFollows(log, env, ids);
    TiedIngest(store.memory, log, env, newId, available);
    SaveOfCommit(log, Commit(log, env, ids), available);
    var event := Decide(store.memory, env, newId);
    OutcomeOfSave(store, env, ids, available, event, Save(TablesOf(log), env, event, available));
  }

  // ---- a run of the worker is a run of redeliveries ----

  /** No two items are read under one raw id. */
  ghost predicate OwnItems(steps: seq<WorkerStep>) {
    forall i, j :: 0 <= i < j < |steps| ==> steps[i].rawId != steps[j].rawId
  }

  ghost function Succeeds(w: Worker, step: WorkerStep, feed: seq<RawEnvelope>, ids: IdSupply): bool {
    w.cursor < |feed| ==> Offer(w, step, feed, ids).1.Ok?
  }

  /** The step as a delivery to a log. */
  ghost function DeliveryOf(w: Worker, step: WorkerStep, feed: seq<RawEnvelope>, ids: IdSupply): Delivery {
    Delivery(if step.dies then Crash(0) else Deliver(0, Succeeds(w, step, feed, ids)), step.rawId)
  }

  ghost function DeliveriesOf(steps: seq<WorkerStep>, feed: seq<RawEnvelope>, ids: IdSupply): seq<Delivery> {
    seq(|steps|, i requires 0 <= i < |steps| => DeliveryOf(AfterSteps(steps[..i], feed, ids), steps[i], feed, ids))
  }

  lemma {:induction false} DeliveryId(w: Worker, step: WorkerStep, feed: seq<RawEnvelope>, ids: IdSupply)
    ensures DeliveryOf(w, step, feed, ids).rawId == step.rawId
  {
  }

  /** The deliveries have the raw ids of the steps. */
  lemma {:induction false} DeliveryIds(steps: seq<WorkerStep>, feed: seq<RawEnvelope>, ids: IdSupply, i: nat)
    requires i < |steps|
    ensures DeliveriesOf(steps, feed, ids)[i].rawId == steps[i].rawId
  {
    DeliveryId(AfterSteps(steps[..i], feed, ids), steps[i], feed, ids);
  }

  lemma {:induction false} DeliveriesHaveOwnIds(steps: seq<WorkerStep>, feed: seq<RawEnvelope>, ids: IdSupply)
    requires OwnItems(steps)
    ensures OwnRawIds(DeliveriesOf(steps, feed, ids))
  {
    var deliveries := DeliveriesOf(steps, feed, ids);
    forall i, j | 0 <= i < j < |deliveries|
      ensures deliveries[i].rawId != deliveries[j].rawId
    {
      DeliveryIds(steps, feed, ids, i);
      DeliveryIds(steps, feed, ids, j);
    }
  }

  /** One step more is one delivery more. */
  lemma {:induction false} LastDelivery(steps: seq<WorkerStep>, feed: seq<RawEnvelope>, ids: IdSupply)
    requires steps != []
    ensures var n := |steps| - 1;
            && DeliveriesOf(steps, feed, ids)[..n] == DeliveriesOf(steps[..n], feed, ids)
            && DeliveriesOf(steps, feed, ids)[n] == DeliveryOf(AfterSteps(steps[..n], feed, ids), steps[n], feed, ids)
  {
    var n := |steps| - 1;
    assert forall i :: 0 <= i < n ==> steps[..n][..i] == steps[..i];
  }

  /** The log of the commits that the worker's processes have made. */
  ghost function LogAfter(steps: seq<WorkerStep>, feed: seq<RawEnvelope>, ids: IdSupply): Log {
    RunDeliveries(DeliveriesOf(steps, feed, ids), 1, feed, ids).store
  }

  lemma {:induction false} NoDelivery(s: Replays<Log>, d: Delivery, feed: seq<RawEnvelope>, ids: IdSupply, cursor: nat)
    requires s.cursors == [cursor] && d.step.replay == 0 && (d.step.Deliver? ==> cursor >= |feed|)
    ensures DeliverNext(s, d, feed, ids) == Replays([if d.step.Crash? then 0 else cursor], s.store)
  {
  }

  lemma {:induction false} OneDelivery(s: Replays<Log>, d: Delivery, feed: seq<RawEnvelope>, ids: IdSupply, cursor: nat)
    requires s.cursors == [cursor] && cursor < |feed| && d.step.Deliver? && d.step.replay == 0
    ensures var env := feed[cursor].(id := d.rawId);
            DeliverNext(s, d, feed, ids) ==
              if Known(s.store, KeyOf(env)) || d.step.saved
              then Replays([cursor + 1], IngestOne(s.store, env, ids))
              else Replays([0], s.store)
  {
    var stamped := Stamped(feed, d.rawId);
    assert stamped[cursor] == feed[cursor].(id := d.rawId);
    OneReplay(s, d.step.saved, stamped, ids, cursor);
  }

  lemma {:induction false} OneReplay(s: Replays<Log>, saved: bool, feed: seq<RawEnvelope>, ids: IdSupply, cursor: nat)
    requires s.cursors == [cursor] && cursor < |feed|
    ensures Next(s, Deliver(0, saved), feed, Ingest(ids), Known, KeyOf) ==
              if Known(s.store, KeyOf(feed[cursor])) || saved
              then Replays([cursor + 1], IngestOne(s.store, feed[cursor], ids))
              else Replays([0], s.store)
  {
  }

  /** What one item does to the worker, and to the log. */
  lemma {:induction false} ItemTracks(
      w: Worker, log: Log, step: WorkerStep, feed: seq<RawEnvelope>, ids: IdSupply, env: RawEnvelope)
    requires Tracks(w.store, log) && Reachable(log) && w.cursor < |feed| && env == feed[w.cursor].(id := step.rawId)
    requires Injective(ids) && Supplied(Index(log).events.Keys, ids) && forall e :: e in log ==> e.env.id != env.id
    ensures var (after, outcome) := Offer(w, step, feed, ids);
            && (Known(log, KeyOf(env)) ==> outcome.Ok?)
            && (outcome.Ok? ==> Tracks(after, IngestOne(log, env, ids)))
            && (outcome.Err? ==> after == w.store)
  {
    if Known(log, KeyOf(env)) {
      KnownItem(w.store, log, env, ids, step.available);
    } else {
      NewItem(w.store, log, env, ids, step.available);
    }
  }

  /** The worker's store and position are those of the redeliveries. */
  ghost predicate Together(w: Worker, s: Replays<Log>) {
    s.cursors == [w.cursor] && Tracks(w.store, s.store)
  }

  lemma {:induction false} WorkOnItem(
      w: Worker, step: WorkerStep, feed: seq<RawEnvelope>, ids: IdSupply, offered: (FiledStore, Outcome))
    requires !step.dies && w.cursor < |feed| && offered == Offer(w, step, feed, ids)
    ensures Work(w, step, feed, ids)
            == if offered.1.Ok? then Worker(offered.0, w.cursor + 1) else Restarted(offered.0, step.rows)
    ensures DeliveryOf(w, step, feed, ids) == Delivery(Deliver(0, offered.1.Ok?), step.rawId)
  {
  }

  lemma {:induction false} RestartTogether(store: FiledStore, log: Log, rows: Tables)
    requires Reachable(log) && store.rows == Some(TablesOf(log))
    ensures Together(Restarted(store, rows), Replays([0], log))
  {
    RestartTracks(store, log, rows);
  }

  /** What `ItemTracks` says of an item and its outcome. */
  ghost predicate Handled(store: FiledStore, log: Log, known: bool, longer: Log, offered: (FiledStore, Outcome)) {
    && (known ==> offered.1.Ok?)
    && (offered.1.Ok? ==> Tracks(offered.0, longer))
    && (offered.1.Err? ==> offered.0 == store)
  }

  lemma {:induction false} HandledTogether(
      w: Worker, log: Log, rows: Tables, known: bool, longer: Log, offered: (FiledStore, Outcome))
    requires Tracks(w.store, log) && Reachable(log) && Handled(w.store, log, known, longer, offered)
    ensures Together(
              if offered.1.Ok? then Worker(offered.0, w.cursor + 1) else Restarted(offered.0, rows),
              if known || offered.1.Ok? then Replays([w.cursor + 1], longer) else Replays([0], log))
  {
    if offered.1.Err? {
      RestartTogether(offered.0, log, rows);
    }
  }

  lemma {:induction false} ItemKeepsTogether(
      s: Replays<Log>, d: Delivery, feed: seq<RawEnvelope>, ids: IdSupply, w: Worker, rows: Tables,
      offered: (FiledStore, Outcome), env: RawEnvelope)
    requires Together(w, s) && Reachable(s.store) && w.cursor < |feed|
    requires env == feed[w.cursor].(id := d.rawId) && d.step == Deliver(0, offered.1.Ok?)
    requires Handled(w.store, s.store, Known(s.store, KeyOf(env)), IngestOne(s.store, env, ids), offered)
    ensures Together(
              if offered.1.Ok? then Worker(offered.0, w.cursor + 1) else Restarted(offered.0, rows),
              DeliverNext(s, d, feed, ids))
  {
    OneDelivery(s, d, feed, ids, w.cursor);
    HandledTogether(w, s.store, rows, Known(s.store, KeyOf(env)), IngestOne(s.store, env, ids), offered);
  }

  lemma {:induction false} StepKeepsTogether(
      w: Worker, s: Replays<Log>, step: WorkerStep, feed: seq<RawEnvelope>, ids: IdSupply)
    requires Together(w, s) && Reachable(s.store)
    requires Injective(ids) && Supplied(Index(s.store).events.Keys, ids) && forall e :: e in s.store ==> e.env.id != step.rawId
    ensures Together(Work(w, step, feed, ids), DeliverNext(s, DeliveryOf(w, step, feed, ids), feed, ids))
  {
    if step.dies || w.cursor >= |feed| {
      NoDelivery(s, DeliveryOf(w, step, feed, ids), feed, ids, w.cursor);
      RestartTogether(w.store, s.store, step.rows);
    } else {
      var env, offered := feed[w.cursor].(id := step.rawId), Offer(w, step, feed, ids);
      WorkOnItem(w, step, feed, ids, offered);
      ItemTracks(w, s.store, step, feed, ids, env);
      ItemKeepsTogether(s, DeliveryOf(w, step, feed, ids), feed, ids, w, step.rows, offered, env);
    }
  }

  /** Through crashes, refused saves and restarts: tables and memory are those of the log of commits. */
  lemma {:induction false} StepsLeaveALog(steps: seq<WorkerStep>, feed: seq<RawEnvelope>, ids: IdSupply)
    requires Injective(ids) && OwnItems(steps)
    ensures var w, log := AfterSteps(steps, feed, ids), LogAfter(steps, feed, ids);
            && Tracks(w.store, log) && Delivered(log, DeliveriesOf(steps, feed, ids), ids)
            && RunDeliveries(DeliveriesOf(steps, feed, ids), 1, feed, ids) == Replays([w.cursor], log)
  {
    DeliveriesHaveOwnIds(steps, feed, ids);
    RedeliveryIsReachable(DeliveriesOf(steps, feed, ids), 1, feed, ids);
    if steps == [] {
      assert TablesOf([]) == EMPTY_TABLES;
      assert seq(1, _ => 0) == [0];
    } else {
      var n := |steps| - 1;
      var before := steps[..n];
      StepsLeaveALog(before, feed, ids);
      FreshRawId(steps, feed, ids);
      LastDelivery(steps, feed, ids);
      StepKeepsTogether(
        AfterSteps(before, feed, ids), RunDeliveries(DeliveriesOf(before, feed, ids), 1, feed, ids), steps[n], feed, ids);
    }
  }

  lemma {:induction false} FreshRawId(steps: seq<WorkerStep>, feed: seq<RawEnvelope>, ids: IdSupply)
    requires steps != [] && OwnItems(steps)
    requires var before := steps[..|steps| - 1]; Delivered(LogAfter(before, feed, ids), DeliveriesOf(before, feed, ids), ids)
    ensures forall e :: e in LogAfter(steps[..|steps| - 1], feed, ids) ==> e.env.id != steps[|steps| - 1].rawId
  {
    var before := steps[..|steps| - 1];
    var deliveries := DeliveriesOf(before, feed, ids);
    forall e | e in LogAfter(before, feed, ids)
      ensures e.env.id != steps[|steps| - 1].rawId
    {
      var i :| 0 <= i < |deliveries| && deliveries[i].rawId == e.env.id;
      DeliveryIds(before, feed, ids, i);
    }
  }

  /**
   * Crash equivalence over the tables. A worker that dies at any point, or whose save is refused, loads
   * what is stored and reads its feed again. But for raw ids, what is stored is always what one clean pass
   * over the first items of the feed commits, and once the worker is through it is what one clean pass
   * over the whole feed commits; the worker's memory is that of these commits up to ties.
   */
  lemma {:induction false} CrashesEndLikeOnePass(steps: seq<WorkerStep>, feed: seq<RawEnvelope>, ids: IdSupply)
    requires Injective(ids) && OwnItems(steps)
    ensures var w, log := AfterSteps(steps, feed, ids), LogAfter(steps, feed, ids);
            && w.store.rows == Some(TablesOf(log)) && TiedTo(w.store.memory, log) && Reachable(log)
            && (exists n :: 0 <= n <= |feed| && EraseLog(log) == EraseLog(IngestAll(feed[..n], ids)))
            && (w.cursor == |feed| ==> EraseLog(log) == EraseLog(IngestAll(feed, ids)))
  {
    StepsLeaveALog(steps, feed, ids);
    RedeliveryEndsLikeOnePass(DeliveriesOf(steps, feed, ids), 1, feed, ids);
    var w := AfterSteps(steps, feed, ids);
    assert [w.cursor][0] == w.cursor;
  }
}
