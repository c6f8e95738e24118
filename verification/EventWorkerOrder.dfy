/**
 * `event_worker.main` builds its service, which loads the state, before it takes the lease. Here is a
 * run of two workers in that order of steps that rewrites a committed version.
 */
module EventWorkerOrder {
  import opened Common
  import opened Contracts
  import opened EventClustering
  import opened EventLog
  import opened EventTables
  import opened EventProcesses
  import opened EventStaleWriters

  function NativeId(k: nat): string {
    if k == 0 then "first" else if k == 1 then "second" else "third"
  }

  const CONTENT_HASH := "0123456789abcdef0123456789abcdef0123456789abcdef0123456789abcdef"

  /** Three items with one content; only their ids differ. */
  function Item(k: nat): RawEnvelope {
    RawEnvelope(
      k, "wire", "source", Some(NativeId(k)), None, None, 0, 0, "title", "en", "news", CONTENT_HASH, None)
  }

  const FIRST := NewEvent(Item(0), 7)

  const OVERLAPPING_LOG := [Entry(Item(0), FIRST), Entry(Item(1), Extend(FIRST, Item(1)))]

  /** An item whose content an event already carries joins that event when there is no other. */
  lemma {:induction false} JoinsOnlyEvent(mem: Memory, env: RawEnvelope, id: EventId)
    requires Filed(mem.events) && mem.events.Keys == {id}
    requires id in ExactIds(mem.byContentHash, env.contentHash)
    requires mem.events[id].eventType == env.category && Distance(env, mem.events[id]) == 0
    ensures SimilarEvent(mem, env) == Some(id)
  {
    assert id in Candidates(mem, env);
  }

  lemma {:induction false} NativeIdsDiffer(j: nat, k: nat)
    requires j < k <= 2
    ensures KeyOf(Item(j)) != KeyOf(Item(k)) && NativeId(j) != NativeId(k)
  {
    assert NativeId(j)[0] != NativeId(k)[0];
  }

  lemma {:induction false} IndexOfOne()
    ensures OVERLAPPING_LOG[..0] == [] && OVERLAPPING_LOG[..1] == [Entry(Item(0), FIRST)]
    ensures Index(OVERLAPPING_LOG[..1]) == Record(EMPTY_MEMORY, Item(0), FIRST)
    ensures EntriesOf(OVERLAPPING_LOG[..1], 7) == [Entry(Item(0), FIRST)]
  {
    var entry := Entry(Item(0), FIRST);
    assert OVERLAPPING_LOG[..1] == [] + [entry];
    Append([], entry);
  }

  lemma {:induction false} FollowsFirst(k: nat)
    requires k == 1 || k == 2
    ensures Follows(OVERLAPPING_LOG[..1], Entry(Item(k), Extend(FIRST, Item(k))))
    ensures KeyOf(Item(k)) !in Index(OVERLAPPING_LOG[..1]).byIdentity
    ensures forall newId :: Decide(Index(OVERLAPPING_LOG[..1]), Item(k), newId) == Extend(FIRST, Item(k))
  {
    IndexOfOne();
    NativeIdsDiffer(0, k);
    JoinsOnlyEvent(Index(OVERLAPPING_LOG[..1]), Item(k), 7);
  }

  lemma {:induction false} FollowsNothing()
    ensures Follows([], OVERLAPPING_LOG[0])
    ensures Decide(EMPTY_MEMORY, Item(0), 7) == FIRST
  {
    assert Candidates(EMPTY_MEMORY, Item(0)) == {};
  }

  lemma {:induction false} OverlappingLogIsReachable()
    ensures Reachable(OVERLAPPING_LOG)
    ensures |EntriesOf(OVERLAPPING_LOG, 7)| == 2
    ensures Index(OVERLAPPING_LOG).events.Keys == {7}
  {
    var log := OVERLAPPING_LOG;
    IndexOfOne();
    FollowsNothing();
    FollowsFirst(1);
    AppendIsReachable([], log[0]);
    assert [] + [log[0]] == log[..1];
    AppendIsReachable(log[..1], log[1]);
    Append(log[..1], log[1]);
    assert log == log[..1] + [log[1]];
  }

  lemma {:induction false} IndexesAdmit(k: nat, rows: seq<RawItemRow>)
    requires k <= 2 && |rows| <= k && forall i :: 0 <= i < |rows| ==> rows[i] == Item(i)
    ensures UniqueIndexesHold(rows, Item(k))
  {
    forall i | 0 <= i < |rows|
      ensures !Collides(rows[i], Item(k))
    {
      NativeIdsDiffer(i, k);
    }
  }

  lemma {:induction false} NewToTheLog(k: nat)
    requires k >= 2
    ensures ItemIsNew(OVERLAPPING_LOG, Entry(Item(k), Extend(FIRST, Item(k))))
  {
    forall e | e in OVERLAPPING_LOG
      ensures e.env.id != k
    {
      assert e.env.id < 2;
    }
  }

  /**
   * Worker 2's snapshot holds the first item only; the second item is committed; then worker 2 saves
   * the third. Version 2 of event 7 is rewritten.
   */
  lemma {:induction false} StaleSnapshotRewritesHistory()
    ensures var late := Entry(Item(2), Extend(FIRST, Item(2)));
            && StaleSave(OVERLAPPING_LOG, OVERLAPPING_LOG[..1], late)
            && !EventUnchanged(OVERLAPPING_LOG, OVERLAPPING_LOG[..1], 7)
            && Committed(OVERLAPPING_LOG, 7, 2).Some?
            && LoadEventVersion(Saved(OVERLAPPING_LOG, late), 7, 2) != Committed(OVERLAPPING_LOG, 7, 2)
  {
    var log, late := OVERLAPPING_LOG, Entry(Item(2), Extend(FIRST, Item(2)));
    IndexOfOne();
    FollowsFirst(2);
    OverlappingLogIsReachable();
    ReachableIsGrown(log);
    NewToTheLog(2);
    PrefixLags(log, 1);
    StaleSaveRewrites(log, log[..1], late);
  }

  // ---- the worker's own order of steps reaches it ----

  /** An ingest whose save succeeds, spelled out. */
  lemma {:induction false} IngestSaves(
      s: System, p: ProcessId, env: RawEnvelope, newId: EventId, event: CanonicalEvent, tables: Tables)
    requires AllFiled(s) && Owns(s, p) && p in s.processes && KeyOf(env) !in s.processes[p].memory.byIdentity
    requires Decide(s.processes[p].memory, env, newId) == event
    requires Save(s.tables, env, event, true) == Ok(tables)
    ensures var r := Next(s, Ingest(p, env, newId, true));
            && r.tables == tables && r.log == s.log + [Entry(env, event)] && r.lease == s.lease
            && r.processes.Keys == s.processes.Keys
            && forall q :: q in s.processes && q != p ==> r.processes[q] == s.processes[q]
  {
  }

  /** The owner of a current lease commits what an up-to-date service decides. */
  lemma {:induction false} CurrentIngestCommits(s: System, p: ProcessId, env: RawEnvelope, newId: EventId, event: CanonicalEvent)
    requires Safe(s) && AllFiled(s) && Owns(s, p) && s.lease.value.current
    requires Follows(s.log, Entry(env, event)) && UniqueIndexesHold(TablesOf(s.log).rawItems, env)
    requires event == Decide(Index(s.log), env, newId) && newId !in Index(s.log).events
    ensures var r := Next(s, Ingest(p, env, newId, true));
            && Safe(r) && r.log == s.log + [Entry(env, event)] && r.lease == s.lease
            && r.processes.Keys == s.processes.Keys
            && forall q :: q in s.processes && q != p ==> r.processes[q] == s.processes[q]
  {
    assert ProcessOk(s.processes[p], s.log) && s.log[..|s.log|] == s.log;
    SameIndexesSameDecision(s.processes[p].memory, Index(s.log), env, newId);
    ReachableIsGrown(s.log);
    SaveAppends(s.log, Entry(env, event));
    IngestSaves(s, p, env, newId, event, TablesOf(s.log + [Entry(env, event)]));
    StepIsSafe(s, Ingest(p, env, newId, true));
  }

  /** Both workers load, then take the lease, then ingest, then release, as `event_worker.main` does. */
  const CODE_ORDER: seq<Action> := [
    Load(1), Acquire(1), Ingest(1, Item(0), 7, true),
    Load(2), Ingest(1, Item(1), 8, true), Release(1),
    Acquire(2), Ingest(2, Item(2), 9, true)]

  ghost predicate StepAt(states: seq<System>, actions: seq<Action>, i: nat)
    requires i < |actions| && |states| == |actions| + 1
  {
    AllFiled(states[i]) && states[i + 1] == Next(states[i], actions[i])
  }

  ghost predicate IsRun(states: seq<System>, actions: seq<Action>) {
    && |states| == |actions| + 1
    && states[0] == INITIAL
    && forall i :: 0 <= i < |actions| ==> StepAt(states, actions, i)
  }

  lemma {:induction false} StepOf(states: seq<System>, i: nat, action: Action)
    requires IsRun(states, CODE_ORDER) && i < |CODE_ORDER| && CODE_ORDER[i] == action
    ensures AllFiled(states[i]) && states[i + 1] == Next(states[i], action)
  {
    assert StepAt(states, CODE_ORDER, i);
  }

  lemma {:induction false} LoadedAndLeased(s: System)
    requires Safe(s) && AllFiled(s) && s.lease == None
    ensures var loaded := Next(s, Load(1));
            && AllFiled(loaded) && Safe(loaded) && loaded.log == s.log && loaded.lease == None
            && var r := Next(loaded, Acquire(1)); Safe(r) && r.log == s.log && r.lease == Some(Lease(1, true))
  {
    StepIsSafe(s, Load(1));
    StepIsSafe(Next(s, Load(1)), Acquire(1));
  }

  /** Worker 1 loads and takes the lease. */
  lemma {:induction false} FirstLease(states: seq<System>)
    requires IsRun(states, CODE_ORDER)
    ensures Safe(states[2]) && states[2].log == [] && states[2].lease == Some(Lease(1, true))
  {
    assert TablesOf([]) == EMPTY_TABLES;
    StepOf(states, 0, Load(1));
    StepOf(states, 1, Acquire(1));
    LoadedAndLeased(INITIAL);
  }

  lemma {:induction false} FirstIngest(s: System)
    requires Safe(s) && AllFiled(s) && s.log == [] && s.lease == Some(Lease(1, true))
    ensures var r := Next(s, Ingest(1, Item(0), 7, true));
            Safe(r) && r.log == OVERLAPPING_LOG[..1] && r.lease == s.lease
  {
    FollowsNothing();
    IndexOfOne();
    assert [] + [Entry(Item(0), FIRST)] == [Entry(Item(0), FIRST)];
    CurrentIngestCommits(s, 1, Item(0), 7, FIRST);
  }

  lemma {:induction false} OtherLoads(s: System)
    requires Safe(s) && AllFiled(s) && s.lease == Some(Lease(1, true))
    ensures var r := Next(s, Load(2));
            Safe(r) && r.log == s.log && r.lease == s.lease && 2 in r.processes && r.processes[2].seen == |s.log|
  {
    StepIsSafe(s, Load(2));
  }

  /** Worker 1 commits the first item. */
  lemma {:induction false} FirstCommit(states: seq<System>)
    requires IsRun(states, CODE_ORDER)
    ensures Safe(states[3]) && states[3].log == OVERLAPPING_LOG[..1] && states[3].lease == Some(Lease(1, true))
  {
    FirstLease(states);
    StepOf(states, 2, Ingest(1, Item(0), 7, true));
    FirstIngest(states[2]);
  }

  /** Worker 2 loads. */
  lemma {:induction false} SecondLoad(states: seq<System>)
    requires IsRun(states, CODE_ORDER)
    ensures var s := states[4];
            && Safe(s) && s.log == OVERLAPPING_LOG[..1] && s.lease == Some(Lease(1, true))
            && 2 in s.processes && s.processes[2].seen == 1
  {
    FirstCommit(states);
    StepOf(states, 3, Load(2));
    OtherLoads(states[3]);
    assert |OVERLAPPING_LOG[..1]| == 1;
  }

  lemma {:induction false} SecondIsAdmitted()
    ensures UniqueIndexesHold(TablesOf(OVERLAPPING_LOG[..1]).rawItems, Item(1))
  {
    IndexOfOne();
    IndexesAdmit(1, TablesOf(OVERLAPPING_LOG[..1]).rawItems);
  }

  /** Worker 1 commits the second item. */
  lemma {:induction false} SecondIngest(s: System)
    requires Safe(s) && AllFiled(s) && s.log == OVERLAPPING_LOG[..1] && s.lease == Some(Lease(1, true))
    ensures var r := Next(s, Ingest(1, Item(1), 8, true));
            && Safe(r) && r.log == s.log + [Entry(Item(1), Extend(FIRST, Item(1)))] && r.lease == s.lease
            && (2 in s.processes ==> 2 in r.processes && r.processes[2] == s.processes[2])
  {
    FollowsFirst(1);
    SecondIsAdmitted();
    CurrentIngestCommits(s, 1, Item(1), 8, Extend(FIRST, Item(1)));
  }

  lemma {:induction false} LogOfTwo()
    ensures OVERLAPPING_LOG == OVERLAPPING_LOG[..1] + [Entry(Item(1), Extend(FIRST, Item(1)))]
  {
  }

  lemma {:induction false} SecondCommit(states: seq<System>)
    requires IsRun(states, CODE_ORDER)
    ensures var s := states[5];
            && Safe(s) && s.log == OVERLAPPING_LOG && s.lease == Some(Lease(1, true))
            && 2 in s.processes && s.processes[2].seen == 1
  {
    SecondLoad(states);
    StepOf(states, 4, Ingest(1, Item(1), 8, true));
    SecondIngest(states[4]);
    LogOfTwo();
  }

  /** Worker 1 releases the lease. */
  lemma {:induction false} LeaseReleased(states: seq<System>)
    requires IsRun(states, CODE_ORDER)
    ensures var s := states[6];
            && Safe(s) && s.log == OVERLAPPING_LOG && s.lease == None
            && 2 in s.processes && s.processes[2].seen == 1
  {
    SecondCommit(states);
    StepOf(states, 5, Release(1));
    StepIsSafe(states[5], Release(1));
  }

  lemma {:induction false} ThirdItemIsSaved()
    ensures Save(TablesOf(OVERLAPPING_LOG), Item(2), Extend(FIRST, Item(2)), true)
            == Ok(Saved(OVERLAPPING_LOG, Entry(Item(2), Extend(FIRST, Item(2)))))
  {
    StaleSnapshotRewritesHistory();
    IndexesAdmit(2, TablesOf(OVERLAPPING_LOG).rawItems);
    StaleSaveSucceeds(OVERLAPPING_LOG, OVERLAPPING_LOG[..1], Entry(Item(2), Extend(FIRST, Item(2))));
  }

  lemma {:induction false} LateIngest(s: System)
    requires AllFiled(s) && Owns(s, 2) && 2 in s.processes && s.tables == TablesOf(OVERLAPPING_LOG)
    requires SameIndexes(s.processes[2].memory, Index(OVERLAPPING_LOG[..1]))
    ensures Next(s, Ingest(2, Item(2), 9, true)).tables == Saved(OVERLAPPING_LOG, Entry(Item(2), Extend(FIRST, Item(2))))
  {
    FollowsFirst(2);
    SameIndexesSameDecision(s.processes[2].memory, Index(OVERLAPPING_LOG[..1]), Item(2), 9);
    ThirdItemIsSaved();
    IngestSaves(s, 2, Item(2), 9, Extend(FIRST, Item(2)), Saved(OVERLAPPING_LOG, Entry(Item(2), Extend(FIRST, Item(2)))));
  }

  lemma {:induction false} LateLease(s: System)
    requires Safe(s) && AllFiled(s) && s.log == OVERLAPPING_LOG && s.lease == None
    requires 2 in s.processes && s.processes[2].seen == 1
    ensures var r := Next(s, Acquire(2));
            && Owns(r, 2) && 2 in r.processes && r.tables == TablesOf(OVERLAPPING_LOG)
            && SameIndexes(r.processes[2].memory, Index(OVERLAPPING_LOG[..1]))
  {
    assert ProcessOk(s.processes[2], s.log);
  }

  /** Worker 2 takes the lease with its old snapshot and saves the third item. */
  lemma {:induction false} LateCommit(states: seq<System>)
    requires IsRun(states, CODE_ORDER)
    ensures states[8].tables == Saved(OVERLAPPING_LOG, Entry(Item(2), Extend(FIRST, Item(2))))
  {
    LeaseReleased(states);
    StepOf(states, 6, Acquire(2));
    LateLease(states[6]);
    StepOf(states, 7, Ingest(2, Item(2), 9, true));
    LateIngest(states[7]);
  }

  /**
   * The order of steps of the code is not safe: in this run worker 2 gets the lease, and its ingest
   * changes what version 2 of event 7 is.
   */
  lemma {:induction false} LoadBeforeLeaseRewritesHistory(states: seq<System>)
    requires IsRun(states, CODE_ORDER)
    ensures LoadEventVersion(states[6].tables, 7, 2).Some?
    ensures LoadEventVersion(states[8].tables, 7, 2) != LoadEventVersion(states[6].tables, 7, 2)
  {
    LeaseReleased(states);
    LateCommit(states);
    StaleSnapshotRewritesHistory();
    TimeTravel(OVERLAPPING_LOG, 7, 2);
  }

  /** There is such a run. */
  lemma {:induction false} CodeOrderRuns() returns (states: seq<System>)
    ensures IsRun(states, CODE_ORDER)
  {
    states := seq(9, i requires 0 <= i < 9 => After(CODE_ORDER[..i]));
    forall i | 0 <= i < |CODE_ORDER|
      ensures StepAt(states, CODE_ORDER, i)
    {
      assert CODE_ORDER[..i + 1][..i] == CODE_ORDER[..i];
    }
  }
}
