/** A persistent service and its restarts: after any run of `ingest` calls the rows hold what the memory holds. */
module EventRestart {
  import opened Common
  import opened Contracts
  import opened EventClustering
  import opened EventLog
  import opened EventTables
  import opened EventReplay
  import opened EventIngest
  import opened EventReload

  /** One call of `ingest`; `available` says whether the database would take the rows. */
  datatype Call = Call(env: RawEnvelope, available: bool)

  /** The service after the calls; a call that raises is caught by the caller, who goes on. */
  ghost function AfterCalls(calls: seq<Call>, ids: IdSupply): FiledStore {
    if calls == [] then Store(EMPTY_MEMORY, Some(EMPTY_TABLES))
    else
      var n := |calls| - 1;
      IngestInto(AfterCalls(calls[..n], ids), calls[n].env, ids, calls[n].available).0
  }

  /** A service that holds the index of a log, over the tables of that log. */
  ghost function Holding(log: Log): FiledStore {
    Store(Index(log), Some(TablesOf(log)))
  }

  /** The log is reachable, its event ids come from the supply, and its items from the calls. */
  ghost predicate LogOf(log: Log, calls: seq<Call>, ids: IdSupply) {
    && Reachable(log)
    && Supplied(Index(log).events.Keys, ids)
    && forall e :: e in log ==> exists i :: 0 <= i < |calls| && calls[i].env == e.env
  }

  /** A raw item id names one item. */
  ghost predicate CallsNameItems(calls: seq<Call>) {
    forall i, j :: 0 <= i < |calls| && 0 <= j < |calls| && calls[i].env.id == calls[j].env.id ==>
      KeyOf(calls[i].env) == KeyOf(calls[j].env)
  }

  /** A save that goes through makes the log one commit longer, in memory and in the tables alike. */
  lemma {:induction false} SavedCall(log: Log, env: RawEnvelope, ids: IdSupply)
    requires Reachable(log) && Follows(log, Commit(log, env, ids))
    requires UniqueIndexesHold(TablesOf(log).rawItems, env)
    ensures IngestNew(Holding(log), env, ids(|Index(log).events|), true).0 == Holding(log + [Commit(log, env, ids)])
  {
    ReachableIsGrown(log);
    SaveAppends(log, Commit(log, env, ids));
    Append(log, Commit(log, env, ids));
  }

  /** A save that raises leaves memory and tables as they were. */
  lemma {:induction false} RaisingCall(log: Log, env: RawEnvelope, newId: EventId, available: bool)
    requires !available || !UniqueIndexesHold(TablesOf(log).rawItems, env)
    ensures IngestNew(Holding(log), env, newId, available).0 == Holding(log)
    ensures IngestNew(Holding(log), env, newId, available).1.Err?
  {
  }

  lemma {:induction false} KnownCall(log: Log, env: RawEnvelope, ids: IdSupply, available: bool)
    requires Known(log, KeyOf(env))
    ensures IngestInto(Holding(log), env, ids, available).0 == Holding(log)
  {
  }

  lemma {:induction false} UnknownCall(log: Log, env: RawEnvelope, ids: IdSupply, available: bool)
    requires !Known(log, KeyOf(env))
    ensures IngestInto(Holding(log), env, ids, available) == IngestNew(Holding(log), env, ids(|Index(log).events|), available)
  {
  }

  /** An item of the calls whose key is unknown to the log is not in the log. */
  lemma {:induction false} UnknownItem(log: Log, calls: seq<Call>, last: Call, ids: IdSupply)
    requires LogOf(log, calls, ids) && CallsNameItems(calls + [last]) && !Known(log, KeyOf(last.env))
    ensures forall e :: e in log ==> e.env.id != last.env.id
  {
    var all := calls + [last];
    forall e | e in log
      ensures e.env.id != last.env.id
    {
      var i :| 0 <= i < |calls| && calls[i].env == e.env;
      assert all[i] == calls[i] && all[|calls|] == last;
      KeysAreAScan(log, KeyOf(e.env));
    }
  }

  lemma {:induction false} MoreCalls(log: Log, calls: seq<Call>, last: Call, ids: IdSupply)
    requires LogOf(log, calls, ids)
    ensures LogOf(log, calls + [last], ids)
  {
    forall e | e in log
      ensures exists i :: 0 <= i < |calls + [last]| && (calls + [last])[i].env == e.env
    {
      var i :| 0 <= i < |calls| && calls[i].env == e.env;
      assert (calls + [last])[i].env == e.env;
    }
  }

  lemma {:induction false} CommittedCall(log: Log, calls: seq<Call>, last: Call, ids: IdSupply)
    requires LogOf(log, calls, ids) && Injective(ids) && !Known(log, KeyOf(last.env))
    requires forall e :: e in log ==> e.env.id != last.env.id
    ensures LogOf(log + [Commit(log, last.env, ids)], calls + [last], ids)
  {
    PassStep(log, last.env, ids);
    MoreCalls(log, calls, last, ids);
    assert (calls + [last])[|calls|] == last;
  }

  lemma {:induction false} NextCall(log: Log, calls: seq<Call>, last: Call, ids: IdSupply) returns (longer: Log)
    requires LogOf(log, calls, ids) && Injective(ids) && CallsNameItems(calls + [last])
    ensures IngestInto(Holding(log), last.env, ids, last.available).0 == Holding(longer)
    ensures LogOf(longer, calls + [last], ids)
  {
    longer := log;
    MoreCalls(log, calls, last, ids);
    if Known(log, KeyOf(last.env)) {
      KnownCall(log, last.env, ids, last.available);
    } else {
      UnknownCall(log, last.env, ids, last.available);
      if last.available && UniqueIndexesHold(TablesOf(log).rawItems, last.env) {
        UnknownItem(log, calls, last, ids);
        CommitFollows(log, last.env, ids);
        SavedCall(log, last.env, ids);
        CommittedCall(log, calls, last, ids);
        longer := log + [Commit(log, last.env, ids)];
      } else {
        RaisingCall(log, last.env, ids(|Index(log).events|), last.available);
      }
    }
  }

  /** Whatever the items and however many saves raise, memory and tables are those of one reachable log. */
  lemma {:induction false} CallsLeaveALog(calls: seq<Call>, ids: IdSupply) returns (log: Log)
    requires Injective(ids) && CallsNameItems(calls)
    ensures AfterCalls(calls, ids) == Holding(log) && LogOf(log, calls, ids)
  {
    if calls == [] {
      log := [];
      assert TablesOf([]) == EMPTY_TABLES;
    } else {
      var init, last := calls[..|calls| - 1], calls[|calls| - 1];
      assert calls == init + [last];
      var before := CallsLeaveALog(init, ids);
      log := NextCall(before, init, last, ids);
    }
  }

  /**
   * Restart after any run. A service built on the rows has the same events, identities and content
   * hashes as the service that wrote them, and answers every version read as that service does from
   * its memory: the versions it has seen, exactly as ingested, and None for all others.
   */
  lemma {:induction false} RestartAfterAnyRun(calls: seq<Call>, ids: IdSupply, id: EventId, v: nat)
    requires Injective(ids) && CallsNameItems(calls)
    ensures var s := AfterCalls(calls, ids);
            && s.rows.Some?
            && var restarted, versions := Rebuild(LoadState(s.rows.value)), s.memory.versions;
            && restarted.events == s.memory.events
            && restarted.byIdentity == s.memory.byIdentity
            && restarted.byContentHash == s.memory.byContentHash
            && LoadEventVersion(s.rows.value, id, v) == (if (id, v) in versions then Some(versions[(id, v)]) else None)
            && ((id, v) in restarted.versions ==> (id, v) in versions && restarted.versions[(id, v)] == versions[(id, v)])
  {
    var log := CallsLeaveALog(calls, ids);
    ReachableIsGrown(log);
    RefreshRefinesIngest(log);
    TimeTravel(log, id, v);
    VersionsAreTheLog(log, id, v);
    if id in Index(log).events && Index(log).events[id].eventVersion == v {
      LatestIsCommitted(log, id, v);
    }
  }

  /**
   * Restart in any row order. If the database returns the rows of each table in some other order, the
   * restarted service still has the same identities and content hashes, and its events and version reads
   * are those of the writer but for the order of mentions received at one instant.
   */
  lemma {:induction false} RestartInAnyRowOrder(calls: seq<Call>, ids: IdSupply, t: Tables, id: EventId, v: nat)
    requires Injective(ids) && CallsNameItems(calls)
    requires AfterCalls(calls, ids).rows.Some? && SameRows(t, AfterCalls(calls, ids).rows.value)
    ensures var s, restarted, answer := AfterCalls(calls, ids), Rebuild(LoadState(t)), LoadEventVersion(t, id, v);
            && restarted.byIdentity == s.memory.byIdentity
            && restarted.byContentHash == s.memory.byContentHash
            && restarted.events.Keys == s.memory.events.Keys
            && (id in restarted.events ==> SameUpToTies(restarted.events[id], s.memory.events[id]))
            && (answer.Some? <==> (id, v) in s.memory.versions)
            && (answer.Some? ==> SameUpToTies(answer.value, s.memory.versions[(id, v)]))
  {
    var log := CallsLeaveALog(calls, ids);
    ReachableIsGrown(log);
    ReloadOnlyMovesTies(log, t);
    TimeTravelInAnyOrder(log, t, id, v);
    VersionsAreTheLog(log, id, v);
  }

  lemma {:induction false} LatestIsCommitted(log: Log, id: EventId, v: nat)
    requires Grown(log) && id in Index(log).events && Index(log).events[id].eventVersion == v
    ensures Committed(log, id, v) == Some(Index(log).events[id])
  {
    History(log, id);
    VersionFacts(EntriesOf(log, id), id, |EntriesOf(log, id)| - 1);
  }
}
