/**
 * Event workers and API readers as processes over one database: every interleaving of loads, lease
 * acquisitions, ingests, releases and version reads.
 */
module EventProcesses {
  import opened Common
  import opened Contracts
  import opened EventClustering
  import opened EventLog
  import opened EventTables

  type ProcessId = nat

  /** `seen` counts the commits that the memory of the process reflects. */
  datatype Process = Process(memory: Memory, seen: nat)

  /** `current` says that no commit of another process lies between the owner's load and its lease. */
  datatype Lease = Lease(owner: ProcessId, current: bool)

  /** The database, its advisory lock, the live services, and the history of commits. */
  datatype System = System(tables: Tables, lease: Option<Lease>, processes: map<ProcessId, Process>, log: Log)

  const INITIAL := System(EMPTY_TABLES, None, map[], [])

  datatype Action =
    | Load(p: ProcessId)
    | Acquire(p: ProcessId)
    | Ingest(p: ProcessId, env: RawEnvelope, newId: EventId, available: bool)
    | Release(p: ProcessId)
    | Read(p: ProcessId, id: EventId, v: nat)

  ghost predicate AllFiled(s: System) {
    forall p :: p in s.processes ==> Filed(s.processes[p].memory.events)
  }

  predicate Owns(s: System, p: ProcessId) {
    s.lease.Some? && s.lease.value.owner == p
  }

  /** The indexes that decide what `ingest` does; `_versions` is only a cache for readers. */
  ghost predicate SameIndexes(a: Memory, b: Memory) {
    a.events == b.events && a.byIdentity == b.byIdentity && a.byContentHash == b.byContentHash
  }

  ghost function IngestStep(s: System, p: ProcessId, env: RawEnvelope, newId: EventId, available: bool): (r: System)
    requires AllFiled(s) && p in s.processes
    ensures AllFiled(r)
  {
    var mem := s.processes[p].memory;
    if KeyOf(env) in mem.byIdentity then s
    else
      var event := Decide(mem, env, newId);
      match Save(s.tables, env, event, available)
      case Err(_) => s
      case Ok(tables) =>
        System(tables, s.lease, s.processes[p := Process(Record(mem, env, event), |s.log| + 1)], s.log + [Entry(env, event)])
  }

  /** What a reader is told when it asks for a version. */
  function Answer(tables: Tables, mem: Memory, id: EventId, v: nat): Option<CanonicalEvent> {
    if (id, v) in mem.versions then Some(mem.versions[(id, v)]) else LoadEventVersion(tables, id, v)
  }

  function Remember(mem: Memory, id: EventId, v: nat, answer: Option<CanonicalEvent>): Memory {
    if answer.Some? then mem.(versions := mem.versions[(id, v) := answer.value]) else mem
  }

  /** One step; an action that is not enabled changes nothing. */
  ghost function Next(s: System, a: Action): (r: System)
    requires AllFiled(s)
    ensures AllFiled(r)
  {
    match a
    case Load(p) =>
      var memory := Rebuild(LoadState(s.tables));
      System(
        s.tables,
        if Owns(s, p) then Some(Lease(p, true)) else s.lease,
        s.processes[p := Process(memory, |s.log|)],
        s.log)
    case Acquire(p) =>
      if s.lease.Some? then s
      else s.(lease := Some(Lease(p, p in s.processes && s.processes[p].seen == |s.log|)))
    case Release(p) =>
      if Owns(s, p) then s.(lease := None) else s
    case Ingest(p, env, newId, available) =>
      if Owns(s, p) && p in s.processes then IngestStep(s, p, env, newId, available) else s
    case Read(p, id, v) =>
      if p in s.processes then
        var process := s.processes[p];
        var answer := Answer(s.tables, process.memory, id, v);
        s.(processes := s.processes[p := process.(memory := Remember(process.memory, id, v, answer))])
      else s
  }

  /**
   * What the theorem asks of a run: a worker ingests only if its load lies inside its lease or no
   * commit came between the two, new event ids are unused, and a raw item id names one item.
   */
  ghost predicate Disciplined(s: System, a: Action) {
    a.Ingest? && Owns(s, a.p) ==>
      && s.lease.value.current
      && a.newId !in Index(s.log).events
      && forall e :: e in s.log && e.env.id == a.env.id ==> KeyOf(e.env) == KeyOf(a.env)
  }

  // ---- what every interleaving keeps ----

  ghost predicate CacheOk(mem: Memory, log: Log) {
    forall id, v :: (id, v) in mem.versions ==> Committed(log, id, v) == Some(mem.versions[(id, v)])
  }

  ghost predicate ProcessOk(process: Process, log: Log) {
    && process.seen <= |log|
    && SameIndexes(process.memory, Index(log[..process.seen]))
    && CacheOk(process.memory, log)
  }

  ghost predicate Safe(s: System) {
    && Reachable(s.log)
    && s.tables == TablesOf(s.log)
    && (forall p :: p in s.processes ==> ProcessOk(s.processes[p], s.log))
    && (s.lease.Some? && s.lease.value.current ==>
         s.lease.value.owner in s.processes && s.processes[s.lease.value.owner].seen == |s.log|)
  }

  lemma {:induction false} SafeIsFiled(s: System)
    requires Safe(s)
    ensures AllFiled(s)
  {
    forall p | p in s.processes
      ensures Filed(s.processes[p].memory.events)
    {
      assert ProcessOk(s.processes[p], s.log);
    }
  }

  lemma {:induction false} LoadIsOk(log: Log)
    requires Reachable(log)
    ensures ProcessOk(Process(Rebuild(LoadState(TablesOf(log))), |log|), log)
  {
    ReachableIsGrown(log);
    RefreshRefinesIngest(log);
    assert log[..|log|] == log;
    var mem := Rebuild(LoadState(TablesOf(log)));
    forall id, v | (id, v) in mem.versions
      ensures Committed(log, id, v) == Some(mem.versions[(id, v)])
    {
      History(log, id);
      VersionFacts(EntriesOf(log, id), id, |EntriesOf(log, id)| - 1);
    }
  }

  /** A commit of one process leaves every other process a correct reader of an older prefix. */
  lemma {:induction false} OthersStayOk(process: Process, log: Log, entry: Entry)
    requires ProcessOk(process, log)
    ensures ProcessOk(process, log + [entry])
  {
    var longer := log + [entry];
    assert longer[..process.seen] == log[..process.seen];
    assert longer[..|log|] == log;
    forall id, v | (id, v) in process.memory.versions
      ensures Committed(longer, id, v) == Some(process.memory.versions[(id, v)])
    {
      CommittedIsForever(longer, |log|, id, v);
    }
  }

  lemma {:induction false} CommittedNow(log: Log, entry: Entry)
    requires Reachable(log) && Follows(log, entry)
    ensures Committed(log + [entry], entry.event.eventId, entry.event.eventVersion) == Some(entry.event)
  {
    var longer, id := log + [entry], entry.event.eventId;
    Append(log, entry);
    AppendIsReachable(log, entry);
    ReachableIsGrown(longer);
    History(longer, id);
    VersionFacts(EntriesOf(longer, id), id, |EntriesOf(log, id)|);
  }

  lemma {:induction false} RecordKeepsCache(mem: Memory, log: Log, entry: Entry)
    requires CacheOk(mem, log)
    requires Committed(log, entry.event.eventId, entry.event.eventVersion) == Some(entry.event)
    ensures CacheOk(Record(mem, entry.env, entry.event), log)
  {
  }

  lemma {:induction false} RecordKeepsIndexes(mem: Memory, log: Log, entry: Entry)
    requires SameIndexes(mem, Index(log))
    ensures SameIndexes(Record(mem, entry.env, entry.event), Index(log + [entry]))
  {
    Append(log, entry);
  }

  lemma {:induction false} CommitterStaysOk(mem: Memory, log: Log, entry: Entry)
    requires Reachable(log) && Follows(log, entry)
    requires ProcessOk(Process(mem, |log|), log)
    ensures ProcessOk(Process(Record(mem, entry.env, entry.event), |log| + 1), log + [entry])
  {
    OthersStayOk(Process(mem, |log|), log, entry);
    CommittedNow(log, entry);
    RecordKeepsCache(mem, log + [entry], entry);
    assert log[..|log|] == log && (log + [entry])[..|log| + 1] == log + [entry];
    RecordKeepsIndexes(mem, log, entry);
  }

  lemma {:induction false} SameIndexesSameDecision(a: Memory, b: Memory, env: RawEnvelope, newId: EventId)
    requires Filed(a.events) && SameIndexes(a, b)
    ensures Decide(a, env, newId) == Decide(b, env, newId)
  {
    SameIndexesSameChoice(a, b, env);
  }

  /** The owner of a current lease decides exactly what an up-to-date service would. */
  lemma {:induction false} OwnerFollows(mem: Memory, log: Log, env: RawEnvelope, newId: EventId)
    requires Filed(mem.events) && SameIndexes(mem, Index(log)) && KeyOf(env) !in mem.byIdentity
    requires newId !in Index(log).events
    requires forall e :: e in log ==> e.env.id != env.id
    ensures Follows(log, Entry(env, Decide(mem, env, newId)))
  {
    SameIndexesSameChoice(mem, Index(log), env);
    var similar := SimilarEvent(mem, env);
    assert similar.Some? ==> similar.value in Candidates(mem, env);
  }

  lemma {:induction false} UnknownKeyIsFreshItem(log: Log, env: RawEnvelope)
    requires KeyOf(env) !in Index(log).byIdentity
    requires forall e :: e in log && e.env.id == env.id ==> KeyOf(e.env) == KeyOf(env)
    ensures forall e :: e in log ==> e.env.id != env.id
  {
    KeysAreAScan(log, KeyOf(env));
  }

  lemma {:induction false} CommitIsSafe(s: System, p: ProcessId, entry: Entry, after: System)
    requires Safe(s) && Owns(s, p) && p in s.processes && s.processes[p].seen == |s.log|
    requires Follows(s.log, entry)
    requires after == System(
                        TablesOf(s.log + [entry]), s.lease,
                        s.processes[p := Process(Record(s.processes[p].memory, entry.env, entry.event), |s.log| + 1)],
                        s.log + [entry])
    ensures Safe(after)
  {
    AppendIsReachable(s.log, entry);
    assert ProcessOk(s.processes[p], s.log);
    CommitterStaysOk(s.processes[p].memory, s.log, entry);
    forall q | q in after.processes
      ensures ProcessOk(after.processes[q], after.log)
    {
      if q != p {
        OthersStayOk(s.processes[q], s.log, entry);
      }
    }
  }

  lemma {:induction false} IngestIsSafe(s: System, p: ProcessId, env: RawEnvelope, newId: EventId, available: bool)
    requires Safe(s) && AllFiled(s) && Owns(s, p) && p in s.processes
    requires Disciplined(s, Ingest(p, env, newId, available))
    ensures Safe(IngestStep(s, p, env, newId, available))
  {
    var mem := s.processes[p].memory;
    var after := IngestStep(s, p, env, newId, available);
    assert ProcessOk(s.processes[p], s.log) && s.log[..|s.log|] == s.log;
    if KeyOf(env) !in mem.byIdentity && after != s {
      var entry := Entry(env, Decide(mem, env, newId));
      UnknownKeyIsFreshItem(s.log, env);
      OwnerFollows(mem, s.log, env, newId);
      ReachableIsGrown(s.log);
      SaveAppends(s.log, entry);
      CommitIsSafe(s, p, entry, after);
    }
  }

  lemma {:induction false} ReadIsSafe(s: System, p: ProcessId, id: EventId, v: nat)
    requires Safe(s) && p in s.processes
    ensures AllFiled(s) && Safe(Next(s, Read(p, id, v)))
    ensures Answer(s.tables, s.processes[p].memory, id, v) == Committed(s.log, id, v)
  {
    SafeIsFiled(s);
    assert ProcessOk(s.processes[p], s.log);
    ReachableIsGrown(s.log);
    TimeTravel(s.log, id, v);
  }

  lemma {:induction false} LoadIsSafe(s: System, p: ProcessId)
    requires Safe(s) && AllFiled(s)
    ensures Safe(Next(s, Load(p)))
  {
    LoadIsOk(s.log);
  }

  /** No disciplined step, in any interleaving, breaks safety. */
  lemma {:induction false} StepIsSafe(s: System, a: Action)
    requires Safe(s) && Disciplined(s, a)
    ensures AllFiled(s) && Safe(Next(s, a))
    ensures s.log <= Next(s, a).log
  {
    SafeIsFiled(s);
    match a
    case Load(p) => LoadIsSafe(s, p);
    case Acquire(p) =>
    case Release(p) =>
    case Ingest(p, env, newId, available) =>
      if Owns(s, p) && p in s.processes {
        IngestIsSafe(s, p, env, newId, available);
      }
    case Read(p, id, v) =>
      if p in s.processes {
        ReadIsSafe(s, p, id, v);
      }
  }

  /** The state that a run of actions leads to. */
  ghost function After(actions: seq<Action>): (s: System)
    ensures AllFiled(s)
  {
    if actions == [] then INITIAL else Next(After(actions[..|actions| - 1]), actions[|actions| - 1])
  }

  ghost predicate DisciplinedRun(actions: seq<Action>) {
    forall i :: 0 <= i < |actions| ==> Disciplined(After(actions[..i]), actions[i])
  }

  lemma {:induction false} AfterOneMore(actions: seq<Action>, k: nat)
    requires k < |actions|
    ensures After(actions[..k + 1]) == Next(After(actions[..k]), actions[k])
  {
    assert actions[..k + 1][..k] == actions[..k];
  }

  lemma {:induction false} PrefixIsDisciplined(actions: seq<Action>, n: nat)
    requires DisciplinedRun(actions) && n <= |actions|
    ensures DisciplinedRun(actions[..n])
  {
    assert forall j :: 0 <= j < n ==> actions[..n][..j] == actions[..j];
  }

  lemma {:induction false} RunIsSafe(actions: seq<Action>, i: nat)
    requires DisciplinedRun(actions) && i <= |actions|
    ensures Safe(After(actions)) && After(actions[..i]).log <= After(actions).log
  {
    if actions == [] {
      assert TablesOf([]) == EMPTY_TABLES;
    } else {
      var n := |actions| - 1;
      PrefixIsDisciplined(actions, n);
      assert actions[..n + 1] == actions;
      AfterOneMore(actions, n);
      RunIsSafe(actions[..n], if i <= n then i else n);
      StepIsSafe(After(actions[..n]), actions[n]);
      if i <= n {
        assert actions[..n][..i] == actions[..i];
      } else {
        assert actions[..i] == actions;
      }
    }
  }

  lemma {:induction false} PrefixRunIsSafe(actions: seq<Action>, i: nat)
    requires DisciplinedRun(actions) && i <= |actions|
    ensures Safe(After(actions[..i]))
  {
    assert forall j :: 0 <= j < i ==> actions[..i][..j] == actions[..j];
    RunIsSafe(actions[..i], i);
  }

  /**
   * Multi-process safety. At any time of any run a reader that asks for version `v` is told exactly
   * the event committed as `v`, or None if there is none yet; and what it is told at time `i` any
   * reader is told at the end.
   */
  lemma {:induction false} ReadersGetTheCommitted(
      actions: seq<Action>, i: nat, p: ProcessId, q: ProcessId, id: EventId, v: nat)
    requires DisciplinedRun(actions) && i <= |actions|
    requires p in After(actions[..i]).processes && q in After(actions).processes
    ensures var earlier, now := After(actions[..i]), After(actions);
            var early := Answer(earlier.tables, earlier.processes[p].memory, id, v);
            var late := Answer(now.tables, now.processes[q].memory, id, v);
            && early == Committed(earlier.log, id, v)
            && late == Committed(now.log, id, v)
            && (early.Some? ==> late == early)
  {
    PrefixRunIsSafe(actions, i);
    RunIsSafe(actions, i);
    var earlier, now := After(actions[..i]), After(actions);
    ReadIsSafe(earlier, p, id, v);
    ReadIsSafe(now, q, id, v);
    CommittedIsForever(now.log, |earlier.log|, id, v);
    assert now.log[..|earlier.log|] == earlier.log;
  }

  /** After every run each event owns exactly the version rows 1..n, each once. */
  lemma {:induction false} VersionsAreWrittenOnce(actions: seq<Action>, id: EventId)
    requires DisciplinedRun(actions)
    ensures var rows := After(actions).tables.eventRows;
            && (forall a, b :: 0 <= a < b < |rows| ==> !SameVersionKey(rows[a], rows[b]))
            && (forall v: nat :: FindVersion(rows, id, v).Some? <==> 1 <= v <= |EntriesOf(After(actions).log, id)|)
  {
    RunIsSafe(actions, 0);
    var log, rows := After(actions).log, After(actions).tables.eventRows;
    forall a, b | 0 <= a < b < |rows|
      ensures !SameVersionKey(rows[a], rows[b])
    {
      PrefixIsReachable(log, b);
      ReachableIsGrown(log[..b]);
      assert CommitOk(log, b);
      VersionIsNew(log[..b], log[b], a);
    }
    forall v: nat
      ensures FindVersion(rows, id, v).Some? <==> 1 <= v <= |EntriesOf(log, id)|
    {
      ReachableIsGrown(log);
      FindVersionInLog(log, id, v);
    }
  }

  // ---- the lease ----

  /** Only the owner of the lease commits, and the lease goes only when its owner releases it. */
  lemma {:induction false} LeaseIsKept(s: System, a: Action, p: ProcessId)
    requires AllFiled(s)
    ensures Next(s, a).log != s.log ==> a.Ingest? && Owns(s, a.p)
    ensures Owns(s, p) && a != Release(p) ==> Owns(Next(s, a), p)
    ensures Owns(Next(s, a), p) && !Owns(s, p) ==> a == Acquire(p) && s.lease.None?
  {
  }

  /** From the time a process has the lease to its release, nobody else has it. */
  lemma {:induction false} OwnerStays(actions: seq<Action>, i: nat, j: nat, p: ProcessId)
    requires i <= j <= |actions| && Owns(After(actions[..i]), p)
    requires forall k :: i <= k < j ==> actions[k] != Release(p)
    ensures Owns(After(actions[..j]), p)
  {
    if i < j {
      var k := j - 1;
      OwnerStays(actions, i, k, p);
      LeaseIsKept(After(actions[..k]), actions[k], p);
      AfterOneMore(actions, k);
      assert j == k + 1;
    }
  }

  /** Mutual exclusion: as long as a process has not released the lease it has, every commit is its own. */
  lemma {:induction false} LeaseIsExclusive(actions: seq<Action>, i: nat, j: nat, p: ProcessId)
    requires i <= j < |actions| && Owns(After(actions[..i]), p)
    requires forall k :: i <= k < j ==> actions[k] != Release(p)
    ensures Owns(After(actions[..j]), p)
    ensures After(actions[..j + 1]).log != After(actions[..j]).log ==> actions[j].Ingest? && actions[j].p == p
  {
    OwnerStays(actions, i, j, p);
    AfterOneMore(actions, j);
    LeaseIsKept(After(actions[..j]), actions[j], p);
  }
}
