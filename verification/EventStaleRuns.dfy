/**
 * Whole runs of the processes of `EventProcesses` in any order of steps: workers may load before their
 * lease, ingest many items from what they then know, and lose the lease in between.
 */
module EventStaleRuns {
  import opened Common
  import opened Contracts
  import opened EventClustering
  import opened EventLog
  import opened EventTables
  import opened EventProcesses
  import opened EventStaleWriters

  // ---- what a step saves ----

  /** The step is an ingest whose save goes through. */
  ghost predicate Saves(s: System, a: Action)
    requires AllFiled(s)
  {
    && a.Ingest? && Owns(s, a.p) && a.p in s.processes
    && KeyOf(a.env) !in s.processes[a.p].memory.byIdentity
    && Save(s.tables, a.env, Decide(s.processes[a.p].memory, a.env, a.newId), a.available).Ok?
  }

  /** What it saves. */
  ghost function SavedEntry(s: System, a: Action): Entry
    requires AllFiled(s) && Saves(s, a)
  {
    Entry(a.env, Decide(s.processes[a.p].memory, a.env, a.newId))
  }

  /** Every saved item has a raw id of its own, as envelopes have. */
  ghost predicate BringsNewItem(s: System, a: Action) {
    AllFiled(s) && Saves(s, a) ==> ItemIsNew(s.log, SavedEntry(s, a))
  }

  /** The save leaves every committed version as it reads. */
  ghost predicate SaveKeeps(s: System, a: Action) {
    AllFiled(s) && Saves(s, a) ==> KeepsHistory(s.log, Next(s, a).tables)
  }

  /** The version that is saved has not been committed before. */
  ghost predicate SavesNewVersion(s: System, a: Action) {
    AllFiled(s) && Saves(s, a) ==>
      Committed(s.log, SavedEntry(s, a).event.eventId, SavedEntry(s, a).event.eventVersion).None?
  }

  /** The chosen event is in the worker's memory as in an up-to-date service, or new to both. */
  ghost predicate FindsUnchanged(s: System, a: Action) {
    AllFiled(s) && Saves(s, a) ==>
      var id, mine, live := SavedEntry(s, a).event.eventId, s.processes[a.p].memory.events, Index(s.log).events;
      if id in mine then id in live && mine[id] == live[id] else id !in live
  }

  // ---- what lasts as long as no save does harm ----

  /** The memory is the index of commits that lag behind the log, and the cached versions are committed ones. */
  ghost predicate WorkerKnows(mem: Memory, snap: Log, log: Log) {
    Grown(snap) && Lags(snap, log) && SameIndexes(mem, Index(snap))
  }

  ghost predicate WorkerOk(mem: Memory, log: Log) {
    (exists snap :: WorkerKnows(mem, snap, log)) && CacheOk(mem, log)
  }

  ghost predicate Sound(s: System) {
    && Grown(s.log)
    && s.tables == TablesOf(s.log)
    && forall p :: p in s.processes ==> WorkerOk(s.processes[p].memory, s.log)
  }

  lemma {:induction false} SoundIsFiled(s: System)
    requires Sound(s)
    ensures AllFiled(s)
  {
    forall p | p in s.processes
      ensures Filed(s.processes[p].memory.events)
    {
      assert WorkerOk(s.processes[p].memory, s.log);
    }
  }

  lemma {:induction false} LagsAppend(snap: Log, log: Log, entry: Entry)
    requires Lags(snap, log)
    ensures Lags(snap, log + [entry])
  {
    Append(log, entry);
    forall id
      ensures EntriesOf(snap, id) <= EntriesOf(log + [entry], id)
    {
      LagsAt(snap, log, id);
    }
  }

  lemma {:induction false} BothAppend(snap: Log, log: Log, entry: Entry)
    requires Lags(snap, log) && EventUnchanged(log, snap, entry.event.eventId)
    ensures Lags(snap + [entry], log + [entry])
  {
    Append(log, entry);
    Append(snap, entry);
    forall id
      ensures EntriesOf(snap + [entry], id) <= EntriesOf(log + [entry], id)
    {
      LagsAt(snap, log, id);
    }
  }

  lemma {:induction false} CacheStaysOk(mem: Memory, log: Log, entry: Entry)
    requires CacheOk(mem, log)
    ensures CacheOk(mem, log + [entry])
  {
    var longer := log + [entry];
    assert longer[..|log|] == log;
    forall id, v | (id, v) in mem.versions
      ensures Committed(longer, id, v) == Some(mem.versions[(id, v)])
    {
      CommittedIsForever(longer, |log|, id, v);
    }
  }

  lemma {:induction false} OtherWorkerOk(mem: Memory, log: Log, entry: Entry)
    requires WorkerOk(mem, log)
    ensures WorkerOk(mem, log + [entry])
  {
    var snap :| WorkerKnows(mem, snap, log);
    LagsAppend(snap, log, entry);
    assert WorkerKnows(mem, snap, log + [entry]);
    CacheStaysOk(mem, log, entry);
  }

  lemma {:induction false} LoaderOk(log: Log)
    requires Grown(log)
    ensures WorkerOk(Rebuild(LoadState(TablesOf(log))), log)
  {
    RefreshRefinesIngest(log);
    var mem := Rebuild(LoadState(TablesOf(log)));
    PrefixLags(log, |log|);
    assert log[..|log|] == log;
    assert WorkerKnows(mem, log, log);
    forall id, v | (id, v) in mem.versions
      ensures Committed(log, id, v) == Some(mem.versions[(id, v)])
    {
      History(log, id);
      VersionFacts(EntriesOf(log, id), id, |EntriesOf(log, id)| - 1);
    }
  }

  // ---- the save of a worker ----

  lemma {:induction false} NewToTheWorker(snap: Log, log: Log, entry: Entry)
    requires Lags(snap, log) && ItemIsNew(log, entry)
    ensures ItemIsNew(snap, entry)
  {
    forall e | e in snap
      ensures e.env.id != entry.env.id
    {
      var i :| 0 <= i < |snap| && snap[i] == e;
      var k := EntryIsInItsHistory(snap, i);
      LagsAt(snap, log, e.event.eventId);
      var j := HistoryIsInTheLog(log, e.event.eventId, k);
      assert log[j] in log;
    }
  }

  /** The mention of the item is found in the event, whatever the new id. */
  lemma {:induction false} DecidedMention(mem: Memory, snap: Log, env: RawEnvelope, newId: EventId)
    requires Filed(mem.events) && Grown(snap) && SameIndexes(mem, Index(snap)) && KeyOf(env) !in mem.byIdentity
    requires forall e :: e in snap ==> e.env.id != env.id
    ensures FirstMention(Decide(mem, env, newId).mentions, env.id) == Some(MentionOf(env))
  {
    SameIndexesSameChoice(mem, Index(snap), env);
    var similar := SimilarEvent(mem, env);
    if similar.Some? {
      assert similar.value in Candidates(mem, env);
      NewMentionIsFound(snap, Entry(env, Decide(mem, env, newId)));
    }
  }

  /** The three rows of the step are merged into the tables of the log. */
  lemma {:induction false} SavedTables(s: System, a: Action)
    requires Sound(s) && AllFiled(s) && Saves(s, a) && BringsNewItem(s, a)
    ensures Next(s, a).tables == Saved(s.log, SavedEntry(s, a)) && Next(s, a).log == s.log + [SavedEntry(s, a)]
  {
    var mem := s.processes[a.p].memory;
    assert WorkerOk(mem, s.log);
    var snap :| WorkerKnows(mem, snap, s.log);
    NewToTheWorker(snap, s.log, SavedEntry(s, a));
    DecidedMention(mem, snap, a.env, a.newId);
  }

  /** A worker that saves a new version has decided as a worker that lags behind may. */
  lemma {:induction false} NewVersionFollows(mem: Memory, snap: Log, log: Log, env: RawEnvelope, newId: EventId)
    requires Filed(mem.events) && Grown(log) && WorkerKnows(mem, snap, log) && KeyOf(env) !in mem.byIdentity
    requires ItemIsNew(log, Entry(env, Decide(mem, env, newId)))
    requires Committed(log, Decide(mem, env, newId).eventId, Decide(mem, env, newId).eventVersion).None?
    ensures StaleSave(log, snap, Entry(env, Decide(mem, env, newId)))
  {
    var entry := Entry(env, Decide(mem, env, newId));
    NewToTheWorker(snap, log, entry);
    SameIndexesSameDecision(mem, Index(snap), env, newId);
    SameIndexesSameChoice(mem, Index(snap), env);
    var similar := SimilarEvent(mem, env);
    if similar.Some? {
      assert similar.value in Candidates(mem, env);
    } else {
      History(snap, newId);
      LagsAt(snap, log, newId);
    }
  }

  lemma {:induction false} SaverOk(mem: Memory, snap: Log, log: Log, entry: Entry)
    requires WorkerKnows(mem, snap, log) && CacheOk(mem, log) && StaleSave(log, snap, entry)
    requires ItemIsNew(log, entry) && EventUnchanged(log, snap, entry.event.eventId)
    ensures WorkerOk(Record(mem, entry.env, entry.event), log + [entry])
  {
    var after := Record(mem, entry.env, entry.event);
    CommitGrows(snap, entry);
    AppendIsGrown(snap, entry);
    BothAppend(snap, log, entry);
    RecordKeepsIndexes(mem, snap, entry);
    assert WorkerKnows(after, snap + [entry], log + [entry]);
    CacheStaysOk(mem, log, entry);
    HarmlessSave(log, snap, entry);
    CommittedEntry(log + [entry], |log|);
    RecordKeepsCache(mem, log + [entry], entry);
  }

  /** In a sound state a save keeps the history if and only if its version is new; and then all stays sound. */
  lemma {:induction false} SaveDecides(s: System, a: Action)
    requires Sound(s) && AllFiled(s) && Saves(s, a) && BringsNewItem(s, a)
    ensures SaveKeeps(s, a) <==> SavesNewVersion(s, a)
    ensures SavesNewVersion(s, a) ==> Sound(Next(s, a))
  {
    var entry := SavedEntry(s, a);
    SavedTables(s, a);
    if SavesNewVersion(s, a) {
      NewVersionIsSound(s, a);
    } else {
      NewItemRewrites(s.log, entry);
    }
  }

  lemma {:induction false} NewVersionIsSound(s: System, a: Action)
    requires Sound(s) && AllFiled(s) && Saves(s, a) && BringsNewItem(s, a) && SavesNewVersion(s, a)
    ensures SaveKeeps(s, a) && Sound(Next(s, a))
  {
    var mem, entry, after := s.processes[a.p].memory, SavedEntry(s, a), Next(s, a);
    assert WorkerOk(mem, s.log);
    var snap :| WorkerKnows(mem, snap, s.log);
    SavedTables(s, a);
    NewVersionFollows(mem, snap, s.log, a.env, a.newId);
    CommittedIffChanged(s.log, snap, entry);
    HarmlessSave(s.log, snap, entry);
    SaverOk(mem, snap, s.log, entry);
    forall q | q in after.processes
      ensures WorkerOk(after.processes[q].memory, after.log)
    {
      if q != a.p {
        OtherWorkerOk(s.processes[q].memory, s.log, entry);
      }
    }
  }

  // ---- the other steps ----

  lemma {:induction false} SoundRead(s: System, p: ProcessId, id: EventId, v: nat)
    requires Sound(s) && p in s.processes
    ensures Answer(s.tables, s.processes[p].memory, id, v) == Committed(s.log, id, v)
    ensures AllFiled(s) && Sound(Next(s, Read(p, id, v)))
  {
    SoundIsFiled(s);
    assert WorkerOk(s.processes[p].memory, s.log);
    TimeTravel(s.log, id, v);
    ReaderOk(s.processes[p].memory, s.log, id, v, Answer(s.tables, s.processes[p].memory, id, v));
  }

  lemma {:induction false} ReaderOk(mem: Memory, log: Log, id: EventId, v: nat, answer: Option<CanonicalEvent>)
    requires WorkerOk(mem, log) && answer == Committed(log, id, v)
    ensures WorkerOk(Remember(mem, id, v, answer), log)
  {
    var snap :| WorkerKnows(mem, snap, log);
    assert WorkerKnows(Remember(mem, id, v, answer), snap, log);
  }

  lemma {:induction false} SoundLoad(s: System, p: ProcessId)
    requires Sound(s) && AllFiled(s)
    ensures Sound(Next(s, Load(p)))
  {
    LoaderOk(s.log);
  }

  lemma {:induction false} OtherStep(s: System, a: Action)
    requires Sound(s) && AllFiled(s) && !Saves(s, a)
    ensures Sound(Next(s, a)) && SaveKeeps(s, a) && SavesNewVersion(s, a)
  {
    match a
    case Load(p) => SoundLoad(s, p);
    case Acquire(p) =>
    case Release(p) =>
    case Ingest(p, env, newId, available) =>
    case Read(p, id, v) =>
      if p in s.processes {
        SoundRead(s, p, id, v);
      }
  }

  // ---- whole runs ----

  ghost predicate AllBringNewItems(actions: seq<Action>) {
    forall k :: 0 <= k < |actions| ==> BringsNewItem(After(actions[..k]), actions[k])
  }

  /** The property holds of every step before the `n`-th. */
  ghost predicate UpTo(holds: nat -> bool, n: nat) {
    forall k: nat :: k < n ==> holds(k)
  }

  lemma {:induction false} UpToOneMore(holds: nat -> bool, k: nat)
    ensures UpTo(holds, k + 1) <==> UpTo(holds, k) && holds(k)
  {
  }

  ghost function Keeps(actions: seq<Action>): nat -> bool {
    (k: nat) => k < |actions| ==> SaveKeeps(After(actions[..k]), actions[k])
  }

  ghost function WritesNew(actions: seq<Action>): nat -> bool {
    (k: nat) => k < |actions| ==> SavesNewVersion(After(actions[..k]), actions[k])
  }

  ghost function Unchanged(actions: seq<Action>): nat -> bool {
    (k: nat) => k < |actions| ==> FindsUnchanged(After(actions[..k]), actions[k])
  }

  lemma {:induction false} NextIsSound(s: System, a: Action)
    requires Sound(s) && AllFiled(s) && BringsNewItem(s, a)
    ensures SaveKeeps(s, a) <==> SavesNewVersion(s, a)
    ensures SavesNewVersion(s, a) ==> Sound(Next(s, a))
  {
    if Saves(s, a) {
      SaveDecides(s, a);
    } else {
      OtherStep(s, a);
    }
  }

  /**
   * Every interleaving of the processes, in whatever order they load, take leases, ingest and read: up to
   * any point no save has changed what a committed version reads as, if and only if every save wrote a
   * version that had not been committed before. And then the tables are those of the log, every worker
   * knows a lagging part of it, and every reader is told what is committed.
   */
  lemma {:induction false} RunKeepsHistoryIff(actions: seq<Action>, n: nat)
    requires AllBringNewItems(actions) && n <= |actions|
    ensures UpTo(Keeps(actions), n) <==> UpTo(WritesNew(actions), n)
    ensures UpTo(Keeps(actions), n) ==> Sound(After(actions[..n]))
  {
    if n == 0 {
      assert TablesOf([]) == EMPTY_TABLES;
    } else {
      var k := n - 1;
      RunKeepsHistoryIff(actions, k);
      UpToOneMore(Keeps(actions), k);
      UpToOneMore(WritesNew(actions), k);
      AfterOneMore(actions, k);
      if UpTo(Keeps(actions), k) {
        assert BringsNewItem(After(actions[..k]), actions[k]);
        NextIsSound(After(actions[..k]), actions[k]);
      }
      assert n == k + 1;
    }
  }

  lemma {:induction false} ReadersOfHarmlessRuns(actions: seq<Action>, p: ProcessId, id: EventId, v: nat)
    requires AllBringNewItems(actions) && UpTo(WritesNew(actions), |actions|) && p in After(actions).processes
    ensures var s := After(actions); Answer(s.tables, s.processes[p].memory, id, v) == Committed(s.log, id, v)
  {
    RunKeepsHistoryIff(actions, |actions|);
    assert actions[..|actions|] == actions;
    SoundRead(After(actions), p, id, v);
  }

  // ---- said of the worker's memory ----

  /** New events get ids that no event has. */
  ghost predicate FreshId(s: System, a: Action) {
    a.Ingest? ==> a.newId !in Index(s.log).events
  }

  lemma {:induction false} LastVersionTells(snap: Log, log: Log, id: EventId)
    requires Grown(snap) && Grown(log) && Lags(snap, log) && id in Index(snap).events
    ensures id in Index(log).events
    ensures Index(snap).events[id] == Index(log).events[id] <==> EventUnchanged(log, snap, id)
    ensures Index(snap).events[id].eventVersion == |EntriesOf(snap, id)|
  {
    LagsAt(snap, log, id);
    LiveVersion(snap, id);
    LiveVersion(log, id);
  }

  lemma {:induction false} LiveVersion(log: Log, id: EventId)
    requires Grown(log)
    ensures id in Index(log).events <==> EntriesOf(log, id) != []
    ensures id in Index(log).events ==>
              && Index(log).events[id] == EntriesOf(log, id)[|EntriesOf(log, id)| - 1].event
              && Index(log).events[id].eventVersion == |EntriesOf(log, id)|
  {
    History(log, id);
    if EntriesOf(log, id) != [] {
      VersionFacts(EntriesOf(log, id), id, |EntriesOf(log, id)| - 1);
    }
  }

  /** In a sound state a version is new if and only if the worker's memory has its event as it is. */
  lemma {:induction false} NewVersionIffUnchanged(s: System, a: Action)
    requires Sound(s) && BringsNewItem(s, a) && FreshId(s, a)
    ensures SavesNewVersion(s, a) <==> FindsUnchanged(s, a)
  {
    SoundIsFiled(s);
    if Saves(s, a) {
      var mem, entry := s.processes[a.p].memory, SavedEntry(s, a);
      assert WorkerOk(mem, s.log);
      var snap :| WorkerKnows(mem, snap, s.log);
      NewVersionOfMemory(mem, snap, s.log, a.env, a.newId);
    }
  }

  lemma {:induction false} NewVersionOfMemory(mem: Memory, snap: Log, log: Log, env: RawEnvelope, newId: EventId)
    requires Filed(mem.events) && Grown(log) && WorkerKnows(mem, snap, log) && newId !in Index(log).events
    ensures var event := Decide(mem, env, newId);
            Committed(log, event.eventId, event.eventVersion).None?
            <==> (if event.eventId in mem.events then
                    event.eventId in Index(log).events && mem.events[event.eventId] == Index(log).events[event.eventId]
                  else event.eventId !in Index(log).events)
  {
    var similar := SimilarEvent(mem, env);
    if similar.Some? {
      assert similar.value in Candidates(mem, env);
      LastVersionTells(snap, log, similar.value);
      LagsAt(snap, log, similar.value);
    } else {
      History(log, newId);
      History(snap, newId);
      LagsAt(snap, log, newId);
    }
  }

  ghost predicate AllFreshIds(actions: seq<Action>) {
    forall k :: 0 <= k < |actions| ==> FreshId(After(actions[..k]), actions[k])
  }

  /**
   * So with unused ids for new events: up to any point every save keeps the history if and only if every
   * save found its event in the saver's memory as it was in the database.
   */
  lemma {:induction false} RunKeepsHistoryIffUnchanged(actions: seq<Action>, n: nat)
    requires AllBringNewItems(actions) && AllFreshIds(actions) && n <= |actions|
    ensures UpTo(Keeps(actions), n) <==> UpTo(Unchanged(actions), n)
  {
    RunKeepsHistoryIff(actions, n);
    if n > 0 {
      var k := n - 1;
      RunKeepsHistoryIffUnchanged(actions, k);
      RunKeepsHistoryIff(actions, k);
      UpToOneMore(Keeps(actions), k);
      UpToOneMore(WritesNew(actions), k);
      UpToOneMore(Unchanged(actions), k);
      if UpTo(Keeps(actions), k) {
        assert BringsNewItem(After(actions[..k]), actions[k]) && FreshId(After(actions[..k]), actions[k]);
        NewVersionIffUnchanged(After(actions[..k]), actions[k]);
      }
      assert n == k + 1;
    }
  }
}
