/**
 * The processes of `EventProcesses` over a database that returns rows in any order at every load and
 * every read: they do what they do over rows in insertion order, up to ties.
 */
module EventAnyOrder {
  import opened Common
  import opened Contracts
  import opened EventClustering
  import opened EventLog
  import opened EventTables
  import opened EventReload
  import opened EventTies
  import opened EventProcesses

  /** A step, and the rows in the order in which a load or a read gets them. */
  datatype OrderedAction = OrderedAction(action: Action, rows: Tables)

  ghost function AnswerFrom(rows: Tables, mem: Memory, id: EventId, v: nat): Option<CanonicalEvent> {
    if (id, v) in mem.versions then Some(mem.versions[(id, v)]) else LoadEventVersion(rows, id, v)
  }

  /** Steps other than loads and reads do not depend on the order of rows. */
  ghost function OrderedNext(s: System, o: OrderedAction): (r: System)
    requires AllFiled(s)
    ensures AllFiled(r)
  {
    var rows := Returned(o.rows, s.tables);
    match o.action
    case Load(p) =>
      var memory := Rebuild(LoadState(rows));
      System(
        s.tables,
        if Owns(s, p) then Some(Lease(p, true)) else s.lease,
        s.processes[p := Process(memory, |s.log|)],
        s.log)
    case Read(p, id, v) =>
      if p in s.processes then
        var process := s.processes[p];
        var answer := AnswerFrom(rows, process.memory, id, v);
        s.(processes := s.processes[p := process.(memory := Remember(process.memory, id, v, answer))])
      else s
    case Acquire(_) => Next(s, o.action)
    case Ingest(_, _, _, _) => Next(s, o.action)
    case Release(_) => Next(s, o.action)
  }

  ghost function OrderedAfter(steps: seq<OrderedAction>): (s: System)
    ensures AllFiled(s)
  {
    if steps == [] then INITIAL else OrderedNext(OrderedAfter(steps[..|steps| - 1]), steps[|steps| - 1])
  }

  /** The same steps over rows in insertion order. */
  function Plain(steps: seq<OrderedAction>): seq<Action> {
    seq(|steps|, i requires 0 <= i < |steps| => steps[i].action)
  }

  // ---- the two runs keep in step ----

  ghost predicate TiedProcess(a: Process, b: Process, log: Log) {
    a.seen == b.seen && TiedIndexes(a.memory, b.memory) && TiedCache(a.memory.versions, log)
  }

  /** Equal tables and leases, equally long logs, and processes equal up to ties. */
  ghost predicate TiedSystem(s: System, t: System) {
    && s.tables == t.tables && s.lease == t.lease && |s.log| == |t.log|
    && s.processes.Keys == t.processes.Keys
    && forall p :: p in s.processes ==> TiedProcess(s.processes[p], t.processes[p], t.log)
  }

  lemma {:induction false} SameIndexesAreTied(a: Memory, b: Memory, c: Memory)
    requires TiedIndexes(a, b) && SameIndexes(b, c)
    ensures TiedIndexes(a, c)
  {
  }

  lemma {:induction false} LoadsAreTied(log: Log, rows: Tables)
    requires Reachable(log) && SameRows(rows, TablesOf(log))
    ensures TiedProcess(
              Process(Rebuild(LoadState(rows)), |log|), Process(Rebuild(LoadState(TablesOf(log))), |log|), log)
  {
    LoadIsTied(log, rows);
    ReachableIsGrown(log);
    RefreshRefinesIngest(log);
    SameIndexesAreTied(Rebuild(LoadState(rows)), Index(log), Rebuild(LoadState(TablesOf(log))));
  }

  lemma {:induction false} ReplaceProcess(s: System, t: System, p: ProcessId, a: Process, b: Process)
    requires TiedSystem(s, t) && TiedProcess(a, b, t.log)
    ensures TiedSystem(s.(processes := s.processes[p := a]), t.(processes := t.processes[p := b]))
  {
  }

  lemma {:induction false} LoadKeepsStep(s: System, t: System, p: ProcessId, rows: Tables)
    requires AllFiled(s) && AllFiled(t) && Safe(t) && TiedSystem(s, t)
    ensures TiedSystem(OrderedNext(s, OrderedAction(Load(p), rows)), Next(t, Load(p)))
  {
    var mine := Process(Rebuild(LoadState(Returned(rows, s.tables))), |s.log|);
    var plain := Process(Rebuild(LoadState(t.tables)), |t.log|);
    LoadsAreTied(t.log, Returned(rows, s.tables));
    ReplaceProcess(s, t, p, mine, plain);
  }

  lemma {:induction false} ReadersAreTied(a: Process, b: Process, log: Log, id: EventId, v: nat, x: Option<CanonicalEvent>, y: Option<CanonicalEvent>)
    requires TiedProcess(a, b, log) && TiedAnswer(x, Committed(log, id, v))
    ensures TiedProcess(
              a.(memory := Remember(a.memory, id, v, x)), b.(memory := Remember(b.memory, id, v, y)), log)
  {
  }

  lemma {:induction false} ReadKeepsStep(s: System, t: System, p: ProcessId, id: EventId, v: nat, rows: Tables)
    requires AllFiled(s) && AllFiled(t) && Safe(t) && TiedSystem(s, t)
    ensures TiedSystem(OrderedNext(s, OrderedAction(Read(p, id, v), rows)), Next(t, Read(p, id, v)))
    ensures p in s.processes ==>
              TiedAnswer(AnswerFrom(Returned(rows, s.tables), s.processes[p].memory, id, v), Committed(t.log, id, v))
  {
    if p in s.processes {
      var a, b := s.processes[p], t.processes[p];
      assert TiedProcess(a, b, t.log);
      ReachableIsGrown(t.log);
      ReadIsTied(a.memory, t.log, Returned(rows, s.tables), id, v);
      var x, y := AnswerFrom(Returned(rows, s.tables), a.memory, id, v), Answer(t.tables, b.memory, id, v);
      ReadersAreTied(a, b, t.log, id, v, x, y);
      ReplaceProcess(
        s, t, p, a.(memory := Remember(a.memory, id, v, x)), b.(memory := Remember(b.memory, id, v, y)));
    }
  }

  lemma {:induction false} IngestKeepsStep(s: System, t: System, a: Action)
    requires a.Ingest? && AllFiled(s) && AllFiled(t) && Safe(t) && TiedSystem(s, t) && Disciplined(t, a)
    ensures TiedSystem(Next(s, a), Next(t, a))
  {
    if Owns(t, a.p) && a.p in t.processes && KeyOf(a.env) !in t.processes[a.p].memory.byIdentity {
      assert TiedProcess(s.processes[a.p], t.processes[a.p], t.log);
      assert ProcessOk(t.processes[a.p], t.log) && t.log[..|t.log|] == t.log;
      UnknownKeyIsFreshItem(t.log, a.env);
      CommitKeepsStep(s, t, a);
    }
  }

  /** The owner of a current lease saves the same rows in both runs, and stays tied. */
  lemma {:induction false} CommitsAreTied(mine: Memory, plain: Memory, log: Log, env: RawEnvelope, newId: EventId, available: bool)
    requires Filed(mine.events) && Filed(plain.events) && Reachable(log)
    requires SameIndexes(plain, Index(log)) && TiedIndexes(mine, plain) && TiedCache(mine.versions, log)
    requires KeyOf(env) !in plain.byIdentity && newId !in Index(log).events && forall e :: e in log ==> e.env.id != env.id
    ensures var x, y := Decide(mine, env, newId), Decide(plain, env, newId);
            && Save(TablesOf(log), env, x, available) == Save(TablesOf(log), env, y, available)
            && TiedIndexes(Record(mine, env, x), Record(plain, env, y))
            && TiedCache(Record(mine, env, x).versions, log + [Entry(env, y)])
  {
    SameIndexesAreTied(mine, plain, Index(log));
    OwnerFollows(plain, log, env, newId);
    SameIndexesSameDecision(plain, Index(log), env, newId);
    ReachableIsGrown(log);
    TiedIngest(mine, log, env, newId, available);
    TiedDecision(mine, plain, env, newId);
    TiedRecord(mine, plain, env, Decide(mine, env, newId), Decide(plain, env, newId));
  }

  ghost predicate Decides(s: System, a: Action) {
    a.Ingest? && AllFiled(s) && Owns(s, a.p) && a.p in s.processes && KeyOf(a.env) !in s.processes[a.p].memory.byIdentity
  }

  ghost function Decided(s: System, a: Action): CanonicalEvent
    requires Decides(s, a)
  {
    Decide(s.processes[a.p].memory, a.env, a.newId)
  }

  ghost function WithCommit(s: System, p: ProcessId, entry: Entry, tables: Tables): System
    requires p in s.processes
  {
    System(
      tables, s.lease,
      s.processes[p := Process(Record(s.processes[p].memory, entry.env, entry.event), |s.log| + 1)],
      s.log + [entry])
  }

  lemma {:induction false} NextSaves(s: System, a: Action, saved: Result<Tables, SaveError>)
    requires Decides(s, a) && saved == Save(s.tables, a.env, Decided(s, a), a.available)
    ensures Next(s, a) == if saved.Ok? then WithCommit(s, a.p, Entry(a.env, Decided(s, a)), saved.value) else s
  {
  }

  lemma {:induction false} CommitKeepsStep(s: System, t: System, a: Action)
    requires AllFiled(s) && Decides(t, a) && Reachable(t.log) && t.tables == TablesOf(t.log) && TiedSystem(s, t)
    requires SameIndexes(t.processes[a.p].memory, Index(t.log))
    requires a.newId !in Index(t.log).events && forall e :: e in t.log ==> e.env.id != a.env.id
    ensures TiedSystem(Next(s, a), Next(t, a))
  {
    assert TiedProcess(s.processes[a.p], t.processes[a.p], t.log);
    CommitsAreTied(s.processes[a.p].memory, t.processes[a.p].memory, t.log, a.env, a.newId, a.available);
    var saved := Save(t.tables, a.env, Decided(t, a), a.available);
    NextSaves(s, a, saved);
    NextSaves(t, a, saved);
    if saved.Ok? {
      CommitTogether(s, t, a.p, Entry(a.env, Decided(s, a)), Entry(a.env, Decided(t, a)), saved.value);
    }
  }

  lemma {:induction false} CommitTogether(s: System, t: System, p: ProcessId, x: Entry, y: Entry, tables: Tables)
    requires TiedSystem(s, t) && p in t.processes
    requires TiedIndexes(Record(s.processes[p].memory, x.env, x.event), Record(t.processes[p].memory, y.env, y.event))
    requires TiedCache(Record(s.processes[p].memory, x.env, x.event).versions, t.log + [y])
    ensures TiedSystem(WithCommit(s, p, x, tables), WithCommit(t, p, y, tables))
  {
    forall q | q in s.processes && q != p
      ensures TiedProcess(s.processes[q], t.processes[q], t.log + [y])
    {
      TiedCacheGrows(s.processes[q].memory.versions, t.log, y);
    }
  }

  lemma {:induction false} StepKeepsStep(s: System, t: System, o: OrderedAction)
    requires AllFiled(s) && AllFiled(t) && Safe(t) && TiedSystem(s, t) && Disciplined(t, o.action)
    ensures TiedSystem(OrderedNext(s, o), Next(t, o.action))
  {
    match o.action
    case Load(p) => LoadKeepsStep(s, t, p, o.rows);
    case Acquire(p) => AcquireKeepsStep(s, t, p);
    case Release(p) =>
    case Ingest(_, _, _, _) => IngestKeepsStep(s, t, o.action);
    case Read(p, id, v) => ReadKeepsStep(s, t, p, id, v, o.rows);
  }

  lemma {:induction false} AcquireKeepsStep(s: System, t: System, p: ProcessId)
    requires AllFiled(s) && AllFiled(t) && TiedSystem(s, t)
    ensures TiedSystem(Next(s, Acquire(p)), Next(t, Acquire(p)))
  {
    if p in s.processes {
      assert TiedProcess(s.processes[p], t.processes[p], t.log);
    }
  }

  /** A disciplined run keeps in step with the same run over rows in insertion order. */
  lemma {:induction false} RunKeepsStep(steps: seq<OrderedAction>)
    requires DisciplinedRun(Plain(steps))
    ensures TiedSystem(OrderedAfter(steps), After(Plain(steps)))
    ensures Safe(After(Plain(steps)))
  {
    RunIsSafe(Plain(steps), 0);
    if steps != [] {
      var n := |steps| - 1;
      var plain := Plain(steps);
      assert plain[..n] == Plain(steps[..n]);
      assert forall j :: 0 <= j <= n ==> plain[..n][..j] == plain[..j];
      RunKeepsStep(steps[..n]);
      assert Disciplined(After(plain[..n]), plain[n]);
      StepKeepsStep(OrderedAfter(steps[..n]), After(plain[..n]), steps[n]);
    }
  }

  lemma {:induction false} PrefixKeepsStep(steps: seq<OrderedAction>, i: nat)
    requires DisciplinedRun(Plain(steps)) && i <= |steps|
    ensures TiedSystem(OrderedAfter(steps[..i]), After(Plain(steps)[..i]))
    ensures Safe(After(Plain(steps)[..i]))
  {
    assert Plain(steps[..i]) == Plain(steps)[..i];
    assert forall j :: 0 <= j < i ==> Plain(steps)[..i][..j] == Plain(steps)[..j];
    RunKeepsStep(steps[..i]);
  }

  /**
   * Multi-process safety in any order of rows. At any time of any disciplined run a reader that asks for
   * version `v`, with rows in whatever order, is told the event committed as `v` but for the order of
   * mentions received at one instant, or None if there is none yet; and what is committed then is
   * committed at the end.
   */
  lemma {:induction false} ReadersGetTheCommittedInAnyOrder(
      steps: seq<OrderedAction>, i: nat, p: ProcessId, id: EventId, v: nat, rows: Tables)
    requires DisciplinedRun(Plain(steps)) && i <= |steps| && p in OrderedAfter(steps[..i]).processes
    ensures var s, log := OrderedAfter(steps[..i]), After(Plain(steps)[..i]).log;
            && TiedAnswer(AnswerFrom(Returned(rows, s.tables), s.processes[p].memory, id, v), Committed(log, id, v))
            && (Committed(log, id, v).Some? ==> Committed(After(Plain(steps)).log, id, v) == Committed(log, id, v))
  {
    PrefixKeepsStep(steps, i);
    var s, t, last := OrderedAfter(steps[..i]), After(Plain(steps)[..i]), After(Plain(steps));
    ReadKeepsStep(s, t, p, id, v, rows);
    RunIsSafe(Plain(steps), i);
    CommittedIsForever(last.log, |t.log|, id, v);
    assert last.log[..|t.log|] == t.log;
  }
}
