/** One call of `ingest`, and one pass over feeds, as functions of a service's whole state. */
module EventIngest {
  import opened Common
  import opened Contracts
  import opened EventClustering
  import opened EventLog
  import opened EventTables
  import opened EventReplay
  import opened Redelivery

  /** A service's indexes, and the tables behind it if it is persistent. */
  datatype Store = Store(memory: Memory, rows: Option<Tables>)

  datatype IngestResult = IngestResult(event: CanonicalEvent, created: bool, idempotent: bool)

  datatype IngestError = SaveRaised(error: SaveError) | UnknownEvent(id: EventId)

  type Outcome = Result<IngestResult, IngestError>

  /** An item with an unknown key: decide, save, and only then remember. */
  ghost function IngestNew(s: Store, env: RawEnvelope, newId: EventId, available: bool): (r: (Store, Outcome))
    requires Filed(s.memory.events)
    ensures Filed(r.0.memory.events)
  {
    var event := Decide(s.memory, env, newId);
    var result := Ok(IngestResult(event, SimilarEvent(s.memory, env).None?, false));
    var memory := Record(s.memory, env, event);
    if s.rows.None? then (Store(memory, None), result)
    else
      match Save(s.rows.value, env, event, available)
      case Err(error) => (s, Err(SaveRaised(error)))
      case Ok(tables) => (Store(memory, Some(tables)), result)
  }

  /** `ingest` with the next id of the supply; `available` says whether a save would commit. */
  ghost function IngestInto(s: Store, env: RawEnvelope, ids: IdSupply, available: bool): (r: (Store, Outcome))
    requires Filed(s.memory.events)
    ensures Filed(r.0.memory.events)
  {
    var mem, key := s.memory, KeyOf(env);
    if key in mem.byIdentity then
      var id := mem.byIdentity[key];
      (s, if id in mem.events then Ok(IngestResult(mem.events[id], false, true)) else Err(UnknownEvent(id)))
    else IngestNew(s, env, ids(|mem.events|), available)
  }

  /** Steps through `items` until one fails; the flag says that none did. */
  ghost function Until<S, E>(start: S, items: seq<E>, step: (S, E) -> (S, bool)): (S, bool) {
    if items == [] then (start, true)
    else
      var before := Until(start, items[..|items| - 1], step);
      if before.1 then step(before.0, items[|items| - 1]) else before
  }

  /** Stepping through two parts: the second starts where the first ends, unless the first has failed. */
  lemma {:induction false} UntilComposes<S, E>(start: S, first: seq<E>, second: seq<E>, step: (S, E) -> (S, bool))
    ensures var (middle, ok) := Until(start, first, step);
            Until(start, first + second, step) == if ok then Until(middle, second, step) else (middle, false)
  {
    if second == [] {
      assert first + second == first;
    } else {
      var n, all := |second| - 1, first + second;
      UntilComposes(start, first, second[..n], step);
      assert all[..|all| - 1] == first + second[..n] && all[|all| - 1] == second[n];
    }
  }

  /** One item more; if it fails, that is how the whole sequence ends. */
  lemma {:induction false} UntilOneMore<S, E>(
      start: S, items: seq<E>, i: nat, step: (S, E) -> (S, bool), before: S, after: (S, bool))
    requires i < |items| && Until(start, items[..i], step) == (before, true) && step(before, items[i]) == after
    ensures Until(start, items[..i + 1], step) == after
    ensures !after.1 ==> Until(start, items, step) == after
  {
    assert items[..i + 1][..i] == items[..i];
    assert items == items[..i + 1] + items[i + 1..];
    UntilComposes(start, items[..i + 1], items[i + 1..], step);
  }

  /** It stops at the first item whose step fails, in the state that this step leaves. */
  lemma {:induction false} UntilStops<S, E>(start: S, items: seq<E>, step: (S, E) -> (S, bool)) returns (n: nat)
    ensures n <= |items| && Until(start, items[..n], step).1
    ensures n == |items| <==> Until(start, items, step).1
    ensures n < |items| ==> Until(start, items, step) == step(Until(start, items[..n], step).0, items[n])
  {
    if items == [] {
      n := 0;
    } else {
      var k := |items| - 1;
      n := UntilStops(start, items[..k], step);
      if n < k {
        assert items[..k][..n] == items[..n];
      } else if Until(start, items, step).1 {
        n := |items|;
        assert items[..n] == items;
      }
    }
  }

  function Flatten<E>(feeds: seq<seq<E>>): seq<E> {
    if feeds == [] then [] else Flatten(feeds[..|feeds| - 1]) + feeds[|feeds| - 1]
  }

  lemma {:induction false} FlattenParts<E>(feeds: seq<seq<E>>, n: nat)
    requires n <= |feeds|
    ensures Flatten(feeds) == Flatten(feeds[..n]) + Flatten(feeds[n..])
  {
    if n < |feeds| {
      var last := |feeds| - 1;
      FlattenParts(feeds[..last], n);
      assert feeds[..last][..n] == feeds[..n] && feeds[..last][n..] == feeds[n..][..last - n];
    } else {
      assert feeds[..n] == feeds;
    }
  }

  /** One feed more; if it fails, that is how the whole sequence of feeds ends. */
  lemma {:induction false} UntilOneFeedMore<S, E>(
      start: S, feeds: seq<seq<E>>, i: nat, step: (S, E) -> (S, bool), before: S, after: (S, bool))
    requires i < |feeds| && Until(start, Flatten(feeds[..i]), step) == (before, true) && Until(before, feeds[i], step) == after
    ensures Until(start, Flatten(feeds[..i + 1]), step) == after
    ensures !after.1 ==> Until(start, Flatten(feeds), step) == after
  {
    assert feeds[..i + 1][..i] == feeds[..i];
    UntilComposes(start, Flatten(feeds[..i]), feeds[i], step);
    FlattenParts(feeds, i + 1);
    UntilComposes(start, Flatten(feeds[..i + 1]), Flatten(feeds[i + 1..]), step);
  }

  /** A service files its events under their ids. */
  type FiledStore = s: Store | Filed(s.memory.events) ghost witness Store(EMPTY_MEMORY, None)

  ghost function Step(ids: IdSupply, available: RawEnvelope -> bool): (FiledStore, RawEnvelope) -> (FiledStore, bool) {
    (s: FiledStore, env: RawEnvelope) => var (after, outcome) := IngestInto(s, env, ids, available(env)); (after, outcome.Ok?)
  }

  /** Items in order until one raises; the flag says that none did. */
  ghost function IngestItems(s: FiledStore, items: seq<RawEnvelope>, ids: IdSupply, available: RawEnvelope -> bool): (FiledStore, bool) {
    Until(s, items, Step(ids, available))
  }

  /** Items are ingested in order up to the first that raises, and none after it. */
  lemma {:induction false} IngestItemsStops(s: FiledStore, items: seq<RawEnvelope>, ids: IdSupply, available: RawEnvelope -> bool)
    returns (n: nat, before: FiledStore)
    ensures n <= |items| && IngestItems(s, items[..n], ids, available) == (before, true)
    ensures var (after, ok) := IngestItems(s, items, ids, available);
            && (ok <==> n == |items|)
            && (n < |items| ==>
                 && IngestInto(before, items[n], ids, available(items[n])).1.Err?
                 && after == IngestInto(before, items[n], ids, available(items[n])).0)
  {
    n := UntilStops(s, items, Step(ids, available));
    before := IngestItems(s, items[..n], ids, available).0;
  }

  /** After one more item; if it raises, the rest of the items is not looked at. */
  lemma {:induction false} OneMoreItem(
      s: FiledStore, items: seq<RawEnvelope>, i: nat, ids: IdSupply, available: RawEnvelope -> bool,
      before: FiledStore, after: FiledStore, outcome: Outcome)
    requires i < |items| && IngestItems(s, items[..i], ids, available) == (before, true)
    requires (after, outcome) == IngestInto(before, items[i], ids, available(items[i]))
    ensures IngestItems(s, items[..i + 1], ids, available) == (after, outcome.Ok?)
    ensures outcome.Err? ==> IngestItems(s, items, ids, available) == (after, false)
  {
    UntilOneMore(s, items, i, Step(ids, available), before, (after, outcome.Ok?));
  }

  /** After one more feed; if one of its items raises, the rest of the feeds is not looked at. */
  lemma {:induction false} OneMoreFeed(
      s: FiledStore, feeds: seq<seq<RawEnvelope>>, i: nat, ids: IdSupply, available: RawEnvelope -> bool,
      before: FiledStore, after: FiledStore, ok: bool)
    requires i < |feeds| && IngestItems(s, Flatten(feeds[..i]), ids, available) == (before, true)
    requires IngestItems(before, feeds[i], ids, available) == (after, ok)
    ensures IngestItems(s, Flatten(feeds[..i + 1]), ids, available) == (after, ok)
    ensures !ok ==> IngestItems(s, Flatten(feeds), ids, available) == (after, false)
  {
    UntilOneFeedMore(s, feeds, i, Step(ids, available), before, (after, ok));
  }

  /** An in-memory service that holds the index of a log moves to the index of the longer log. */
  lemma {:induction false} InMemoryIngest(log: Log, env: RawEnvelope, ids: IdSupply, available: bool)
    requires Reachable(log)
    ensures var (after, outcome) := IngestInto(Store(Index(log), None), env, ids, available);
            after == Store(Index(IngestOne(log, env, ids)), None) && outcome.Ok?
  {
    if Known(log, KeyOf(env)) {
      KeysAreAScan(log, KeyOf(env));
      var i :| 0 <= i < |log| && KeyOf(log[i].env) == KeyOf(env);
      ReachableIsDistinct(log);
      ReachableIsGrown(log);
      IdentityIndexIsAScan(log, i);
      var k := EntryIsInItsHistory(log, i);
      History(log, log[i].event.eventId);
    } else {
      Append(log, Commit(log, env, ids));
    }
  }

  /** A clean in-memory pass ends in the index of the pass's log, and raises nothing. */
  lemma {:induction false} InMemoryPass(feed: seq<RawEnvelope>, ids: IdSupply, available: RawEnvelope -> bool)
    requires Injective(ids) && IdsNameItems(feed)
    ensures IngestItems(Store(EMPTY_MEMORY, None), feed, ids, available)
            == (Store(Index(IngestAll(feed, ids)), None), true)
  {
    if feed != [] {
      var init, last := feed[..|feed| - 1], feed[|feed| - 1];
      InMemoryPass(init, ids, available);
      PassIsReachable(init, ids);
      PassGrows(feed, ids);
      InMemoryIngest(IngestAll(init, ids), last, ids, available(last));
    }
  }

  /** A second pass over a feed leaves an in-memory service as it is. */
  lemma {:induction false} SecondPassDoesNothing(feed: seq<RawEnvelope>, n: nat, ids: IdSupply, available: RawEnvelope -> bool)
    requires Injective(ids) && IdsNameItems(feed) && n <= |feed|
    ensures var done := Store(Index(IngestAll(feed, ids)), None);
            IngestItems(done, feed[..n], ids, available) == (done, true)
  {
    if n > 0 {
      SecondPassDoesNothing(feed, n - 1, ids, available);
      assert feed[..n][..n - 1] == feed[..n - 1];
      PassIsReachable(feed, ids);
      InMemoryIngest(IngestAll(feed, ids), feed[n - 1], ids, available(feed[n - 1]));
      IngestObeysLaws(ids);
      KnownAfterPass([], feed, Ingest(ids), Known, KeyOf, KeyOf(feed[n - 1]));
    }
  }
}
