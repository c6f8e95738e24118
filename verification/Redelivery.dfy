/**
 * Feeds delivered more than once to a store that recognises what it has seen. The store and its
 * ingestion are parameters; `EventReplay` supplies the event log.
 */
module Redelivery {
  /** What ingestion must obey: a known item changes nothing, and an ingested item stays known. */
  ghost predicate Laws<S(!new), E(!new), K(!new)>(ingest: (S, E) -> S, known: (S, K) -> bool, key: E -> K) {
    && (forall s: S, e: E {:trigger ingest(s, e)} :: known(s, key(e)) ==> ingest(s, e) == s)
    && (forall s: S, e: E, k: K {:trigger known(ingest(s, e), k)} :: known(ingest(s, e), k) <==> known(s, k) || k == key(e))
  }

  /** One clean pass over a feed. */
  ghost function Pass<S, E>(start: S, feed: seq<E>, ingest: (S, E) -> S): S {
    if feed == [] then start
    else ingest(Pass(start, feed[..|feed| - 1], ingest), feed[|feed| - 1])
  }

  lemma {:induction false} KnownAfterPass<S(!new), E(!new), K(!new)>(
      start: S, feed: seq<E>, ingest: (S, E) -> S, known: (S, K) -> bool, key: E -> K, k: K)
    requires Laws(ingest, known, key)
    ensures known(Pass(start, feed, ingest), k) <==> known(start, k) || exists i :: 0 <= i < |feed| && key(feed[i]) == k
  {
    if feed != [] {
      var n := |feed| - 1;
      KnownAfterPass(start, feed[..n], ingest, known, key, k);
      if i :| 0 <= i < n && key(feed[..n][i]) == k {
        assert key(feed[i]) == k;
      }
    }
  }

  ghost function FirstOccurrences<E, K(!new)>(feed: seq<E>, key: E -> K): seq<E> {
    if feed == [] then []
    else
      var init, last := feed[..|feed| - 1], feed[|feed| - 1];
      FirstOccurrences(init, key) + if exists i :: 0 <= i < |init| && key(init[i]) == key(last) then [] else [last]
  }

  /** Ingesting a feed is ingesting the first item of each key. */
  lemma {:induction false} DuplicatesDoNothing<S(!new), E(!new), K(!new)>(
      start: S, feed: seq<E>, ingest: (S, E) -> S, known: (S, K) -> bool, key: E -> K)
    requires Laws(ingest, known, key)
    ensures Pass(start, feed, ingest) == Pass(start, FirstOccurrences(feed, key), ingest)
  {
    if feed != [] {
      var init, last := feed[..|feed| - 1], feed[|feed| - 1];
      DuplicatesDoNothing(start, init, ingest, known, key);
      KnownAfterPass(start, init, ingest, known, key, key(last));
      var firsts := FirstOccurrences(init, key);
      if exists i :: 0 <= i < |init| && key(init[i]) == key(last) {
        assert FirstOccurrences(feed, key) == firsts;
      } else {
        assert FirstOccurrences(feed, key) == firsts + [last];
        assert (firsts + [last])[..|firsts|] == firsts;
      }
    }
  }

  // ---- crashes and concurrent replays ----

  /** Each replay has a position in the feed; all of them write to one store. */
  datatype Replays<S> = Replays(cursors: seq<nat>, store: S)

  /** A replay handles its next item, or its process dies and will start over. */
  datatype ReplayStep = Deliver(replay: nat, saved: bool) | Crash(replay: nat)

  /** An item that is already known is skipped; otherwise a failed save kills the replay. */
  ghost function Next<S, E, K>(
      s: Replays<S>, step: ReplayStep, feed: seq<E>, ingest: (S, E) -> S, known: (S, K) -> bool, key: E -> K): Replays<S>
  {
    if step.replay >= |s.cursors| then s
    else
      var cursor := s.cursors[step.replay];
      match step
      case Crash(r) => s.(cursors := s.cursors[r := 0])
      case Deliver(r, saved) =>
        if cursor >= |feed| then s
        else if known(s.store, key(feed[cursor])) then s.(cursors := s.cursors[r := cursor + 1])
        else if !saved then s.(cursors := s.cursors[r := 0])
        else Replays(s.cursors[r := cursor + 1], ingest(s.store, feed[cursor]))
  }

  ghost function Run<S, E, K>(
      start: S, steps: seq<ReplayStep>, replays: nat,
      feed: seq<E>, ingest: (S, E) -> S, known: (S, K) -> bool, key: E -> K): Replays<S>
  {
    if steps == [] then Replays(seq(replays, _ => 0), start)
    else
      var n := |steps| - 1;
      Next(Run(start, steps[..n], replays, feed, ingest, known, key), steps[n], feed, ingest, known, key)
  }

  /** The store is that of one clean pass up to the furthest position any replay has reached. */
  ghost predicate InStep<S, E>(s: Replays<S>, start: S, feed: seq<E>, ingest: (S, E) -> S, furthest: nat) {
    && furthest <= |feed|
    && s.store == Pass(start, feed[..furthest], ingest)
    && forall r :: 0 <= r < |s.cursors| ==> s.cursors[r] <= furthest
  }

  lemma {:induction false} NextInStep<S(!new), E(!new), K(!new)>(
      s: Replays<S>, step: ReplayStep, start: S, feed: seq<E>,
      ingest: (S, E) -> S, known: (S, K) -> bool, key: E -> K, furthest: nat)
    returns (reached: nat)
    requires Laws(ingest, known, key) && InStep(s, start, feed, ingest, furthest)
    ensures furthest <= reached && InStep(Next(s, step, feed, ingest, known, key), start, feed, ingest, reached)
  {
    reached := furthest;
    if step.Deliver? && step.replay < |s.cursors| && s.cursors[step.replay] < |feed| {
      var cursor := s.cursors[step.replay];
      KnownAfterPass(start, feed[..furthest], ingest, known, key, key(feed[cursor]));
      if cursor < furthest {
        assert key(feed[..furthest][cursor]) == key(feed[cursor]);
      } else if step.saved || known(s.store, key(feed[cursor])) {
        reached := cursor + 1;
        assert feed[..reached][..cursor] == feed[..cursor];
      }
    }
  }

  /**
   * Whatever the interleaving, the crashes and the failed saves: the store is what a pass over a
   * prefix leaves, and once some replay is through it is what one clean pass over the feed leaves.
   */
  lemma {:induction false} ReplaysEndLikeOnePass<S(!new), E(!new), K(!new)>(
      start: S, steps: seq<ReplayStep>, replays: nat, feed: seq<E>,
      ingest: (S, E) -> S, known: (S, K) -> bool, key: E -> K)
    returns (furthest: nat)
    requires Laws(ingest, known, key)
    ensures InStep(Run(start, steps, replays, feed, ingest, known, key), start, feed, ingest, furthest)
    ensures var s := Run(start, steps, replays, feed, ingest, known, key);
            (exists r :: 0 <= r < |s.cursors| && s.cursors[r] == |feed|) ==> s.store == Pass(start, feed, ingest)
  {
    if steps == [] {
      furthest := 0;
    } else {
      var n := |steps| - 1;
      var before := ReplaysEndLikeOnePass(start, steps[..n], replays, feed, ingest, known, key);
      furthest := NextInStep(
        Run(start, steps[..n], replays, feed, ingest, known, key), steps[n], start, feed, ingest, known, key, before);
    }
    assert feed[..|feed|] == feed;
  }
}
