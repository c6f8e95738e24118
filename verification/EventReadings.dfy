/**
 * Feeds of live sources: at every reading the items may come with other texts, times and raw ids, and
 * only their identity keys are the same. Then the identities that are committed do not depend on it.
 */
module EventReadings {
  import opened EventClustering
  import opened Contracts
  import opened EventLog
  import opened Redelivery
  import opened EventReplay

  /** A step of some replay, and the feed as its source would give it now. */
  datatype Reading = Reading(step: ReplayStep, feed: seq<RawEnvelope>)

  function KeysOf(feed: seq<RawEnvelope>): seq<IdentityKey> {
    seq(|feed|, i requires 0 <= i < |feed| => KeyOf(feed[i]))
  }

  ghost function RunReadings(readings: seq<Reading>, replays: nat, ids: IdSupply): Replays<Log> {
    if readings == [] then Replays(seq(replays, _ => 0), [])
    else
      var n := |readings| - 1;
      Next(RunReadings(readings[..n], replays, ids), readings[n].step, readings[n].feed, Ingest(ids), Known, KeyOf)
  }

  ghost predicate SameKeys(readings: seq<Reading>, keys: seq<IdentityKey>) {
    forall i :: 0 <= i < |readings| ==> KeysOf(readings[i].feed) == keys
  }

  /** Exactly the first `furthest` keys are known, and no replay is beyond them. */
  ghost predicate KnowsFirst(s: Replays<Log>, keys: seq<IdentityKey>, furthest: nat) {
    && furthest <= |keys|
    && (forall key :: Known(s.store, key) <==> key in keys[..furthest])
    && forall r :: 0 <= r < |s.cursors| ==> s.cursors[r] <= furthest
  }

  /** No identity is committed twice. */
  ghost predicate CommitsOnce(log: Log) {
    forall i, j :: 0 <= i < j < |log| ==> KeyOf(log[i].env) != KeyOf(log[j].env)
  }

  lemma {:induction false} IngestCommitsOnce(log: Log, env: RawEnvelope, ids: IdSupply)
    requires CommitsOnce(log)
    ensures CommitsOnce(IngestOne(log, env, ids))
  {
    KeysAreAScan(log, KeyOf(env));
  }

  lemma {:induction false} FirstsGrow(keys: seq<IdentityKey>, n: nat)
    requires n < |keys|
    ensures keys[..n + 1] == keys[..n] + [keys[n]]
  {
  }

  lemma {:induction false} ReadingStep(s: Replays<Log>, reading: Reading, keys: seq<IdentityKey>, ids: IdSupply, furthest: nat)
    returns (reached: nat)
    requires KeysOf(reading.feed) == keys && KnowsFirst(s, keys, furthest) && CommitsOnce(s.store)
    ensures var next := Next(s, reading.step, reading.feed, Ingest(ids), Known, KeyOf);
            KnowsFirst(next, keys, reached) && CommitsOnce(next.store)
  {
    reached := furthest;
    var step, feed := reading.step, reading.feed;
    if step.Deliver? && step.replay < |s.cursors| && s.cursors[step.replay] < |feed| {
      var cursor := s.cursors[step.replay];
      var key := KeyOf(feed[cursor]);
      assert keys[cursor] == key;
      IngestObeysLaws(ids);
      IngestCommitsOnce(s.store, feed[cursor], ids);
      if cursor < furthest {
        assert keys[..furthest][cursor] == key;
      } else if step.saved || Known(s.store, key) {
        reached := cursor + 1;
        FirstsGrow(keys, cursor);
      }
    }
  }

  /**
   * Whatever the readings bring, whatever the interleaving, the crashes and the failed saves: the committed
   * identities are those of the first items of the feed, each committed once, and all of them once some
   * replay is through.
   */
  lemma {:induction false} ReadingsCommitTheSameKeys(
      readings: seq<Reading>, replays: nat, keys: seq<IdentityKey>, ids: IdSupply)
    returns (furthest: nat)
    requires SameKeys(readings, keys)
    ensures var s := RunReadings(readings, replays, ids);
            && KnowsFirst(s, keys, furthest) && CommitsOnce(s.store)
            && ((exists r :: 0 <= r < |s.cursors| && s.cursors[r] == |keys|) ==>
                 forall key :: Known(s.store, key) <==> key in keys)
  {
    if readings == [] {
      furthest := 0;
    } else {
      var n := |readings| - 1;
      var before := ReadingsCommitTheSameKeys(readings[..n], replays, keys, ids);
      furthest := ReadingStep(RunReadings(readings[..n], replays, ids), readings[n], keys, ids, before);
    }
    assert keys[..|keys|] == keys;
  }
}
