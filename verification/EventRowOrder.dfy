/**
 * The queries of `load_state` and `load_event_version` have no ORDER BY. Other modules read mention
 * rows in insertion order; here is what any other order of the same rows can change.
 */
module EventRowOrder {
  import opened Common
  import opened Contracts
  import opened EventTables
  import opened StableSort

  lemma {:induction false} MentionsForParts(a: seq<EventMentionRow>, b: seq<EventMentionRow>, id: EventId, upTo: Option<nat>)
    ensures MentionsFor(a + b, id, upTo) == MentionsFor(a, id, upTo) + MentionsFor(b, id, upTo)
  {
    if b == [] {
      assert a + b == a;
    } else {
      var init, last := b[..|b| - 1], b[|b| - 1];
      assert a + b == (a + init) + [last] && b == init + [last];
      MentionsForParts(a, init, id, upTo);
      MentionsForAppend(a + init, last, id, upTo);
      MentionsForAppend(init, last, id, upTo);
    }
  }

  lemma {:induction false} SplitOut<T>(left: seq<T>, x: T, right: seq<T>)
    ensures multiset(left + [x] + right) == multiset(left + right) + multiset{x}
  {
  }

  lemma {:induction false} TakeOut<T>(init: seq<T>, x: T, b: seq<T>) returns (left: seq<T>, right: seq<T>)
    requires multiset(init + [x]) == multiset(b)
    ensures b == left + [x] + right
    ensures multiset(init) == multiset(left + right)
  {
    SplitOut(init, x, []);
    assert init + [x] + [] == init + [x] && init + [] == init;
    assert x in multiset(b);
    var k :| 0 <= k < |b| && b[k] == x;
    left, right := b[..k], b[k + 1..];
    assert b == left + [x] + right;
    SplitOut(left, x, right);
    Cancel(multiset(init), multiset(left + right), multiset{x});
  }

  lemma {:induction false} Cancel<T>(a: multiset<T>, b: multiset<T>, c: multiset<T>)
    requires a + c == b + c
    ensures a == b
  {
    assert a == (a + c) - c && b == (b + c) - c;
  }

  lemma {:induction false} MentionsWith(
      left: seq<EventMentionRow>, row: EventMentionRow, right: seq<EventMentionRow>, id: EventId, upTo: Option<nat>)
    ensures multiset(MentionsFor(left + [row] + right, id, upTo))
            == multiset(MentionsFor(left + right, id, upTo)) + multiset(MentionsFor([row], id, upTo))
  {
    MentionsForParts(left + [row], right, id, upTo);
    MentionsForParts(left, [row], id, upTo);
    MentionsForParts(left, right, id, upTo);
  }

  /** The mentions found depend on the rows only, not on their order. */
  lemma {:induction false} SameRowsSameMentions(a: seq<EventMentionRow>, b: seq<EventMentionRow>, id: EventId, upTo: Option<nat>)
    requires multiset(a) == multiset(b)
    ensures multiset(MentionsFor(a, id, upTo)) == multiset(MentionsFor(b, id, upTo))
  {
    if a == [] {
      assert |multiset(b)| == 0;
      assert b == [];
    } else {
      var init, last := a[..|a| - 1], a[|a| - 1];
      assert a == init + [last];
      var left, right := TakeOut(init, last, b);
      SameRowsSameMentions(init, left + right, id, upTo);
      MentionsWith(left, last, right, id, upTo);
      MentionsForParts(init, [last], id, upTo);
    }
  }

  ghost predicate DistinctTimes(ms: seq<EventMention>) {
    forall i, j :: 0 <= i < j < |ms| ==> ms[i].receivedAt != ms[j].receivedAt
  }

  /** With distinct times a group holds the one mention of its time. */
  lemma {:induction false} GroupOfOne(ms: seq<EventMention>, m: EventMention)
    requires DistinctTimes(ms) && m in ms
    ensures At(ms, m.receivedAt) == [m]
  {
    var init, last := ms[..|ms| - 1], ms[|ms| - 1];
    assert ms == init + [last];
    if m == last {
      AtNone(init, m.receivedAt);
    } else {
      GroupOfOne(init, m);
    }
  }

  lemma {:induction false} PermutationKeepsDistinct(a: seq<EventMention>, b: seq<EventMention>)
    requires multiset(a) == multiset(b) && DistinctTimes(a)
    ensures DistinctTimes(b)
  {
    if i, j :| 0 <= i < j < |b| && b[i].receivedAt == b[j].receivedAt {
      var m, n := b[i], b[j];
      assert m in multiset(a) && n in multiset(a);
      GroupOfOne(a, m);
      GroupOfOne(a, n);
      assert m == n;
      assert b == b[..i] + [m] + b[i + 1..j] + [m] + b[j + 1..];
      assert multiset(b)[m] >= 2;
      OccursOnce(a, m);
    }
  }

  lemma {:induction false} OccursOnce(ms: seq<EventMention>, m: EventMention)
    requires DistinctTimes(ms) && m in ms
    ensures multiset(ms)[m] == 1
  {
    var k :| 0 <= k < |ms| && ms[k] == m;
    assert ms == ms[..k] + [m] + ms[k + 1..];
    assert m !in ms[..k] && m !in ms[k + 1..];
    assert m !in multiset(ms[..k]) && m !in multiset(ms[k + 1..]);
  }

  /** If no two mentions were received at one instant, the order of the rows does not show at all. */
  lemma {:induction false} DistinctTimesSortAlike(a: seq<EventMention>, b: seq<EventMention>)
    requires multiset(a) == multiset(b) && DistinctTimes(a)
    ensures Sort(a) == Sort(b)
  {
    PermutationKeepsDistinct(a, b);
    SortIsStable(a);
    SortIsStable(b);
    forall t
      ensures At(a, t) == At(b, t)
    {
      if m :| m in a && m.receivedAt == t {
        assert m in multiset(b);
        GroupOfOne(a, m);
        GroupOfOne(b, m);
      } else {
        AtNone(a, t);
        forall x | x in b
          ensures x.receivedAt != t
        {
          assert x in multiset(a);
        }
        AtNone(b, t);
      }
    }
    StableSortIsUnique(Sort(a), Sort(b));
  }

  /**
   * Whatever order the mention rows come in, a version read has the same mentions, sorted; and it is
   * the very same event if the mentions were received at distinct times.
   */
  lemma {:induction false} RowOrderOnlyMovesTies(t: Tables, other: seq<EventMentionRow>, id: EventId, v: nat)
    requires multiset(other) == multiset(t.mentionRows)
    ensures var a, b := LoadEventVersion(t, id, v), LoadEventVersion(t.(mentionRows := other), id, v);
            && (a.Some? <==> b.Some?)
            && (a.Some? ==>
                 && b.value.(mentions := a.value.mentions) == a.value
                 && multiset(a.value.mentions) == multiset(b.value.mentions)
                 && Sorted(a.value.mentions) && Sorted(b.value.mentions)
                 && (DistinctTimes(MentionsFor(t.mentionRows, id, Some(v))) ==> a == b))
  {
    var x, y := MentionsFor(t.mentionRows, id, Some(v)), MentionsFor(other, id, Some(v));
    SameRowsSameMentions(t.mentionRows, other, id, Some(v));
    SortPermutes(x);
    SortPermutes(y);
    SortIsStable(x);
    SortIsStable(y);
    if DistinctTimes(x) {
      DistinctTimesSortAlike(x, y);
    }
  }
}
