/** Python's stable `sorted(mentions, key=received_at)`, one mention at a time. */
module StableSort {
  import opened Contracts

  ghost predicate Sorted(ms: seq<EventMention>) {
    forall i, j :: 0 <= i < j < |ms| ==> ms[i].receivedAt <= ms[j].receivedAt
  }

  /** Puts `m` behind every mention that was not received later. */
  function Insert(ms: seq<EventMention>, m: EventMention): seq<EventMention> {
    if ms == [] || ms[|ms| - 1].receivedAt <= m.receivedAt then ms + [m]
    else Insert(ms[..|ms| - 1], m) + [ms[|ms| - 1]]
  }

  function Sort(ms: seq<EventMention>): seq<EventMention> {
    if ms == [] then [] else Insert(Sort(ms[..|ms| - 1]), ms[|ms| - 1])
  }

  lemma {:induction false} InsertPermutes(ms: seq<EventMention>, m: EventMention)
    ensures multiset(Insert(ms, m)) == multiset(ms) + multiset{m}
    ensures |Insert(ms, m)| == |ms| + 1
  {
    if ms != [] && m.receivedAt < ms[|ms| - 1].receivedAt {
      InsertPermutes(ms[..|ms| - 1], m);
      assert ms == ms[..|ms| - 1] + [ms[|ms| - 1]];
    }
  }

  lemma {:induction false} SortPermutes(ms: seq<EventMention>)
    ensures multiset(Sort(ms)) == multiset(ms)
    ensures |Sort(ms)| == |ms|
    ensures forall m :: m in Sort(ms) <==> m in ms
  {
    if ms != [] {
      SortPermutes(ms[..|ms| - 1]);
      InsertPermutes(Sort(ms[..|ms| - 1]), ms[|ms| - 1]);
      assert ms == ms[..|ms| - 1] + [ms[|ms| - 1]];
    }
    assert forall m :: m in Sort(ms) <==> m in multiset(Sort(ms));
    assert forall m :: m in ms <==> m in multiset(ms);
  }

  /** The mentions received at `t`, in their order of appearance. */
  ghost function At(ms: seq<EventMention>, t: Time): seq<EventMention> {
    if ms == [] then []
    else
      var init, last := ms[..|ms| - 1], ms[|ms| - 1];
      At(init, t) + if last.receivedAt == t then [last] else []
  }

  lemma {:induction false} AtAppend(ms: seq<EventMention>, m: EventMention, t: Time)
    ensures At(ms + [m], t) == At(ms, t) + if m.receivedAt == t then [m] else []
  {
    assert (ms + [m])[..|ms|] == ms;
  }

  lemma {:induction false} AtNone(ms: seq<EventMention>, t: Time)
    requires forall m :: m in ms ==> m.receivedAt != t
    ensures At(ms, t) == []
  {
    if ms != [] {
      assert forall m :: m in ms[..|ms| - 1] ==> m in ms;
      AtNone(ms[..|ms| - 1], t);
    }
  }

  lemma {:induction false} InsertSorted(ms: seq<EventMention>, m: EventMention)
    requires Sorted(ms)
    ensures Sorted(Insert(ms, m))
  {
    if ms != [] && m.receivedAt < ms[|ms| - 1].receivedAt {
      var init, last := ms[..|ms| - 1], ms[|ms| - 1];
      InsertSorted(init, m);
      var r := Insert(init, m);
      InsertPermutes(init, m);
      forall i | 0 <= i < |r|
        ensures r[i].receivedAt <= last.receivedAt
      {
        assert r[i] in multiset(r);
        assert r[i] in multiset(init) || r[i] == m;
        if r[i] in multiset(init) {
          assert r[i] in init;
        }
      }
      assert Insert(ms, m) == r + [last];
    }
  }

  lemma {:induction false} InsertKeepsTies(ms: seq<EventMention>, m: EventMention, t: Time)
    ensures At(Insert(ms, m), t) == At(ms + [m], t)
  {
    if ms != [] && m.receivedAt < ms[|ms| - 1].receivedAt {
      var init, last := ms[..|ms| - 1], ms[|ms| - 1];
      var atLast := if last.receivedAt == t then [last] else [];
      var atM := if m.receivedAt == t then [m] else [];
      assert At(ms + [m], t) == (At(init, t) + atLast) + atM by { AtAppend(ms, m, t); }
      assert At(init + [m], t) == At(init, t) + atM by { AtAppend(init, m, t); }
      InsertKeepsTies(init, m, t);
      assert At(Insert(init, m) + [last], t) == At(Insert(init, m), t) + atLast by {
        AtAppend(Insert(init, m), last, t);
      }
      assert atLast == [] || atM == [];
    } else if ms == [] {
      assert ms + [m] == [m];
    }
  }

  /** `Sort` is sorted and keeps the arrival order of mentions received at one instant. */
  lemma {:induction false} SortIsStable(ms: seq<EventMention>)
    ensures Sorted(Sort(ms))
    ensures forall t :: At(Sort(ms), t) == At(ms, t)
  {
    if ms != [] {
      var init, last := ms[..|ms| - 1], ms[|ms| - 1];
      SortIsStable(init);
      InsertSorted(Sort(init), last);
      assert ms == init + [last];
      forall t
        ensures At(Sort(ms), t) == At(ms, t)
      {
        InsertKeepsTies(Sort(init), last, t);
        AtAppend(Sort(init), last, t);
      }
    }
  }

  /** A sorted sequence is determined by its groups of equal times, so there is one stable sort. */
  lemma {:induction false} StableSortIsUnique(a: seq<EventMention>, b: seq<EventMention>)
    requires Sorted(a) && Sorted(b)
    requires forall t :: At(a, t) == At(b, t)
    ensures a == b
  {
    if a == [] || b == [] {
      NoGroupsNoMentions(if a == [] then b else a);
    } else {
      var ta, tb := a[|a| - 1].receivedAt, b[|b| - 1].receivedAt;
      LastTimeCovers(a, b);
      LastTimeCovers(b, a);
      assert At(a, ta)[|At(a, ta)| - 1] == a[|a| - 1];
      assert At(b, tb)[|At(b, tb)| - 1] == b[|b| - 1];
      var x, y := a[..|a| - 1], b[..|b| - 1];
      forall t
        ensures At(x, t) == At(y, t)
      {
        assert At(a, t) == At(x, t) + if ta == t then [a[|a| - 1]] else [];
        assert At(b, t) == At(y, t) + if tb == t then [b[|b| - 1]] else [];
        assert At(x, t) == At(a, t)[..|At(x, t)|];
        assert At(y, t) == At(b, t)[..|At(y, t)|];
      }
      StableSortIsUnique(x, y);
      assert a == x + [a[|a| - 1]] && b == y + [b[|b| - 1]];
    }
  }

  lemma {:induction false} NoGroupsNoMentions(ms: seq<EventMention>)
    requires forall t :: At(ms, t) == []
    ensures ms == []
  {
    var lastGroup := if ms == [] then [] else At(ms, ms[|ms| - 1].receivedAt);
    assert lastGroup == [];
  }

  lemma {:induction false} LastTimeCovers(a: seq<EventMention>, b: seq<EventMention>)
    requires Sorted(a) && Sorted(b) && a != [] && b != []
    requires forall t :: At(a, t) == At(b, t)
    ensures a[|a| - 1].receivedAt <= b[|b| - 1].receivedAt
  {
    var t := a[|a| - 1].receivedAt;
    assert At(a, t) != [];
    if forall m :: m in b ==> m.receivedAt != t {
      AtNone(b, t);
    }
  }

  lemma {:induction false} SortOfSorted(ms: seq<EventMention>)
    requires Sorted(ms)
    ensures Sort(ms) == ms
  {
    SortIsStable(ms);
    StableSortIsUnique(Sort(ms), ms);
  }

  /** Sorting again after each arrival is the same as sorting the whole log once. */
  lemma {:induction false} OneAtATimeIsWholeLog(arrived: seq<EventMention>, m: EventMention)
    ensures Sort(Sort(arrived) + [m]) == Sort(arrived + [m])
  {
    SortIsStable(arrived);
    SortPermutes(arrived);
    SortOfSorted(Sort(arrived));
    assert (Sort(arrived) + [m])[..|arrived|] == Sort(arrived);
    assert (arrived + [m])[..|arrived|] == arrived;
  }
}
