/** The order in which releases apply their files, and when an upgrade is a fresh install. */
module MigrationOrder {
  import opened Common
  import opened Migrations

  /** Python's order on file names. */
  predicate Before(a: string, b: string) {
    b != [] && (a == [] || a[0] < b[0] || (a[0] == b[0] && Before(a[1..], b[1..])))
  }

  lemma {:induction false} BeforeIsStrict(a: string, b: string, c: string)
    ensures !Before(a, a)
    ensures Before(a, b) && Before(b, c) ==> Before(a, c)
  {
    if a != [] && b != [] && c != [] {
      BeforeIsStrict(a[1..], b[1..], c[1..]);
    } else if a != [] {
      BeforeIsStrict(a[1..], [], []);
    }
  }

  /** The names agree up to position `k`, where the first one ends or has the smaller character. */
  ghost predicate SmallerAt(a: string, b: string, k: nat) {
    k <= |a| && k < |b| && a[..k] == b[..k] && (k == |a| || a[k] < b[k])
  }

  lemma {:induction false} BeforeIsExact(a: string, b: string)
    ensures Before(a, b) <==> exists k: nat :: SmallerAt(a, b, k)
  {
    if a == [] || b == [] || a[0] != b[0] {
      if Before(a, b) {
        assert SmallerAt(a, b, 0);
      }
    } else {
      BeforeIsExact(a[1..], b[1..]);
      if k: nat :| SmallerAt(a[1..], b[1..], k) {
        assert a[..k + 1] == [a[0]] + a[1..][..k] && b[..k + 1] == [b[0]] + b[1..][..k];
        assert SmallerAt(a, b, k + 1);
      }
      if k: nat :| SmallerAt(a, b, k) {
        assert k > 0;
        assert a[1..][..k - 1] == a[..k][1..] && b[1..][..k - 1] == b[..k][1..];
        assert SmallerAt(a[1..], b[1..], k - 1);
      }
    }
  }

  ghost predicate SortedNames(names: seq<string>) {
    forall i, j :: 0 <= i < j < |names| ==> Before(names[i], names[j])
  }

  /** What an upgrade applies: the names of the newer release that the older one lacks, in order. */
  function Missing(newer: seq<string>, older: seq<string>): seq<string> {
    if newer == [] then []
    else
      Missing(newer[..|newer| - 1], older) + if newer[|newer| - 1] in older then [] else [newer[|newer| - 1]]
  }

  lemma {:induction false} MissingAppend(a: seq<string>, b: seq<string>, older: seq<string>)
    ensures Missing(a + b, older) == Missing(a, older) + Missing(b, older)
  {
    if b == [] {
      assert a + b == a;
    } else {
      var all := a + b;
      assert all[..|all| - 1] == a + b[..|b| - 1] && all[|all| - 1] == b[|b| - 1];
      MissingAppend(a, b[..|b| - 1], older);
    }
  }

  lemma {:induction false} MissingAll(names: seq<string>, older: seq<string>, present: bool)
    requires forall name :: name in names ==> (name in older <==> present)
    ensures Missing(names, older) == if present then [] else names
  {
    if names != [] {
      var init, last := names[..|names| - 1], names[|names| - 1];
      assert names == init + [last];
      MissingAll(init, older, present);
    }
  }

  /** Every added migration sorts after every old one. */
  ghost predicate AddsAfter(older: seq<string>, newer: seq<string>) {
    forall a, o :: a in newer && a !in older && o in older ==> Before(o, a)
  }

  lemma {:induction false} AfterMeansPrefix(older: seq<string>, newer: seq<string>, i: nat)
    requires SortedNames(older) && SortedNames(newer) && i <= |older|
    requires forall o :: o in older ==> o in newer
    requires AddsAfter(older, newer)
    ensures i <= |newer| && newer[..i] == older[..i]
  {
    if i > 0 {
      AfterMeansPrefix(older, newer, i - 1);
      var o := older[i - 1];
      assert o in newer;
      var j :| 0 <= j < |newer| && newer[j] == o;
      PositionOf(older, newer, i - 1, j);
      assert newer[..i] == newer[..i - 1] + [newer[i - 1]] && older[..i] == older[..i - 1] + [older[i - 1]];
    }
  }

  lemma {:induction false} SamePrefix(older: seq<string>, newer: seq<string>, i: nat, k: nat)
    requires k < i <= |older| && i <= |newer| && newer[..i] == older[..i]
    ensures newer[k] == older[k]
  {
    assert newer[k] == newer[..i][k] && older[k] == older[..i][k];
  }

  lemma {:induction false} PositionOf(older: seq<string>, newer: seq<string>, i: nat, j: nat)
    requires SortedNames(older) && SortedNames(newer) && AddsAfter(older, newer)
    requires i < |older| && j < |newer| && newer[j] == older[i] && i <= |newer| && newer[..i] == older[..i]
    ensures j == i
  {
    var o := older[i];
    BeforeIsStrict(o, o, o);
    if j < i {
      SamePrefix(older, newer, i, j);
    } else if j > i {
      var x := newer[i];
      BeforeIsStrict(x, o, x);
      if k :| 0 <= k < |older| && older[k] == x {
        if k < i {
          SamePrefix(older, newer, i, k);
        }
      }
    }
  }

  lemma {:induction false} RestIsAdded(older: seq<string>, newer: seq<string>, name: string)
    requires SortedNames(newer) && |older| <= |newer| && newer[..|older|] == older && name in newer[|older|..]
    ensures name !in older
  {
    var n := |older|;
    var i :| n <= i < |newer| && newer[i] == name;
    BeforeIsStrict(name, name, name);
    forall k | 0 <= k < n
      ensures older[k] != name
    {
      SamePrefix(older, newer, n, k);
      assert Before(newer[k], newer[i]);
    }
  }

  lemma {:induction false} AfterMeansFreshOrder(older: seq<string>, newer: seq<string>)
    requires SortedNames(older) && SortedNames(newer) && AddsAfter(older, newer)
    requires forall o :: o in older ==> o in newer
    ensures older + Missing(newer, older) == newer
  {
    var n := |older|;
    AfterMeansPrefix(older, newer, n);
    assert older[..n] == older && newer == older + newer[n..];
    forall name | name in newer[n..]
      ensures name !in older
    {
      RestIsAdded(older, newer, name);
    }
    MissingRest(older, newer[n..]);
  }

  lemma {:induction false} MissingRest(older: seq<string>, rest: seq<string>)
    requires forall name :: name in rest ==> name !in older
    ensures Missing(older + rest, older) == rest
  {
    MissingAppend(older, rest, older);
    MissingAll(older, older, true);
    MissingAll(rest, older, false);
  }

  lemma {:induction false} FreshOrderMeansAfter(older: seq<string>, newer: seq<string>)
    requires SortedNames(newer) && older + Missing(newer, older) == newer
    ensures AddsAfter(older, newer)
  {
    forall a, o | a in newer && a !in older && o in older
      ensures Before(o, a)
    {
      var i :| 0 <= i < |newer| && newer[i] == a;
      var k :| 0 <= k < |older| && older[k] == o;
      assert newer[k] == o;
      assert i < |older| ==> newer[i] == older[i];
    }
  }

  /**
   * Applying an older release and then a newer one runs the migrations in the order of a fresh install
   * of the newer if and only if the newer one adds only names that sort after the old ones.
   */
  lemma {:induction false} UpgradeOrderIff(older: seq<string>, newer: seq<string>)
    requires SortedNames(older) && SortedNames(newer)
    requires forall o :: o in older ==> o in newer
    ensures older + Missing(newer, older) == newer <==> AddsAfter(older, newer)
  {
    if AddsAfter(older, newer) {
      AfterMeansFreshOrder(older, newer);
    }
    if older + Missing(newer, older) == newer {
      FreshOrderMeansAfter(older, newer);
    }
  }

  ghost predicate SameFile(a: Migration, b: Migration) {
    a.name == b.name && a.checksum == b.checksum && a.statements == b.statements
  }

  /** Every file of the older release is in the newer one, unchanged. */
  ghost predicate KeepsFiles(older: seq<Migration>, newer: seq<Migration>) {
    forall i :: 0 <= i < |older| ==> exists j :: 0 <= j < |newer| && SameFile(newer[j], older[i])
  }

  lemma {:induction false} SortedIsRelease(release: seq<Migration>)
    requires SortedNames(Names(release))
    ensures IsRelease(release)
  {
    forall i, j | 0 <= i < j < |release|
      ensures release[i].name != release[j].name
    {
      assert Before(Names(release)[i], Names(release)[j]);
      BeforeIsStrict(release[i].name, release[i].name, release[i].name);
    }
  }

  lemma {:induction false} KeptNames(older: seq<Migration>, newer: seq<Migration>)
    requires KeepsFiles(older, newer)
    ensures forall o :: o in Names(older) ==> o in Names(newer)
  {
    forall o | o in Names(older)
      ensures o in Names(newer)
    {
      var i :| 0 <= i < |older| && Names(older)[i] == o;
      var j :| 0 <= j < |newer| && SameFile(newer[j], older[i]);
      assert Names(newer)[j] == o;
    }
  }

  lemma {:induction false} KeptFileAt(older: seq<Migration>, newer: seq<Migration>, i: nat)
    requires KeepsFiles(older, newer) && SortedNames(Names(newer))
    requires i < |older| <= |newer| && Names(newer)[..|older|] == Names(older)
    ensures SameFile(newer[i], older[i])
  {
    var j :| 0 <= j < |newer| && SameFile(newer[j], older[i]);
    assert Names(newer)[i] == Names(newer)[..|older|][i] == Names(older)[i];
    SortedIsRelease(newer);
    assert newer[i].name == newer[j].name;
  }

  /**
   * Releases list their files by name. A newer release that keeps the files of an older one continues
   * it, in the sense the upgrade theorem asks for, if and only if its added names sort after the old ones.
   */
  lemma {:induction false} ContinuesIff(older: seq<Migration>, newer: seq<Migration>)
    requires SortedNames(Names(older)) && SortedNames(Names(newer)) && KeepsFiles(older, newer)
    ensures Extends(older, newer) <==> AddsAfter(Names(older), Names(newer))
    ensures IsRelease(older) && IsRelease(newer)
  {
    SortedIsRelease(older);
    SortedIsRelease(newer);
    KeptNames(older, newer);
    if AddsAfter(Names(older), Names(newer)) {
      AfterMeansPrefix(Names(older), Names(newer), |older|);
      assert Names(older)[..|older|] == Names(older);
      forall i | 0 <= i < |older|
        ensures SameFile(newer[i], older[i])
      {
        KeptFileAt(older, newer, i);
      }
    }
    if Extends(older, newer) {
      ContinuedNames(older, newer);
    }
  }

  lemma {:induction false} ContinuedNames(older: seq<Migration>, newer: seq<Migration>)
    requires SortedNames(Names(newer)) && Extends(older, newer)
    ensures AddsAfter(Names(older), Names(newer))
  {
    forall k | 0 <= k < |older|
      ensures Names(newer)[k] == Names(older)[k] && Names(newer)[k] in Names(older)
    {
      assert Names(newer)[k] == Names(older)[k];
    }
    forall a, o | a in Names(newer) && a !in Names(older) && o in Names(older)
      ensures Before(o, a)
    {
      var i :| 0 <= i < |newer| && Names(newer)[i] == a;
      var k :| 0 <= k < |older| && Names(older)[k] == o;
      assert Names(newer)[k] == o;
    }
  }

  lemma {:induction false} WalkAppliesMissing(
      ledger: map<string, nat>, executed: seq<string>, release: seq<Migration>, n: nat, rejects: set<string>, older: seq<string>)
    requires n <= |release| && Walk(ledger, executed, release, n, rejects).Ok?
    requires forall name :: name in ledger <==> name in older
    ensures Walk(ledger, executed, release, n, rejects).value.applied == Missing(Names(release)[..n], older)
  {
    if n > 0 {
      WalkAppliesMissing(ledger, executed, release, n - 1, rejects, older);
      assert Names(release)[..n][..n - 1] == Names(release)[..n - 1];
    }
  }

  /** A run that is not refused applies exactly the missing migrations, in the order of their names. */
  lemma {:induction false} AppliesMissing(s: Schema, release: seq<Migration>, rejects: set<string>, older: seq<string>)
    requires s.ledger.Present? && Apply(s, release, rejects).1.Ok?
    requires forall name :: name in s.ledger.rows <==> name in older
    ensures Apply(s, release, rejects).1.value == Missing(Names(release), older)
  {
    WalkAppliesMissing(s.ledger.rows, s.executed, release, |release|, rejects, older);
    assert Names(release)[..|release|] == Names(release);
  }

  // ---- the next run ----

  /** The statements of the files that the older release lacks, in order. */
  function MissingStatements(release: seq<Migration>, older: seq<string>): seq<string> {
    if release == [] then []
    else
      MissingStatements(release[..|release| - 1], older)
      + if release[|release| - 1].name in older then [] else release[|release| - 1].statements
  }

  lemma {:induction false} WalkExecutesMissing(
      ledger: map<string, nat>, executed: seq<string>, release: seq<Migration>, n: nat, rejects: set<string>, older: seq<string>)
    requires n <= |release| && Walk(ledger, executed, release, n, rejects).Ok?
    requires forall name :: name in ledger <==> name in older
    ensures Walk(ledger, executed, release, n, rejects).value.executed == executed + MissingStatements(release[..n], older)
  {
    if n > 0 {
      WalkExecutesMissing(ledger, executed, release, n - 1, rejects, older);
      assert release[..n][..n - 1] == release[..n - 1];
    }
  }

  lemma {:induction false} WalkRows(
      ledger: map<string, nat>, executed: seq<string>, release: seq<Migration>, n: nat, rejects: set<string>)
    requires IsRelease(release) && n <= |release| && Walk(ledger, executed, release, n, rejects).Ok?
    ensures RowsAfter(Walk(ledger, executed, release, n, rejects).value.rows, ledger, release, n)
    ensures forall name :: name in ledger && name !in Names(release[..n]) ==>
              Walk(ledger, executed, release, n, rejects).value.rows[name] == ledger[name]
  {
    if n > 0 {
      var k := n - 1;
      WalkRows(ledger, executed, release, k, rejects);
      var before := Walk(ledger, executed, release, k, rejects).value;
      RowsOneMore(before.rows, ledger, release, k);
      NameAt(release, k, k);
      if release[k].name in ledger && ledger[release[k].name] == release[k].checksum {
        SameRows(before.rows, release[k].name);
      }
      assert n == k + 1;
    }
  }

  lemma {:induction false} AcceptedFiles(release: seq<Migration>, rejects: set<string>)
    requires forall i :: 0 <= i < |release| ==> AllAccepted(release[i].statements, rejects)
    ensures AllAccepted(AllStatements(release), rejects)
  {
    if release != [] {
      AcceptedFiles(release[..|release| - 1], rejects);
    }
  }

  lemma {:induction false} KeptFilesAreAccepted(older: seq<Migration>, newer: seq<Migration>, rejects: set<string>)
    requires KeepsFiles(older, newer) && AllAccepted(AllStatements(newer), rejects)
    ensures AllAccepted(AllStatements(older), rejects)
  {
    forall i | 0 <= i < |older|
      ensures AllAccepted(older[i].statements, rejects)
    {
      var j :| 0 <= j < |newer| && SameFile(newer[j], older[i]);
      AcceptedPart(newer, j + 1, rejects);
    }
    AcceptedFiles(older, rejects);
  }

  /** A kept file is the one of its name. */
  lemma {:induction false} KeptFile(older: seq<Migration>, newer: seq<Migration>, i: nat, j: nat)
    requires KeepsFiles(older, newer) && IsRelease(newer)
    requires i < |older| && j < |newer| && newer[j].name == older[i].name
    ensures SameFile(newer[j], older[i])
  {
    var k :| 0 <= k < |newer| && SameFile(newer[k], older[i]);
    assert k == j;
  }

  /** What an older release has installed is no obstacle to a newer one that keeps its files. */
  lemma {:induction false} NothingRefused(older: seq<Migration>, newer: seq<Migration>, executed: seq<string>, rejects: set<string>)
    requires IsRelease(older) && IsRelease(newer) && KeepsFiles(older, newer) && AllAccepted(AllStatements(newer), rejects)
    ensures Walk(Canonical(older), executed, newer, |newer|, rejects).Ok?
    ensures forall name :: name in Canonical(older) <==> name in Names(older)
    ensures forall name :: name in Canonical(older) ==> name in Names(newer)
  {
    CanonicalRows(older);
    KeptNames(older, newer);
    forall j | 0 <= j < |newer|
      ensures !Tampered(newer[j], Canonical(older)) && !Rejected(newer[j], Canonical(older), rejects)
    {
      AcceptedPart(newer, j + 1, rejects);
      if newer[j].name in Names(older) {
        var i :| 0 <= i < |older| && Names(older)[i] == newer[j].name;
        KeptFile(older, newer, i, j);
      }
    }
    WalkFailsIff(Canonical(older), executed, newer, |newer|, rejects);
  }

  /** The run of a newer release on what an older one recorded, whatever has been executed and wherever new names sort. */
  lemma {:induction false} NextRun(older: seq<Migration>, newer: seq<Migration>, executed: seq<string>, rejects: set<string>)
    requires IsRelease(older) && IsRelease(newer) && KeepsFiles(older, newer) && AllAccepted(AllStatements(newer), rejects)
    ensures Apply(Schema(Present(LEDGER_COLUMNS, Canonical(older)), {}, executed), newer, rejects)
            == (Schema(Present(LEDGER_COLUMNS, Canonical(newer)), {}, executed + MissingStatements(newer, Names(older))),
                Ok(Missing(Names(newer), Names(older))))
  {
    var ledger := Canonical(older);
    NothingRefused(older, newer, executed, rejects);
    WalkAppliesMissing(ledger, executed, newer, |newer|, rejects, Names(older));
    WalkExecutesMissing(ledger, executed, newer, |newer|, rejects, Names(older));
    WalkRows(ledger, executed, newer, |newer|, rejects);
    assert newer[..|newer|] == newer && Names(newer)[..|newer|] == Names(newer);
    AllRowsCanonical(Walk(ledger, executed, newer, |newer|, rejects).value.rows, ledger, newer);
  }

  // ---- a chain of releases against one ----

  /** Each release lists its files by name, and keeps those of the release before it. */
  ghost predicate KeepingChain(releases: seq<seq<Migration>>) {
    && (forall i :: 0 <= i < |releases| ==> SortedNames(Names(releases[i])))
    && (forall i, j :: 0 <= i < j < |releases| && j == i + 1 ==> KeepsFiles(releases[i], releases[j]))
  }

  /** Every release adds only names that sort after those of the release before it. */
  ghost predicate EachAddsAfter(releases: seq<seq<Migration>>) {
    forall i, j :: 0 <= i < j < |releases| && j == i + 1 ==> AddsAfter(Names(releases[i]), Names(releases[j]))
  }

  /** The names of the files applied by one run for each release, in order. */
  function AppliedBy(releases: seq<seq<Migration>>, rejects: set<string>): seq<string> {
    if releases == [] then []
    else
      var n := |releases| - 1;
      var result := Apply(Upgrade(releases[..n], rejects), releases[n], rejects).1;
      AppliedBy(releases[..n], rejects) + if result.Ok? then result.value else []
  }

  lemma {:induction false} FirstRun(releases: seq<seq<Migration>>, rejects: set<string>)
    requires |releases| == 1 && IsRelease(releases[0]) && AllAccepted(AllStatements(releases[0]), rejects)
    ensures Upgrade(releases, rejects) == Schema(Present(LEDGER_COLUMNS, Canonical(releases[0])), {}, AllStatements(releases[0]))
    ensures AppliedBy(releases, rejects) == Names(releases[0])
  {
    FreshInstall(releases[0], rejects);
    assert releases[..0] == [];
  }

  /** The last run of a chain whose earlier runs recorded the release before it. */
  lemma {:induction false} LastRun(
      releases: seq<seq<Migration>>, init: seq<seq<Migration>>, older: seq<Migration>, newer: seq<Migration>,
      executed: seq<string>, rejects: set<string>)
    requires releases == init + [newer] && init != []
    requires IsRelease(older) && IsRelease(newer) && KeepsFiles(older, newer) && AllAccepted(AllStatements(newer), rejects)
    requires Upgrade(init, rejects) == Schema(Present(LEDGER_COLUMNS, Canonical(older)), {}, executed)
    ensures Upgrade(releases, rejects)
            == Schema(Present(LEDGER_COLUMNS, Canonical(newer)), {}, executed + MissingStatements(newer, Names(older)))
    ensures AppliedBy(releases, rejects) == AppliedBy(init, rejects) + Missing(Names(newer), Names(older))
  {
    assert releases[..|releases| - 1] == init;
    NextRun(older, newer, executed, rejects);
  }

  lemma {:induction false} MissingElements(newer: seq<string>, older: seq<string>)
    ensures forall name :: name in Missing(newer, older) <==> name in newer && name !in older
  {
    if newer != [] {
      MissingElements(newer[..|newer| - 1], older);
      assert newer == newer[..|newer| - 1] + [newer[|newer| - 1]];
    }
  }

  /** The last release and the chain before it. */
  lemma {:induction false} ChainBeforeLast(releases: seq<seq<Migration>>, rejects: set<string>)
    requires |releases| > 1 && KeepingChain(releases) && AllAccepted(AllStatements(releases[|releases| - 1]), rejects)
    ensures var n := |releases| - 1;
            && KeepingChain(releases[..n]) && KeepsFiles(releases[n - 1], releases[n])
            && IsRelease(releases[n - 1]) && IsRelease(releases[n])
            && AllAccepted(AllStatements(releases[n - 1]), rejects)
            && releases == releases[..n] + [releases[n]]
  {
    var n := |releases| - 1;
    SortedIsRelease(releases[n - 1]);
    SortedIsRelease(releases[n]);
    KeptFilesAreAccepted(releases[n - 1], releases[n], rejects);
  }

  /** After a chain the ledger is that of the last release, and its files are those that were applied. */
  lemma {:induction false} ChainRuns(releases: seq<seq<Migration>>, rejects: set<string>)
    requires releases != [] && KeepingChain(releases) && AllAccepted(AllStatements(releases[|releases| - 1]), rejects)
    ensures var last, s := releases[|releases| - 1], Upgrade(releases, rejects);
            && IsRelease(last)
            && s == Schema(Present(LEDGER_COLUMNS, Canonical(last)), {}, StatementsOf(AppliedBy(releases, rejects), last))
            && forall name :: name in AppliedBy(releases, rejects) <==> name in Names(last)
  {
    var n := |releases| - 1;
    SortedIsRelease(releases[n]);
    if n == 0 {
      FirstRun(releases, rejects);
      StatementsOfAll(releases[0], |releases[0]|);
      assert Names(releases[0])[..|releases[0]|] == Names(releases[0]) && releases[0][..|releases[0]|] == releases[0];
    } else {
      var init, older, newer := releases[..n], releases[n - 1], releases[n];
      ChainBeforeLast(releases, rejects);
      ChainRuns(init, rejects);
      LastRun(releases, init, older, newer, StatementsOf(AppliedBy(init, rejects), older), rejects);
      KeptNames(older, newer);
      MissingElements(Names(newer), Names(older));
      StatementsOfChain(older, newer, AppliedBy(init, rejects));
    }
  }

  lemma {:induction false} SortedByElements(a: seq<string>, b: seq<string>)
    requires SortedNames(a) && SortedNames(b) && forall name :: name in a <==> name in b
    ensures a == b
  {
    AfterMeansPrefix(a, b, |a|);
    AfterMeansPrefix(b, a, |b|);
    assert a[..|a|] == a && b[..|b|] == b;
  }

  /** If a chain applied files in the order of their names, so did the chain before its last release. */
  lemma {:induction false} OrderSoFar(applied: seq<string>, older: seq<string>, newer: seq<string>)
    requires SortedNames(older) && SortedNames(newer) && applied + Missing(newer, older) == newer
    requires forall name :: name in applied <==> name in older
    ensures applied == older
  {
    forall i, j | 0 <= i < j < |applied|
      ensures Before(applied[i], applied[j])
    {
      assert newer[i] == applied[i] && newer[j] == applied[j];
    }
    SortedByElements(applied, older);
  }

  /**
   * The order over any chain: one run for each release applies the files in the order of one fresh install
   * of the last release if and only if each release adds only names that sort after the older ones.
   */
  lemma {:induction false} ChainOrderIff(releases: seq<seq<Migration>>, rejects: set<string>)
    requires releases != [] && KeepingChain(releases) && AllAccepted(AllStatements(releases[|releases| - 1]), rejects)
    ensures Apply(EMPTY_SCHEMA, releases[|releases| - 1], rejects).1 == Ok(Names(releases[|releases| - 1]))
    ensures AppliedBy(releases, rejects) == Names(releases[|releases| - 1]) <==> EachAddsAfter(releases)
  {
    var n := |releases| - 1;
    SortedIsRelease(releases[n]);
    FreshInstall(releases[n], rejects);
    if n == 0 {
      FirstRun(releases, rejects);
    } else {
      var init, older, newer := releases[..n], Names(releases[n - 1]), Names(releases[n]);
      ChainBeforeLast(releases, rejects);
      ChainOrderIff(init, rejects);
      ChainRuns(init, rejects);
      LastRun(releases, init, releases[n - 1], releases[n], Upgrade(init, rejects).executed, rejects);
      KeptNames(releases[n - 1], releases[n]);
      UpgradeOrderIff(older, newer);
      EachAddsAfterLast(releases, init);
      if AppliedBy(releases, rejects) == newer {
        OrderSoFar(AppliedBy(init, rejects), older, newer);
      }
    }
  }

  lemma {:induction false} EachAddsAfterLast(releases: seq<seq<Migration>>, init: seq<seq<Migration>>)
    requires |releases| > 1 && init == releases[..|releases| - 1]
    ensures EachAddsAfter(releases)
            <==> EachAddsAfter(init) && AddsAfter(Names(releases[|releases| - 2]), Names(releases[|releases| - 1]))
  {
    assert forall i :: 0 <= i < |init| ==> init[i] == releases[i];
  }

  // ---- the statements of a chain ----

  function StatementsOfFile(name: string, release: seq<Migration>): seq<string> {
    if release == [] then []
    else if release[|release| - 1].name == name then release[|release| - 1].statements
    else StatementsOfFile(name, release[..|release| - 1])
  }

  /** The statements of the named files, in the order of the names. */
  function StatementsOf(names: seq<string>, release: seq<Migration>): seq<string> {
    if names == [] then []
    else StatementsOf(names[..|names| - 1], release) + StatementsOfFile(names[|names| - 1], release)
  }

  lemma {:induction false} StatementsOfFileAt(release: seq<Migration>, i: nat)
    requires IsRelease(release) && i < |release|
    ensures StatementsOfFile(release[i].name, release) == release[i].statements
  {
    if i < |release| - 1 {
      StatementsOfFileAt(release[..|release| - 1], i);
    }
  }

  lemma {:induction false} StatementsOfParts(a: seq<string>, b: seq<string>, release: seq<Migration>)
    ensures StatementsOf(a + b, release) == StatementsOf(a, release) + StatementsOf(b, release)
  {
    if b == [] {
      assert a + b == a;
    } else {
      var all := a + b;
      assert all[..|all| - 1] == a + b[..|b| - 1];
      StatementsOfParts(a, b[..|b| - 1], release);
    }
  }

  lemma {:induction false} StatementsOfAll(release: seq<Migration>, n: nat)
    requires IsRelease(release) && n <= |release|
    ensures StatementsOf(Names(release)[..n], release) == AllStatements(release[..n])
  {
    if n > 0 {
      StatementsOfAll(release, n - 1);
      StatementsOfFileAt(release, n - 1);
      assert Names(release)[..n][..n - 1] == Names(release)[..n - 1] && release[..n][..n - 1] == release[..n - 1];
    }
  }

  lemma {:induction false} StatementsOfMissing(release: seq<Migration>, n: nat, older: seq<string>)
    requires IsRelease(release) && n <= |release|
    ensures StatementsOf(Missing(Names(release)[..n], older), release) == MissingStatements(release[..n], older)
  {
    if n > 0 {
      var k := n - 1;
      StatementsOfMissing(release, k, older);
      StatementsOfFileAt(release, k);
      OneMoreMissing(release, k, older);
      var before := Missing(Names(release)[..k], older);
      StatementsOfParts(before, [release[k].name], release);
      OneFile(release[k].name, release);
      assert before + [] == before && n == k + 1;
    }
  }

  lemma {:induction false} OneMoreMissing(release: seq<Migration>, k: nat, older: seq<string>)
    requires k < |release|
    ensures var missing := release[k].name !in older;
            && Missing(Names(release)[..k + 1], older)
               == Missing(Names(release)[..k], older) + (if missing then [release[k].name] else [])
            && MissingStatements(release[..k + 1], older)
               == MissingStatements(release[..k], older) + (if missing then release[k].statements else [])
  {
    assert Names(release)[..k + 1][..k] == Names(release)[..k] && release[..k + 1][..k] == release[..k];
  }

  lemma {:induction false} OneFile(name: string, release: seq<Migration>)
    ensures StatementsOf([name], release) == StatementsOfFile(name, release)
  {
    assert [name][..0] == [];
  }

  lemma {:induction false} StatementsOfKept(older: seq<Migration>, newer: seq<Migration>, names: seq<string>)
    requires IsRelease(older) && IsRelease(newer) && KeepsFiles(older, newer)
    requires forall name :: name in names ==> name in Names(older)
    ensures StatementsOf(names, older) == StatementsOf(names, newer)
  {
    if names != [] {
      var name := names[|names| - 1];
      StatementsOfKept(older, newer, names[..|names| - 1]);
      assert name in names;
      var i :| 0 <= i < |older| && Names(older)[i] == name;
      var j :| 0 <= j < |newer| && SameFile(newer[j], older[i]);
      StatementsOfFileAt(older, i);
      StatementsOfFileAt(newer, j);
    }
  }

  lemma {:induction false} StatementsOfChain(older: seq<Migration>, newer: seq<Migration>, applied: seq<string>)
    requires IsRelease(older) && IsRelease(newer) && KeepsFiles(older, newer)
    requires forall name :: name in applied ==> name in Names(older)
    ensures StatementsOf(applied, older) + MissingStatements(newer, Names(older))
            == StatementsOf(applied + Missing(Names(newer), Names(older)), newer)
  {
    StatementsOfKept(older, newer, applied);
    StatementsOfMissing(newer, |newer|, Names(older));
    assert Names(newer)[..|newer|] == Names(newer) && newer[..|newer|] == newer;
    StatementsOfParts(applied, Missing(Names(newer), Names(older)), newer);
  }

  ghost predicate NoRepeats(statements: seq<string>) {
    forall i, j :: 0 <= i < j < |statements| ==> statements[i] != statements[j]
  }

  /** No statement occurs twice, and no file is without one: statements tell which file they are of. */
  ghost predicate StatementsTellFiles(release: seq<Migration>) {
    NoRepeats(AllStatements(release)) && forall i :: 0 <= i < |release| ==> release[i].statements != []
  }

  lemma {:induction false} StatementIsInAll(release: seq<Migration>, i: nat, statement: string)
    requires i < |release| && statement in release[i].statements
    ensures statement in AllStatements(release)
  {
    if i < |release| - 1 {
      StatementIsInAll(release[..|release| - 1], i, statement);
    }
  }

  lemma {:induction false} DisjointParts(a: seq<string>, b: seq<string>)
    requires NoRepeats(a + b)
    ensures NoRepeats(a) && forall s :: s in a ==> s !in b
  {
    var all := a + b;
    assert forall i :: 0 <= i < |a| ==> all[i] == a[i];
    forall i, j | 0 <= i < |a| && 0 <= j < |b|
      ensures a[i] != b[j]
    {
      assert all[i] == a[i] && all[|a| + j] == b[j];
    }
  }

  lemma {:induction false} StatementIsOfOneFile(release: seq<Migration>, i: nat, k: nat, statement: string)
    requires NoRepeats(AllStatements(release)) && i <= k < |release|
    requires statement in release[i].statements && statement in release[k].statements
    ensures i == k
  {
    var n := |release| - 1;
    DisjointParts(AllStatements(release[..n]), release[n].statements);
    if k < n {
      StatementIsOfOneFile(release[..n], i, k, statement);
    } else if i < n {
      StatementIsInAll(release[..n], i, statement);
    }
  }

  /** Files whose statements end alike are one file. */
  lemma {:induction false} SameLastFile(a: string, b: string, release: seq<Migration>, x: seq<string>, y: seq<string>)
    requires IsRelease(release) && StatementsTellFiles(release) && a in Names(release) && b in Names(release)
    requires x + StatementsOfFile(a, release) == y + StatementsOfFile(b, release)
    ensures a == b && x == y
  {
    var i :| 0 <= i < |release| && Names(release)[i] == a;
    var k :| 0 <= k < |release| && Names(release)[k] == b;
    StatementsOfFileAt(release, i);
    StatementsOfFileAt(release, k);
    var whole := x + release[i].statements;
    var statement := whole[|whole| - 1];
    assert statement == release[i].statements[|release[i].statements| - 1];
    assert statement == (y + release[k].statements)[|whole| - 1] == release[k].statements[|release[k].statements| - 1];
    if i <= k {
      StatementIsOfOneFile(release, i, k, statement);
    } else {
      StatementIsOfOneFile(release, k, i, statement);
    }
    assert x == whole[..|x|] && y == whole[..|y|];
  }

  lemma {:induction false} SomeStatement(names: seq<string>, release: seq<Migration>)
    requires IsRelease(release) && StatementsTellFiles(release) && names != []
    requires forall name :: name in names ==> name in Names(release)
    ensures StatementsOf(names, release) != []
  {
    var name := names[|names| - 1];
    assert name in names;
    var i :| 0 <= i < |release| && Names(release)[i] == name;
    StatementsOfFileAt(release, i);
  }

  /** Where statements tell files, the order of the statements tells the order of the files. */
  lemma {:induction false} StatementsTellOrder(a: seq<string>, b: seq<string>, release: seq<Migration>)
    requires IsRelease(release) && StatementsTellFiles(release)
    requires forall name :: name in a || name in b ==> name in Names(release)
    requires StatementsOf(a, release) == StatementsOf(b, release)
    ensures a == b
  {
    if a == [] || b == [] {
      if a != [] {
        SomeStatement(a, release);
      }
      if b != [] {
        SomeStatement(b, release);
      }
    } else {
      var x, y := a[..|a| - 1], b[..|b| - 1];
      var last, other := a[|a| - 1], b[|b| - 1];
      assert last in a && other in b && a == x + [last] && b == y + [other];
      SameLastFile(last, other, release, StatementsOf(x, release), StatementsOf(y, release));
      StatementsTellOrder(x, y, release);
    }
  }

  /**
   * A chain against a fresh install. The ledgers always agree. The schemas agree if and only if the files
   * in the order applied hold the statements of the last release in its order: always when each release adds
   * only names that sort after the older ones, and never otherwise where statements tell files.
   */
  lemma {:induction false} UpgradeEqualsFreshInstallIff(releases: seq<seq<Migration>>, rejects: set<string>)
    requires releases != [] && KeepingChain(releases) && AllAccepted(AllStatements(releases[|releases| - 1]), rejects)
    ensures var last := releases[|releases| - 1];
            var upgraded, once := Upgrade(releases, rejects), Apply(EMPTY_SCHEMA, last, rejects).0;
            && upgraded.ledger == once.ledger && upgraded.domainTables == once.domainTables
            && (upgraded == once <==> StatementsOf(AppliedBy(releases, rejects), last) == AllStatements(last))
            && (EachAddsAfter(releases) ==> upgraded == once)
            && (StatementsTellFiles(last) ==> (upgraded == once <==> EachAddsAfter(releases)))
  {
    var last := releases[|releases| - 1];
    ChainRuns(releases, rejects);
    FreshInstall(last, rejects);
    ChainOrderIff(releases, rejects);
    StatementsOfAll(last, |last|);
    assert Names(last)[..|last|] == Names(last) && last[..|last|] == last;
    if StatementsTellFiles(last) && StatementsOf(AppliedBy(releases, rejects), last) == AllStatements(last) {
      StatementsTellOrder(AppliedBy(releases, rejects), Names(last), last);
    }
  }

  lemma {:induction false} StatementsOfPair(early: Migration, late: Migration)
    requires early.name != late.name
    ensures AllStatements([late]) == late.statements && AllStatements([early, late]) == early.statements + late.statements
    ensures MissingStatements([early, late], Names([late])) == early.statements
  {
    assert [early, late][..1] == [early] && [early][..0] == [] && [late][..0] == [];
    assert AllStatements([early]) == early.statements;
    assert Names([late]) == [late.name];
    assert MissingStatements([early], [late.name]) == early.statements;
  }

  /** A file that sorts before an installed one runs last in an upgrade and first in a fresh install. */
  lemma {:induction false} LateFileRunsLast(early: Migration, late: Migration, rejects: set<string>)
    requires Before(early.name, late.name) && AllAccepted(early.statements + late.statements, rejects)
    ensures Apply(Apply(EMPTY_SCHEMA, [late], rejects).0, [early, late], rejects).0.executed == late.statements + early.statements
    ensures Apply(EMPTY_SCHEMA, [early, late], rejects).0.executed == early.statements + late.statements
  {
    var older, newer := [late], [early, late];
    BeforeIsStrict(early.name, early.name, early.name);
    StatementsOfPair(early, late);
    assert SameFile(newer[1], older[0]);
    KeptFilesAreAccepted(older, newer, rejects);
    FreshInstall(older, rejects);
    FreshInstall(newer, rejects);
    NextRun(older, newer, AllStatements(older), rejects);
  }
}
