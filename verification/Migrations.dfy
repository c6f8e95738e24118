/** The checksummed migration ledger of `scripts/apply_migrations.py`. */
module Migrations {
  import opened Common
  import opened MarketContracts

  // ---- files ----

  /** A migration file: its name and its raw content. */
  datatype MigrationFile = MigrationFile(name: string, raw: string)

  /** Reading in text mode turns every line ending into a newline. */
  function ReadText(raw: string): string {
    if raw == [] then []
    else if raw[0] != '\r' then [raw[0]] + ReadText(raw[1..])
    else ['\n'] + ReadText(if |raw| > 1 && raw[1] == '\n' then raw[2..] else raw[1..])
  }

  function ReplaceCrLf(text: string): string {
    if text == [] then []
    else if |text| > 1 && text[0] == '\r' && text[1] == '\n' then ['\n'] + ReplaceCrLf(text[2..])
    else [text[0]] + ReplaceCrLf(text[1..])
  }

  function Checksum(f: MigrationFile): nat {
    Digest(ReplaceCrLf(ReadText(f.raw)))
  }

  function LegacyChecksum(f: MigrationFile): nat {
    Digest(f.raw)
  }

  lemma {:induction false} ReadTextHasNoReturn(raw: string)
    ensures forall i :: 0 <= i < |ReadText(raw)| ==> ReadText(raw)[i] != '\r'
  {
    if raw != [] {
      ReadTextHasNoReturn(if raw[0] == '\r' && |raw| > 1 && raw[1] == '\n' then raw[2..] else raw[1..]);
    }
  }

  lemma {:induction false} NothingToReplace(text: string)
    requires forall i :: 0 <= i < |text| ==> text[i] != '\r'
    ensures ReplaceCrLf(text) == text
  {
    if text != [] {
      NothingToReplace(text[1..]);
    }
  }

  /** Equal checksums mean equal texts, whatever the line endings of the checkouts. */
  lemma {:induction false} ChecksumIsTheText(a: MigrationFile, b: MigrationFile)
    ensures Checksum(a) == Checksum(b) <==> ReadText(a.raw) == ReadText(b.raw)
  {
    ReadTextHasNoReturn(a.raw);
    ReadTextHasNoReturn(b.raw);
    NothingToReplace(ReadText(a.raw));
    NothingToReplace(ReadText(b.raw));
    if Checksum(a) == Checksum(b) {
      DigestIsInjective(ReadText(a.raw), ReadText(b.raw));
    }
  }

  // ---- statements ----

  predicate IsSpace(c: char) {
    9 as char <= c <= 13 as char || 28 as char <= c <= 32 as char
  }

  function Strip(text: string): string {
    if text == [] then []
    else if IsSpace(text[0]) then Strip(text[1..])
    else if IsSpace(text[|text| - 1]) then Strip(text[..|text| - 1])
    else text
  }

  predicate IsStatement(text: string) {
    text != [] && Upper(text) != "BEGIN" && Upper(text) != "COMMIT"
  }

  /** The stripped pieces between semicolons, where `piece` is the piece read so far. */
  function Pieces(text: string, piece: string): seq<string> {
    if text == [] then Piece(piece)
    else if text[0] == ';' then Piece(piece) + Pieces(text[1..], "")
    else Pieces(text[1..], piece + [text[0]])
  }

  function Piece(piece: string): seq<string> {
    if IsStatement(Strip(piece)) then [Strip(piece)] else []
  }

  function Statements(f: MigrationFile): seq<string> {
    Pieces(ReadText(f.raw), "")
  }

  /** A semicolon separates: the statements are those before it and those after it. */
  lemma {:induction false} PiecesAtSemicolon(left: string, right: string, piece: string)
    ensures Pieces(left + ";" + right, piece) == Pieces(left, piece) + Pieces(right, "")
  {
    var whole := left + ";" + right;
    if left == [] {
      assert whole[1..] == right;
    } else {
      assert whole[1..] == left[1..] + ";" + right;
      PiecesAtSemicolon(left[1..], right, if left[0] == ';' then "" else piece + [left[0]]);
    }
  }

  lemma {:induction false} OnePiece(text: string, piece: string)
    requires forall i :: 0 <= i < |text| ==> text[i] != ';'
    ensures Pieces(text, piece) == Piece(piece + text)
  {
    if text == [] {
      assert piece + text == piece;
    } else {
      OnePiece(text[1..], piece + [text[0]]);
      assert piece + [text[0]] + text[1..] == piece + text;
    }
  }

  lemma {:induction false} OnePieceOnly(text: string)
    requires forall i :: 0 <= i < |text| ==> text[i] != ';'
    ensures Pieces(text, "") == Piece(text)
  {
    OnePiece(text, "");
    assert "" + text == text;
  }

  /** What the runner takes from a file. */
  datatype Migration = Migration(name: string, checksum: nat, legacyChecksum: nat, statements: seq<string>)

  function Read(f: MigrationFile): Migration {
    Migration(f.name, Checksum(f), LegacyChecksum(f), Statements(f))
  }

  function ReadAll(files: seq<MigrationFile>): seq<Migration> {
    seq(|files|, i requires 0 <= i < |files| => Read(files[i]))
  }

  function AllStatements(release: seq<Migration>): seq<string> {
    if release == [] then [] else AllStatements(release[..|release| - 1]) + release[|release| - 1].statements
  }

  // ---- the database ----

  datatype Ledger = Absent | Present(columns: set<string>, rows: map<string, nat>)

  /** `executed` is the history of migration statements that were committed. */
  datatype Schema = Schema(ledger: Ledger, domainTables: set<string>, executed: seq<string>)

  const LEDGER_COLUMNS := {"version", "checksum", "applied_at"}

  const EMPTY_SCHEMA := Schema(Absent, {}, [])

  datatype MigrationError =
    | UnversionedSchema
    | IncompatibleLedger
    | UnavailableMigrations
    | ChecksumChanged(name: string)
    | StatementFailed(name: string)

  datatype Work = Work(rows: map<string, nat>, executed: seq<string>, applied: seq<string>)

  predicate AllAccepted(statements: seq<string>, rejects: set<string>) {
    forall i :: 0 <= i < |statements| ==> statements[i] !in rejects
  }

  /** One turn of the loop over the files; `ledger` is what was recorded when the run began. */
  function Step(w: Work, f: Migration, ledger: map<string, nat>, rejects: set<string>): Result<Work, MigrationError> {
    if f.name in ledger then
      if ledger[f.name] == f.checksum then Ok(w)
      else if ledger[f.name] != f.legacyChecksum then Err(ChecksumChanged(f.name))
      else Ok(w.(rows := w.rows[f.name := f.checksum]))
    else if !AllAccepted(f.statements, rejects) then Err(StatementFailed(f.name))
    else Ok(Work(w.rows[f.name := f.checksum], w.executed + f.statements, w.applied + [f.name]))
  }

  function Walk(
      ledger: map<string, nat>, executed: seq<string>, release: seq<Migration>, n: nat, rejects: set<string>)
    : Result<Work, MigrationError>
    requires n <= |release|
  {
    if n == 0 then Ok(Work(ledger, executed, []))
    else
      match Walk(ledger, executed, release, n - 1, rejects)
      case Err(e) => Err(e)
      case Ok(w) => Step(w, release[n - 1], ledger, rejects)
  }

  function Names(release: seq<Migration>): seq<string> {
    seq(|release|, i requires 0 <= i < |release| => release[i].name)
  }

  /** The recorded migrations, or why the schema is refused outright. */
  function OpenLedger(s: Schema): Result<map<string, nat>, MigrationError> {
    match s.ledger
    case Absent => if s.domainTables != {} then Err(UnversionedSchema) else Ok(map[])
    case Present(columns, rows) => if !(LEDGER_COLUMNS <= columns) then Err(IncompatibleLedger) else Ok(rows)
  }

  function Columns(s: Schema): set<string> {
    if s.ledger.Present? then s.ledger.columns else LEDGER_COLUMNS
  }

  /** `apply_migrations` as one transaction: an error leaves the schema as it was. */
  function Apply(s: Schema, release: seq<Migration>, rejects: set<string>): (Schema, Result<seq<string>, MigrationError>) {
    match OpenLedger(s)
    case Err(e) => (s, Err(e))
    case Ok(ledger) =>
      if exists name :: name in ledger && name !in Names(release) then (s, Err(UnavailableMigrations))
      else
        match Walk(ledger, s.executed, release, |release|, rejects)
        case Err(e) => (s, Err(e))
        case Ok(w) => (Schema(Present(Columns(s), w.rows), s.domainTables, w.executed), Ok(w.applied))
  }

  /** The loop over the files: skips what is recorded, rewrites legacy checksums, runs and records the rest. */
  method WalkFiles(ledger: map<string, nat>, history: seq<string>, release: seq<Migration>, rejects: set<string>)
    returns (r: Result<Work, MigrationError>)
    ensures r == Walk(ledger, history, release, |release|, rejects)
  {
    var rows: map<string, nat> := ledger;
    var executed, appliedNow: seq<string> := history, [];
    for n := 0 to |release|
      invariant Walk(ledger, history, release, n, rejects) == Ok(Work(rows, executed, appliedNow))
    {
      var f := release[n];
      if f.name in ledger {
        if ledger[f.name] != f.checksum {
          if ledger[f.name] != f.legacyChecksum {
            WalkFails(ledger, history, release, n + 1, |release|, rejects);
            return Err(ChecksumChanged(f.name));
          }
          rows := rows[f.name := f.checksum];
        }
        continue;
      }
      if !AllAccepted(f.statements, rejects) {
        WalkFails(ledger, history, release, n + 1, |release|, rejects);
        return Err(StatementFailed(f.name));
      }
      executed := executed + f.statements;
      rows := rows[f.name := f.checksum];
      appliedNow := appliedNow + [f.name];
    }
    return Ok(Work(rows, executed, appliedNow));
  }

  /** The connection and its transaction. */
  class MigrationDatabase {
    var schema: Schema

    constructor (schema: Schema)
      ensures this.schema == schema
    {
      this.schema := schema;
    }

    /** Nothing is kept unless the whole run succeeds. */
    method ApplyMigrations(files: seq<MigrationFile>, rejects: set<string>) returns (r: Result<seq<string>, MigrationError>)
      modifies this
      ensures (schema, r) == Apply(old(schema), ReadAll(files), rejects)
    {
      var release := ReadAll(files);
      var opening := OpenLedger(schema);
      if opening.Err? {
        return Err(opening.error);
      }
      var ledger := opening.value;
      if exists name :: name in ledger && name !in Names(release) {
        return Err(UnavailableMigrations);
      }
      var walked := WalkFiles(ledger, schema.executed, release, rejects);
      if walked.Err? {
        return Err(walked.error);
      }
      schema := Schema(Present(Columns(schema), walked.value.rows), schema.domainTables, walked.value.executed);
      return Ok(walked.value.applied);
    }
  }

  lemma {:induction false} WalkFails(
      ledger: map<string, nat>, executed: seq<string>, release: seq<Migration>, n: nat, m: nat, rejects: set<string>)
    requires n <= m <= |release| && Walk(ledger, executed, release, n, rejects).Err?
    ensures Walk(ledger, executed, release, m, rejects) == Walk(ledger, executed, release, n, rejects)
  {
    if n < m {
      WalkFails(ledger, executed, release, n, m - 1, rejects);
    }
  }

  // ---- when a run is refused ----

  /** The ledger records the file under a checksum that is neither its own nor its legacy one. */
  ghost predicate Tampered(f: Migration, ledger: map<string, nat>) {
    f.name in ledger && ledger[f.name] != f.checksum && ledger[f.name] != f.legacyChecksum
  }

  ghost predicate Rejected(f: Migration, ledger: map<string, nat>, rejects: set<string>) {
    f.name !in ledger && !AllAccepted(f.statements, rejects)
  }

  lemma {:induction false} WalkFailsIff(
      ledger: map<string, nat>, executed: seq<string>, release: seq<Migration>, n: nat, rejects: set<string>)
    requires n <= |release|
    ensures Walk(ledger, executed, release, n, rejects).Err? <==>
              exists i :: 0 <= i < n && (Tampered(release[i], ledger) || Rejected(release[i], ledger, rejects))
  {
    if n > 0 {
      WalkFailsIff(ledger, executed, release, n - 1, rejects);
    }
  }

  /** A run is refused exactly for these reasons, and a refused run changes nothing. */
  lemma {:induction false} RefusedIff(s: Schema, release: seq<Migration>, rejects: set<string>)
    ensures var (after, r) := Apply(s, release, rejects);
            && (r.Err? ==> after == s)
            && (r.Err? <==>
                 match s.ledger
                 case Absent => s.domainTables != {} || exists f :: f in release && Rejected(f, map[], rejects)
                 case Present(columns, rows) =>
                   || !({"version", "checksum", "applied_at"} <= columns)
                   || (exists name :: name in rows && name !in Names(release))
                   || (exists f :: f in release && (Tampered(f, rows) || Rejected(f, rows, rejects))))
  {
    var ledger := if s.ledger.Present? then s.ledger.rows else map[];
    WalkFailsIff(ledger, s.executed, release, |release|, rejects);
    assert forall i :: 0 <= i < |release| ==> release[i] in release;
    assert forall f :: f in release ==> exists i :: 0 <= i < |release| && release[i] == f;
  }

  /** The first file of the release, in order of names, that is an obstacle. */
  ghost predicate FirstObstacle(release: seq<Migration>, ledger: map<string, nat>, rejects: set<string>, i: nat) {
    && i < |release| && (Tampered(release[i], ledger) || Rejected(release[i], ledger, rejects))
    && forall j :: 0 <= j < i ==> !Tampered(release[j], ledger) && !Rejected(release[j], ledger, rejects)
  }

  lemma {:induction false} WalkStopsAt(
      ledger: map<string, nat>, executed: seq<string>, release: seq<Migration>, rejects: set<string>, i: nat)
    requires FirstObstacle(release, ledger, rejects, i)
    ensures Walk(ledger, executed, release, |release|, rejects)
            == Err(if Tampered(release[i], ledger) then ChecksumChanged(release[i].name) else StatementFailed(release[i].name))
  {
    WalkFailsIff(ledger, executed, release, i, rejects);
    WalkOneMore(ledger, executed, release, i, rejects, Walk(ledger, executed, release, i, rejects).value);
    WalkFails(ledger, executed, release, i + 1, |release|, rejects);
  }

  /** The error that a refused run raises: first what is wrong with the schema, then the first file that is an obstacle. */
  lemma {:induction false} ErrorIs(s: Schema, release: seq<Migration>, rejects: set<string>, i: nat)
    ensures var r := Apply(s, release, rejects).1;
            match s.ledger
            case Absent =>
              if s.domainTables != {} then r == Err(UnversionedSchema)
              else FirstObstacle(release, map[], rejects, i) ==> r == Err(StatementFailed(release[i].name))
            case Present(columns, rows) =>
              if !({"version", "checksum", "applied_at"} <= columns) then r == Err(IncompatibleLedger)
              else if exists name :: name in rows && name !in Names(release) then r == Err(UnavailableMigrations)
              else FirstObstacle(release, rows, rejects, i) ==>
                r == Err(if Tampered(release[i], rows) then ChecksumChanged(release[i].name) else StatementFailed(release[i].name))
  {
    var ledger := if s.ledger.Present? then s.ledger.rows else map[];
    if FirstObstacle(release, ledger, rejects, i) {
      WalkStopsAt(ledger, s.executed, release, rejects, i);
    }
  }

  // ---- upgrades ----

  /** File names are distinct, as in a directory. */
  ghost predicate IsRelease(release: seq<Migration>) {
    forall i, j :: 0 <= i < j < |release| ==> release[i].name != release[j].name
  }

  function Canonical(release: seq<Migration>): map<string, nat> {
    if release == [] then map[]
    else Canonical(release[..|release| - 1])[release[|release| - 1].name := release[|release| - 1].checksum]
  }

  lemma {:induction false} CanonicalRows(release: seq<Migration>)
    requires IsRelease(release)
    ensures forall name :: name in Canonical(release) <==> name in Names(release)
    ensures forall i :: 0 <= i < |release| ==> release[i].name in Canonical(release)
                                               && Canonical(release)[release[i].name] == release[i].checksum
  {
    if release != [] {
      var init, last := release[..|release| - 1], release[|release| - 1];
      CanonicalRows(init);
      assert Names(release) == Names(init) + [last.name];
    }
  }

  /** The schema records the first `n` files of the release, under their own or legacy checksums, and ran just those. */
  ghost predicate Installed(s: Schema, release: seq<Migration>, n: nat)
    requires n <= |release|
  {
    && (n == 0 && s.ledger.Absent? ==> s.domainTables == {})
    && (s.ledger.Absent? ==> n == 0)
    && (s.ledger.Present? ==>
         && LEDGER_COLUMNS <= s.ledger.columns
         && Recorded(s.ledger.rows, release, n))
    && s.executed == AllStatements(release[..n])
  }

  ghost predicate Recorded(rows: map<string, nat>, release: seq<Migration>, n: nat)
    requires n <= |release|
  {
    && (forall name :: name in rows <==> name in Names(release[..n]))
    && (forall i :: 0 <= i < n ==>
         release[i].name in rows
         && (rows[release[i].name] == release[i].checksum || rows[release[i].name] == release[i].legacyChecksum))
  }

  lemma {:induction false} NameAt(release: seq<Migration>, n: nat, k: nat)
    requires IsRelease(release) && n <= |release| && k < |release|
    ensures release[k].name in Names(release[..n]) <==> k < n
  {
    if k < n {
      assert Names(release[..n])[k] == release[k].name;
    }
  }

  /** The rows after `m` files: those files under their own checksums, the other recorded ones as they were. */
  ghost predicate RowsAfter(rows: map<string, nat>, ledger: map<string, nat>, release: seq<Migration>, m: nat)
    requires m <= |release|
  {
    && (forall name :: name in rows <==> name in ledger || name in Names(release[..m]))
    && (forall i :: 0 <= i < m ==> release[i].name in rows && rows[release[i].name] == release[i].checksum)
  }

  /** The work after `m` files, of which the first `n` were recorded. */
  ghost predicate Upgraded(w: Work, ledger: map<string, nat>, release: seq<Migration>, n: nat, m: nat)
    requires n <= |release| && m <= |release|
  {
    && RowsAfter(w.rows, ledger, release, m)
    && (forall name :: name in ledger && name !in Names(release[..m]) ==> name in w.rows && w.rows[name] == ledger[name])
    && w.executed == AllStatements(release[..Max(n, m)])
    && w.applied == Names(release[n..Max(n, m)])
  }

  lemma {:induction false} RowsOneMore(rows: map<string, nat>, ledger: map<string, nat>, release: seq<Migration>, m: nat)
    requires IsRelease(release) && m < |release| && RowsAfter(rows, ledger, release, m)
    ensures RowsAfter(rows[release[m].name := release[m].checksum], ledger, release, m + 1)
    ensures forall name :: name in Names(release[..m + 1]) <==> name in Names(release[..m]) || name == release[m].name
  {
    assert Names(release[..m + 1]) == Names(release[..m]) + [release[m].name];
  }

  lemma {:induction false} SameRows(rows: map<string, nat>, name: string)
    requires name in rows
    ensures rows[name := rows[name]] == rows
  {
  }

  lemma {:induction false} RewritesLegacy(w: Work, f: Migration, ledger: map<string, nat>, rejects: set<string>)
    requires f.name in ledger && (ledger[f.name] == f.checksum || ledger[f.name] == f.legacyChecksum)
    requires f.name in w.rows && w.rows[f.name] == ledger[f.name]
    ensures Step(w, f, ledger, rejects) == Ok(w.(rows := w.rows[f.name := f.checksum]))
  {
    if ledger[f.name] == f.checksum {
      SameRows(w.rows, f.name);
    }
  }

  lemma {:induction false} StepRecorded(
      w: Work, ledger: map<string, nat>, release: seq<Migration>, n: nat, m: nat, rejects: set<string>)
    requires IsRelease(release) && m < n <= |release| && Recorded(ledger, release, n) && Upgraded(w, ledger, release, n, m)
    ensures var r := Step(w, release[m], ledger, rejects); r.Ok? && Upgraded(r.value, ledger, release, n, m + 1)
  {
    NameAt(release, m, m);
    RowsOneMore(w.rows, ledger, release, m);
    RewritesLegacy(w, release[m], ledger, rejects);
    OneMoreRecorded(w, release[m], ledger, release, n, m);
  }

  lemma {:induction false} OneMoreRecorded(
      w: Work, f: Migration, ledger: map<string, nat>, release: seq<Migration>, n: nat, m: nat)
    requires m < n <= |release| && Upgraded(w, ledger, release, n, m) && f == release[m]
    requires RowsAfter(w.rows[f.name := f.checksum], ledger, release, m + 1)
    requires forall name :: name in Names(release[..m + 1]) <==> name in Names(release[..m]) || name == f.name
    ensures Upgraded(w.(rows := w.rows[f.name := f.checksum]), ledger, release, n, m + 1)
  {
    var k := m + 1;
    assert Max(n, m) == Max(n, k);
  }

  lemma {:induction false} StepNew(
      w: Work, ledger: map<string, nat>, release: seq<Migration>, n: nat, m: nat, rejects: set<string>)
    requires IsRelease(release) && n <= m < |release| && Recorded(ledger, release, n) && Upgraded(w, ledger, release, n, m)
    requires AllAccepted(release[m].statements, rejects)
    ensures var r := Step(w, release[m], ledger, rejects); r.Ok? && Upgraded(r.value, ledger, release, n, m + 1)
  {
    NameAt(release, n, m);
    assert release[m].name !in ledger;
    RowsOneMore(w.rows, ledger, release, m);
    NewWork(release, n, m);
  }

  lemma {:induction false} NewWork(release: seq<Migration>, n: nat, m: nat)
    requires n <= m < |release|
    ensures AllStatements(release[..m + 1]) == AllStatements(release[..m]) + release[m].statements
    ensures Names(release[n..m + 1]) == Names(release[n..m]) + [release[m].name]
  {
    assert release[..m + 1][..m] == release[..m];
    assert release[n..m + 1] == release[n..m] + [release[m]];
  }

  lemma {:induction false} NothingDone(ledger: map<string, nat>, release: seq<Migration>, n: nat)
    requires n <= |release|
    ensures Upgraded(Work(ledger, AllStatements(release[..n]), []), ledger, release, n, 0)
  {
  }

  lemma {:induction false} WalkOneMore(
      ledger: map<string, nat>, executed: seq<string>, release: seq<Migration>, n: nat, rejects: set<string>, before: Work)
    requires n < |release| && Walk(ledger, executed, release, n, rejects) == Ok(before)
    ensures Walk(ledger, executed, release, n + 1, rejects) == Step(before, release[n], ledger, rejects)
  {
  }

  lemma {:induction false} WalkUpgrades(
      ledger: map<string, nat>, release: seq<Migration>, n: nat, m: nat, rejects: set<string>)
    returns (w: Work)
    requires IsRelease(release) && n <= |release| && m <= |release| && Recorded(ledger, release, n)
    requires AllAccepted(AllStatements(release), rejects)
    ensures Walk(ledger, AllStatements(release[..n]), release, m, rejects) == Ok(w)
    ensures Upgraded(w, ledger, release, n, m)
  {
    if m == 0 {
      NothingDone(ledger, release, n);
      w := Work(ledger, AllStatements(release[..n]), []);
    } else {
      var k := m - 1;
      var before := WalkUpgrades(ledger, release, n, k, rejects);
      AcceptedPart(release, m, rejects);
      w := StepUpgrades(before, ledger, release, n, k, rejects);
      assert m == k + 1;
      WalkOneMore(ledger, AllStatements(release[..n]), release, k, rejects, before);
    }
  }

  lemma {:induction false} StepUpgrades(
      w: Work, ledger: map<string, nat>, release: seq<Migration>, n: nat, m: nat, rejects: set<string>)
    returns (next: Work)
    requires IsRelease(release) && n <= |release| && m < |release| && Recorded(ledger, release, n)
    requires Upgraded(w, ledger, release, n, m) && AllAccepted(release[m].statements, rejects)
    ensures Step(w, release[m], ledger, rejects) == Ok(next) && Upgraded(next, ledger, release, n, m + 1)
  {
    if m < n {
      StepRecorded(w, ledger, release, n, m, rejects);
    } else {
      StepNew(w, ledger, release, n, m, rejects);
    }
    next := Step(w, release[m], ledger, rejects).value;
  }

  lemma {:induction false} AcceptedPart(release: seq<Migration>, m: nat, rejects: set<string>)
    requires 0 < m <= |release| && AllAccepted(AllStatements(release), rejects)
    ensures AllAccepted(release[m - 1].statements, rejects)
  {
    var n := |release| - 1;
    var before, last := AllStatements(release[..n]), release[n].statements;
    assert AllStatements(release) == before + last;
    if m - 1 == n {
      forall i | 0 <= i < |last|
        ensures last[i] !in rejects
      {
        assert (before + last)[|before| + i] == last[i];
      }
    } else {
      forall i | 0 <= i < |before|
        ensures before[i] !in rejects
      {
        assert (before + last)[i] == before[i];
      }
      AcceptedPart(release[..n], m, rejects);
    }
  }

  /**
   * An upgrade from the first `n` files: the rest is applied in order, each statement once, and the
   * ledger ends with exactly the canonical checksums, legacy ones rewritten.
   */
  lemma {:induction false} UpgradeApplies(s: Schema, release: seq<Migration>, n: nat, rejects: set<string>)
    requires IsRelease(release) && n <= |release| && Installed(s, release, n)
    requires AllAccepted(AllStatements(release), rejects)
    ensures var (after, r) := Apply(s, release, rejects);
            && r == Ok(Names(release[n..]))
            && after == Schema(Present(Columns(s), Canonical(release)), s.domainTables, AllStatements(release))
            && Installed(after, release, |release|)
  {
    var ledger := if s.ledger.Present? then s.ledger.rows else map[];
    assert Recorded(ledger, release, n);
    var w := WalkUpgrades(ledger, release, n, |release|, rejects);
    assert release[..|release|] == release;
    RecordedNames(ledger, release, n);
    AllRowsCanonical(w.rows, ledger, release);
    CanonicalIsRecorded(release);
  }

  lemma {:induction false} RecordedNames(ledger: map<string, nat>, release: seq<Migration>, n: nat)
    requires n <= |release| && Recorded(ledger, release, n)
    ensures forall name :: name in ledger ==> name in Names(release)
  {
    forall name | name in ledger
      ensures name in Names(release)
    {
      var i :| 0 <= i < n && Names(release[..n])[i] == name;
      assert Names(release)[i] == name;
    }
  }

  lemma {:induction false} AllRowsCanonical(rows: map<string, nat>, ledger: map<string, nat>, release: seq<Migration>)
    requires IsRelease(release) && RowsAfter(rows, ledger, release, |release|)
    requires forall name :: name in ledger ==> name in Names(release)
    ensures rows == Canonical(release)
  {
    CanonicalRows(release);
    assert release[..|release|] == release;
    forall name | name in rows
      ensures name in Canonical(release) && rows[name] == Canonical(release)[name]
    {
      var i :| 0 <= i < |release| && Names(release)[i] == name;
    }
  }

  lemma {:induction false} CanonicalIsRecorded(release: seq<Migration>)
    requires IsRelease(release)
    ensures Recorded(Canonical(release), release, |release|)
  {
    CanonicalRows(release);
    assert release[..|release|] == release;
  }

  lemma {:induction false} CanonicalIsFinal(s: Schema, release: seq<Migration>, rejects: set<string>)
    requires IsRelease(release) && AllAccepted(AllStatements(release), rejects)
    requires LEDGER_COLUMNS <= Columns(s)
    requires s == Schema(Present(Columns(s), Canonical(release)), s.domainTables, AllStatements(release))
    ensures Apply(s, release, rejects) == (s, Ok([]))
  {
    CanonicalIsRecorded(release);
    assert release[..|release|] == release && Names(release[|release|..]) == [];
    UpgradeApplies(s, release, |release|, rejects);
  }

  /** A rerun of the same release applies nothing and changes nothing. */
  lemma {:induction false} RerunDoesNothing(s: Schema, release: seq<Migration>, n: nat, rejects: set<string>)
    requires IsRelease(release) && n <= |release| && Installed(s, release, n)
    requires AllAccepted(AllStatements(release), rejects)
    ensures var after := Apply(s, release, rejects).0; Apply(after, release, rejects) == (after, Ok([]))
  {
    UpgradeApplies(s, release, n, rejects);
    CanonicalIsFinal(Apply(s, release, rejects).0, release, rejects);
  }

  /** Two files with one name and one text are one migration, however their checkouts end lines. */
  lemma {:induction false} SameTextSameMigration(a: MigrationFile, b: MigrationFile)
    ensures Read(a).checksum == Read(b).checksum <==> ReadText(a.raw) == ReadText(b.raw)
    ensures Read(a).checksum == Read(b).checksum ==> Read(a).statements == Read(b).statements
  {
    ChecksumIsTheText(a, b);
  }

  /** The newer release only adds migrations after those of the older, whose texts it keeps. */
  ghost predicate Extends(older: seq<Migration>, newer: seq<Migration>) {
    && |older| <= |newer|
    && forall i :: 0 <= i < |older| ==>
         newer[i].name == older[i].name && newer[i].checksum == older[i].checksum && newer[i].statements == older[i].statements
  }

  /** Between releases as files: kept names and texts, under any line endings, are what the ledger compares. */
  lemma {:induction false} FilesExtend(older: seq<MigrationFile>, newer: seq<MigrationFile>)
    ensures Extends(ReadAll(older), ReadAll(newer))
            <==> |older| <= |newer|
                 && forall i :: 0 <= i < |older| ==>
                      newer[i].name == older[i].name && ReadText(newer[i].raw) == ReadText(older[i].raw)
  {
    if |older| <= |newer| {
      forall i | 0 <= i < |older|
        ensures ReadAll(newer)[i].checksum == ReadAll(older)[i].checksum && ReadAll(newer)[i].statements == ReadAll(older)[i].statements
                <==> ReadText(newer[i].raw) == ReadText(older[i].raw)
      {
        SameTextSameMigration(newer[i], older[i]);
      }
    }
  }

  lemma {:induction false} SameStatements(older: seq<Migration>, newer: seq<Migration>, n: nat)
    requires Extends(older, newer) && n <= |older|
    ensures AllStatements(older[..n]) == AllStatements(newer[..n])
  {
    if n > 0 {
      SameStatements(older, newer, n - 1);
      assert older[..n][..n - 1] == older[..n - 1] && newer[..n][..n - 1] == newer[..n - 1];
    }
  }

  /** What is installed by a release is the beginning of what the next release installs. */
  lemma {:induction false} InstalledForNext(s: Schema, older: seq<Migration>, newer: seq<Migration>)
    requires IsRelease(older) && Extends(older, newer)
    requires s.ledger == Present(LEDGER_COLUMNS, Canonical(older)) && s.executed == AllStatements(older)
    ensures Installed(s, newer, |older|)
  {
    CanonicalRows(older);
    SameStatements(older, newer, |older|);
    assert older[..|older|] == older;
    assert Names(newer[..|older|]) == Names(older);
  }

  /** The schema after one run for each release of a chain. */
  function Upgrade(releases: seq<seq<Migration>>, rejects: set<string>): Schema {
    if releases == [] then EMPTY_SCHEMA
    else Apply(Upgrade(releases[..|releases| - 1], rejects), releases[|releases| - 1], rejects).0
  }

  ghost predicate Chain(releases: seq<seq<Migration>>) {
    && (forall i :: 0 <= i < |releases| ==> IsRelease(releases[i]))
    && (forall i, j :: 0 <= i < j < |releases| && j == i + 1 ==> Extends(releases[i], releases[j]))
  }

  lemma {:induction false} FreshInstall(release: seq<Migration>, rejects: set<string>)
    requires IsRelease(release) && AllAccepted(AllStatements(release), rejects)
    ensures Apply(EMPTY_SCHEMA, release, rejects)
            == (Schema(Present(LEDGER_COLUMNS, Canonical(release)), {}, AllStatements(release)), Ok(Names(release)))
  {
    UpgradeApplies(EMPTY_SCHEMA, release, 0, rejects);
    assert release[0..] == release;
  }

  lemma {:induction false} NextRelease(older: seq<Migration>, newer: seq<Migration>, rejects: set<string>)
    requires IsRelease(older) && IsRelease(newer) && Extends(older, newer)
    requires AllAccepted(AllStatements(newer), rejects)
    ensures Apply(Schema(Present(LEDGER_COLUMNS, Canonical(older)), {}, AllStatements(older)), newer, rejects)
            == (Schema(Present(LEDGER_COLUMNS, Canonical(newer)), {}, AllStatements(newer)), Ok(Names(newer[|older|..])))
  {
    var s := Schema(Present(LEDGER_COLUMNS, Canonical(older)), {}, AllStatements(older));
    InstalledForNext(s, older, newer);
    UpgradeApplies(s, newer, |older|, rejects);
  }

  /**
   * Upgrade equals fresh install: a chain of releases, each run once, leaves exactly the schema that
   * one fresh install of the last release leaves.
   */
  lemma {:induction false} UpgradeEqualsFreshInstall(releases: seq<seq<Migration>>, rejects: set<string>)
    requires releases != [] && Chain(releases)
    requires forall i :: 0 <= i < |releases| ==> AllAccepted(AllStatements(releases[i]), rejects)
    ensures var last := releases[|releases| - 1];
            && Upgrade(releases, rejects) == Apply(EMPTY_SCHEMA, last, rejects).0
            && Upgrade(releases, rejects) == Schema(Present(LEDGER_COLUMNS, Canonical(last)), {}, AllStatements(last))
  {
    var n := |releases| - 1;
    FreshInstall(releases[n], rejects);
    if n > 0 {
      UpgradeEqualsFreshInstall(releases[..n], rejects);
      NextRelease(releases[n - 1], releases[n], rejects);
    } else {
      assert releases[..n] == [];
    }
  }
}
