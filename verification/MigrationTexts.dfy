/** What a migration file says: its text, its statements and its two checksums, by their characters. */
module MigrationTexts {
  import opened Common
  import opened MarketContracts
  import opened Migrations

  // ---- stripping ----

  /** Tabs, line feeds, returns and the like, the four information separators, and the space. */
  ghost predicate White(c: char) {
    c as int in {9, 10, 11, 12, 13, 28, 29, 30, 31, 32}
  }

  ghost predicate AllWhite(text: string) {
    forall i :: 0 <= i < |text| ==> White(text[i])
  }

  /** `middle` is the text without the white space around it. */
  ghost predicate IsMiddle(text: string, middle: string) {
    && (exists a, b :: AllWhite(a) && AllWhite(b) && text == a + middle + b)
    && (middle != "" ==> !White(middle[0]) && !White(middle[|middle| - 1]))
  }

  lemma {:induction false} SpaceIffWhite(c: char)
    ensures IsSpace(c) <==> White(c)
  {
  }

  /** White space in front or behind, or none of either. */
  lemma {:induction false} StripStep(text: string)
    requires text != ""
    ensures White(text[0]) ==> Strip(text) == Strip(text[1..])
    ensures !White(text[0]) && White(text[|text| - 1]) ==> Strip(text) == Strip(text[..|text| - 1])
    ensures !White(text[0]) && !White(text[|text| - 1]) ==> Strip(text) == text
  {
    SpaceIffWhite(text[0]);
    SpaceIffWhite(text[|text| - 1]);
  }

  /** What `Strip` takes away: some white space on the left and on the right of `middle`. */
  ghost predicate HasMargins(text: string, middle: string, a: string, b: string) {
    AllWhite(a) && AllWhite(b) && text == a + middle + b
  }

  lemma {:induction false} WiderLeft(text: string, middle: string, a: string, b: string)
    requires text != "" && White(text[0]) && HasMargins(text[1..], middle, a, b)
    ensures HasMargins(text, middle, [text[0]] + a, b)
  {
    assert text == [text[0]] + text[1..];
    assert [text[0]] + (a + middle + b) == [text[0]] + a + middle + b;
  }

  lemma {:induction false} WiderRight(text: string, middle: string, a: string, b: string)
    requires text != "" && White(text[|text| - 1]) && HasMargins(text[..|text| - 1], middle, a, b)
    ensures HasMargins(text, middle, a, b + [text[|text| - 1]])
  {
    assert text == text[..|text| - 1] + [text[|text| - 1]];
    assert (a + middle + b) + [text[|text| - 1]] == a + middle + (b + [text[|text| - 1]]);
  }

  lemma {:induction false} NoMargins(text: string)
    ensures HasMargins(text, text, "", "")
  {
    assert "" + text + "" == text;
  }

  lemma {:induction false} StripMargins(text: string, middle: string) returns (a: string, b: string)
    requires middle == Strip(text)
    ensures HasMargins(text, middle, a, b)
  {
    a, b := "", "";
    if text == "" {
      NoMargins(text);
    } else {
      StripStep(text);
      if White(text[0]) {
        a, b := StripMargins(text[1..], middle);
        WiderLeft(text, middle, a, b);
        a := [text[0]] + a;
      } else if White(text[|text| - 1]) {
        a, b := StripMargins(text[..|text| - 1], middle);
        WiderRight(text, middle, a, b);
        b := b + [text[|text| - 1]];
      } else {
        NoMargins(text);
      }
    }
  }

  lemma {:induction false} StripEnds(text: string)
    ensures Strip(text) != "" ==> !White(Strip(text)[0]) && !White(Strip(text)[|Strip(text)| - 1])
  {
    if text != [] {
      SpaceIffWhite(text[0]);
      SpaceIffWhite(text[|text| - 1]);
      if IsSpace(text[0]) {
        StripEnds(text[1..]);
      } else if IsSpace(text[|text| - 1]) {
        StripEnds(text[..|text| - 1]);
      }
    }
  }

  lemma {:induction false} StripIsTheMiddle(text: string)
    ensures IsMiddle(text, Strip(text))
  {
    var a, b := StripMargins(text, Strip(text));
    StripEnds(text);
  }

  /** The margin of one middle is no longer than that of another one, on the left and on the right. */
  lemma {:induction false} MarginsAgree(text: string, a: string, m: string, b: string, c: string, n: string, d: string)
    requires text == a + m + b && text == c + n + d && AllWhite(a) && AllWhite(b)
    requires n != "" && !White(n[0]) && !White(n[|n| - 1])
    ensures |a| <= |c| && |b| <= |d|
  {
    var first, last := |c|, |c| + |n| - 1;
    assert text[first] == n[0] && text[last] == n[|n| - 1];
    assert forall i :: 0 <= i < |a| ==> text[i] == a[i];
    assert forall i :: |text| - |b| <= i < |text| ==> text[i] == b[i - (|text| - |b|)];
  }

  lemma {:induction false} MiddleIsNotBlank(text: string, c: string, n: string, d: string)
    requires text == c + n + d && n != "" && !White(n[0])
    ensures !AllWhite(text)
  {
    assert text[|c|] == n[0];
  }

  /** There is only one middle. */
  lemma {:induction false} MiddleIsUnique(text: string, m: string, n: string)
    requires IsMiddle(text, m) && IsMiddle(text, n)
    ensures m == n
  {
    var a, b :| AllWhite(a) && AllWhite(b) && text == a + m + b;
    var c, d :| AllWhite(c) && AllWhite(d) && text == c + n + d;
    if m == "" || n == "" {
      if n != "" {
        MiddleIsNotBlank(text, c, n, d);
      }
      if m != "" {
        MiddleIsNotBlank(text, a, m, b);
      }
    } else {
      MarginsAgree(text, a, m, b, c, n, d);
      MarginsAgree(text, c, n, d, a, m, b);
      assert m == text[|a|..|text| - |b|] && n == text[|c|..|text| - |d|];
    }
  }

  lemma {:induction false} StripIff(text: string, middle: string)
    ensures IsMiddle(text, middle) <==> Strip(text) == middle
  {
    StripIsTheMiddle(text);
    if IsMiddle(text, middle) {
      MiddleIsUnique(text, middle, Strip(text));
    }
  }

  // ---- markers ----

  /** The text is the word, its letters in either case; the word is in capitals. */
  ghost predicate InAnyCase(text: string, word: string) {
    |text| == |word| && forall i :: 0 <= i < |word| ==> text[i] == word[i] || text[i] as int == word[i] as int + 32
  }

  ghost predicate Capitals(word: string) {
    forall i :: 0 <= i < |word| ==> 65 <= word[i] as int <= 90
  }

  lemma {:induction false} UpperIff(text: string, word: string)
    requires Capitals(word)
    ensures Upper(text) == word <==> InAnyCase(text, word)
  {
    if Upper(text) == word {
      forall i | 0 <= i < |word|
        ensures text[i] == word[i] || text[i] as int == word[i] as int + 32
      {
        assert Upper(text)[i] == word[i];
      }
    }
    if InAnyCase(text, word) {
      forall i | 0 <= i < |word|
        ensures Upper(text)[i] == word[i]
      {
      }
    }
  }

  /** Nothing to execute: an empty text, or a transaction marker. */
  ghost predicate Skipped(statement: string) {
    statement == "" || InAnyCase(statement, "BEGIN") || InAnyCase(statement, "COMMIT")
  }

  lemma {:induction false} StatementIffNotSkipped(text: string)
    ensures IsStatement(text) <==> !Skipped(text)
  {
    assert Capitals("BEGIN") && Capitals("COMMIT");
    UpperIff(text, "BEGIN");
    UpperIff(text, "COMMIT");
  }

  // ---- statements ----

  ghost function JoinSemicolons(parts: seq<string>): string
    requires parts != []
  {
    if |parts| == 1 then parts[0] else parts[0] + ";" + JoinSemicolons(parts[1..])
  }

  ghost predicate NoSemicolon(text: string) {
    forall i :: 0 <= i < |text| ==> text[i] != ';'
  }

  /** The parts of the text between its semicolons. */
  ghost predicate IsCutAtSemicolons(text: string, parts: seq<string>) {
    && parts != [] && JoinSemicolons(parts) == text
    && forall i :: 0 <= i < |parts| ==> NoSemicolon(parts[i])
  }

  /** The middles of the parts, one for each. */
  ghost predicate AreMiddles(parts: seq<string>, middles: seq<string>) {
    |middles| == |parts| && forall i :: 0 <= i < |parts| ==> IsMiddle(parts[i], middles[i])
  }

  ghost function Executed(middles: seq<string>): seq<string> {
    if middles == [] then [] else (if Skipped(middles[0]) then [] else [middles[0]]) + Executed(middles[1..])
  }

  lemma {:induction false} OneMiddle(part: string, middle: string)
    requires IsMiddle(part, middle)
    ensures Piece(part) == if Skipped(middle) then [] else [middle]
  {
    StripIff(part, middle);
    StatementIffNotSkipped(middle);
  }

  /**
   * The statements of a text are the parts between its semicolons without the white space around them, in
   * order, and without those that are empty or say BEGIN or COMMIT in any case.
   */
  lemma {:induction false} PiecesAreExact(text: string, parts: seq<string>, middles: seq<string>)
    requires IsCutAtSemicolons(text, parts) && AreMiddles(parts, middles)
    ensures Pieces(text, "") == Executed(middles)
    decreases |parts|
  {
    OneMiddle(parts[0], middles[0]);
    OnePieceOnly(parts[0]);
    if |parts| == 1 {
      assert Executed(middles[1..]) == [];
    } else {
      PiecesAreExact(JoinSemicolons(parts[1..]), parts[1..], middles[1..]);
      PiecesAtSemicolon(parts[0], JoinSemicolons(parts[1..]), "");
    }
  }

  /** Every text can be cut that way. */
  lemma {:induction false} CutExists(text: string) returns (parts: seq<string>, middles: seq<string>)
    ensures IsCutAtSemicolons(text, parts) && AreMiddles(parts, middles)
  {
    parts := Cut(text);
    middles := seq(|parts|, i requires 0 <= i < |parts| => Strip(parts[i]));
    forall i | 0 <= i < |parts|
      ensures IsMiddle(parts[i], middles[i])
    {
      StripIff(parts[i], middles[i]);
    }
  }

  lemma {:induction false} Cut(text: string) returns (parts: seq<string>)
    ensures IsCutAtSemicolons(text, parts)
  {
    if text == [] {
      parts := [""];
    } else {
      var rest := Cut(text[1..]);
      assert text == [text[0]] + text[1..];
      if text[0] == ';' {
        parts := [""] + rest;
        assert parts[1..] == rest;
      } else {
        parts := [[text[0]] + rest[0]] + rest[1..];
        assert parts[1..] == rest[1..];
      }
    }
  }

  lemma {:induction false} MarkerLetters(marker: string, word: string)
    requires InAnyCase(marker, word) && Capitals(word)
    ensures forall i :: 0 <= i < |marker| ==> 65 <= marker[i] as int <= 122
  {
  }

  lemma {:induction false} MarkerPiece(a: string, marker: string, b: string)
    requires AllWhite(a) && AllWhite(b) && (InAnyCase(marker, "BEGIN") || InAnyCase(marker, "COMMIT"))
    ensures Piece(a + marker + b) == [] && NoSemicolon(a + marker + b)
  {
    assert Capitals("BEGIN") && Capitals("COMMIT");
    MarkerLetters(marker, if InAnyCase(marker, "BEGIN") then "BEGIN" else "COMMIT");
    assert IsMiddle(a + marker + b, marker);
    OneMiddle(a + marker + b, marker);
  }

  lemma {:induction false} BlankPiece(a: string)
    requires AllWhite(a)
    ensures Pieces(a, "") == []
  {
    assert AllWhite("") && a == a + "" + "";
    assert IsMiddle(a, "");
    OneMiddle(a, "");
    OnePieceOnly(a);
  }

  lemma {:induction false} MarkerHasNoStatement(a: string, marker: string, b: string)
    requires AllWhite(a) && AllWhite(b) && (InAnyCase(marker, "BEGIN") || InAnyCase(marker, "COMMIT"))
    ensures Pieces(a + marker + b, "") == []
  {
    MarkerPiece(a, marker, b);
    OnePieceOnly(a + marker + b);
  }

  /** Wrapped in BEGIN and COMMIT, in any case and with any white space around them, a script has the same statements. */
  lemma {:induction false} MarkersAreDropped(
      a: string, begin: string, b: string, text: string, c: string, commit: string, d: string, e: string)
    requires AllWhite(a) && AllWhite(b) && AllWhite(c) && AllWhite(d) && AllWhite(e)
    requires InAnyCase(begin, "BEGIN") && InAnyCase(commit, "COMMIT")
    ensures Pieces((a + begin + b) + ";" + (text + ";" + ((c + commit + d) + ";" + e)), "") == Pieces(text, "")
  {
    MarkerHasNoStatement(a, begin, b);
    MarkerHasNoStatement(c, commit, d);
    BlankPiece(e);
    PiecesAtSemicolon(a + begin + b, text + ";" + ((c + commit + d) + ";" + e), "");
    PiecesAtSemicolon(text, (c + commit + d) + ";" + e, "");
    PiecesAtSemicolon(c + commit + d, e, "");
  }

  /** The statements of a file are those of its text. */
  lemma {:induction false} FileIsExact(f: MigrationFile, parts: seq<string>, middles: seq<string>)
    requires IsCutAtSemicolons(ReadText(f.raw), parts) && AreMiddles(parts, middles)
    ensures Read(f).name == f.name && Read(f).statements == Executed(middles)
  {
    PiecesAreExact(ReadText(f.raw), parts, middles);
  }

  // ---- reading a file ----

  lemma {:induction false} PlainTextStays(text: string)
    requires forall i :: 0 <= i < |text| ==> text[i] != '\r'
    ensures ReadText(text) == text
  {
    if text != [] {
      PlainTextStays(text[1..]);
    }
  }

  /** Every line ending, be it a line feed, a return or both, is read as one line feed. */
  lemma {:induction false} LineEndings(left: string, right: string)
    requires forall i :: 0 <= i < |left| ==> left[i] != '\r'
    ensures ReadText(left + "\r\n" + right) == left + "\n" + ReadText(right)
    ensures (right == [] || right[0] != '\n') ==> ReadText(left + "\r" + right) == left + "\n" + ReadText(right)
  {
    if left == [] {
      assert (left + "\r\n" + right)[2..] == right;
      assert (left + "\r" + right)[1..] == right;
      assert "" + "\n" + ReadText(right) == ['\n'] + ReadText(right);
    } else {
      LineEndings(left[1..], right);
      assert (left + "\r\n" + right)[1..] == left[1..] + "\r\n" + right;
      assert (left + "\r" + right)[1..] == left[1..] + "\r" + right;
    }
  }

  // ---- the two checksums ----

  /** The legacy checksum is that of the bytes: equal for equal raw contents only. */
  lemma {:induction false} LegacyIsTheBytes(f: MigrationFile, g: MigrationFile)
    ensures LegacyChecksum(f) == LegacyChecksum(g) <==> f.raw == g.raw
  {
    if LegacyChecksum(f) == LegacyChecksum(g) {
      DigestIsInjective(f.raw, g.raw);
    }
  }

  /** It is the canonical checksum of another file exactly if the bytes are that file's text. */
  lemma {:induction false} LegacyIsCanonicalIff(f: MigrationFile, g: MigrationFile)
    ensures LegacyChecksum(f) == Checksum(g) <==> f.raw == ReadText(g.raw)
  {
    ReadTextHasNoReturn(g.raw);
    NothingToReplace(ReadText(g.raw));
    if LegacyChecksum(f) == Checksum(g) {
      DigestIsInjective(f.raw, ReadText(g.raw));
    }
  }
}
