/** Which words make up the fingerprint of a title, said by positions in the title. */
module TitleWords {
  import opened TitleSimilarity

  /** A maximal run of letters and digits: the characters `i` to `j - 1` of the title. */
  ghost predicate IsRun(title: string, i: nat, j: nat) {
    && i < j <= |title|
    && (forall k :: i <= k < j ==> ALPHABET.isAlnum(title[k]))
    && (i > 0 ==> !ALPHABET.isAlnum(title[i - 1]))
    && (j < |title| ==> !ALPHABET.isAlnum(title[j]))
  }

  /** The characters `i` to `j - 1` of the title, each in lower case. */
  ghost function Lowered(title: string, i: nat, j: nat): string
    requires i <= j <= |title|
  {
    if i == j then "" else Lowered(title, i, j - 1) + ALPHABET.lower(title[j - 1])
  }

  ghost predicate IsWordAt(title: string, i: nat, j: nat) {
    IsRun(title, i, j) && |Lowered(title, i, j)| >= 3
  }

  /** The words of a title: its runs in lower case, those of at least three characters. */
  ghost function WordsOf(title: string): set<string> {
    set i: nat, j: nat | 0 <= i < |title| && 0 <= j <= |title| && IsWordAt(title, i, j) :: Lowered(title, i, j)
  }

  /** `word` is a word of the title that starts at position `s` or later. */
  ghost predicate WordFrom(title: string, s: nat, word: string) {
    exists i: nat, j: nat :: s <= i && IsWordAt(title, i, j) && Lowered(title, i, j) == word
  }

  /** Reading on from position `p`, in or at the start of the run that begins at `s`. */
  lemma {:induction false} WordsFrom(title: string, s: nat, p: nat, word: string)
    requires s <= p <= |title|
    requires (forall k :: s <= k < p ==> ALPHABET.isAlnum(title[k])) && (s > 0 ==> !ALPHABET.isAlnum(title[s - 1]))
    ensures word in Words(title[p..], Lowered(title, s, p)) <==> WordFrom(title, s, word)
    decreases |title| - p
  {
    if p == |title| {
      LastWord(title, s, word);
    } else {
      assert title[p..][0] == title[p] && title[p..][1..] == title[p + 1..];
      if ALPHABET.isAlnum(title[p]) {
        WordsFrom(title, s, p + 1, word);
      } else {
        WordsFrom(title, p + 1, p + 1, word);
        RunEnds(title, s, p, word);
      }
    }
  }

  /** At the end of the title only the run that was being read can be a word. */
  lemma {:induction false} LastWord(title: string, s: nat, word: string)
    requires s <= |title|
    requires (forall k :: s <= k < |title| ==> ALPHABET.isAlnum(title[k])) && (s > 0 ==> !ALPHABET.isAlnum(title[s - 1]))
    ensures word in Keep(Lowered(title, s, |title|)) <==> WordFrom(title, s, word)
  {
    if WordFrom(title, s, word) {
      var i: nat, j: nat :| s <= i && IsWordAt(title, i, j) && Lowered(title, i, j) == word;
      assert i == s && j == |title|;
    }
    if word in Keep(Lowered(title, s, |title|)) {
      assert IsWordAt(title, s, |title|);
    }
  }

  /** A separator at `p` ends the run that began at `s`. */
  lemma {:induction false} RunEnds(title: string, s: nat, p: nat, word: string)
    requires s <= p < |title| && !ALPHABET.isAlnum(title[p])
    requires (forall k :: s <= k < p ==> ALPHABET.isAlnum(title[k])) && (s > 0 ==> !ALPHABET.isAlnum(title[s - 1]))
    ensures WordFrom(title, s, word) <==> word in Keep(Lowered(title, s, p)) || WordFrom(title, p + 1, word)
  {
    if WordFrom(title, s, word) {
      var i: nat, j: nat :| s <= i && IsWordAt(title, i, j) && Lowered(title, i, j) == word;
      if i <= p {
        assert i == s && j == p;
      }
    }
    if word in Keep(Lowered(title, s, p)) {
      assert IsWordAt(title, s, p);
    }
  }

  /** The fingerprint of a title is the set of its words. */
  lemma {:induction false} FingerprintIsExact(title: string)
    ensures TitleFingerprint(title) == WordsOf(title)
    ensures forall word :: word in TitleFingerprint(title) <==>
              |word| >= 3 && exists i: nat, j: nat :: IsRun(title, i, j) && Lowered(title, i, j) == word
  {
    assert title[0..] == title;
    forall word
      ensures word in TitleFingerprint(title) <==> WordFrom(title, 0, word)
    {
      WordsFrom(title, 0, 0, word);
    }
    forall word
      ensures WordFrom(title, 0, word) <==>
                |word| >= 3 && exists i: nat, j: nat :: IsRun(title, i, j) && Lowered(title, i, j) == word
      ensures WordFrom(title, 0, word) <==> word in WordsOf(title)
    {
      if i: nat, j: nat :| IsRun(title, i, j) && Lowered(title, i, j) == word && |word| >= 3 {
        assert IsWordAt(title, i, j);
      }
    }
  }

  // ---- similarity of titles, by counting words ----

  /** How many words two titles share, and how many they have together. */
  ghost function Shared(a: string, b: string): nat {
    |WordsOf(a) * WordsOf(b)|
  }

  ghost function Together(a: string, b: string): nat {
    |WordsOf(a) + WordsOf(b)|
  }

  /** At least 85 of every 100 words are shared. */
  ghost predicate Alike(a: string, b: string) {
    Together(a, b) > 0 && 100 * Shared(a, b) >= 85 * Together(a, b)
  }

  lemma {:induction false} SimilarityCounts(a: string, b: string)
    ensures Together(a, b) == 0 ==> Jaccard(TitleFingerprint(a), TitleFingerprint(b)) == 0.0 && Shared(a, b) == 0
    ensures Together(a, b) > 0 ==>
              Jaccard(TitleFingerprint(a), TitleFingerprint(b)) == Shared(a, b) as real / Together(a, b) as real
  {
    FingerprintIsExact(a);
    FingerprintIsExact(b);
    var x, y := WordsOf(a), WordsOf(b);
    if |x + y| == 0 {
      assert x + y == {};
      assert x == {} && y == {} && x * y == {};
    } else {
      assert x != {} || y != {};
    }
  }

  lemma {:induction false} QuotientAtLeast(n: nat, d: nat)
    requires d > 0
    ensures n as real / d as real >= 0.85 <==> 100 * n >= 85 * d
  {
    QuotientAtLeastReal(n as real, d as real);
    assert 100.0 * n as real == (100 * n) as real && 85.0 * d as real == (85 * d) as real;
  }

  lemma {:induction false} QuotientAtLeastReal(x: real, y: real)
    requires y > 0.0
    ensures x / y >= 0.85 <==> 100.0 * x >= 85.0 * y
  {
    var q := x / y;
    assert q * y == x;
    Scaled(0.85, q, y);
    assert 0.85 * y > x <==> 85.0 * y > 100.0 * x;
  }

  /** Two titles clear the threshold if and only if they are alike. */
  lemma {:induction false} SimilarIffAlike(a: string, b: string)
    ensures Jaccard(TitleFingerprint(a), TitleFingerprint(b)) >= 0.85 <==> Alike(a, b)
  {
    SimilarityCounts(a, b);
    if Together(a, b) > 0 {
      QuotientAtLeast(Shared(a, b), Together(a, b));
    }
  }

  lemma {:induction false} CompareQuotients(n: nat, d: nat, m: nat, e: nat)
    requires d > 0 && e > 0
    ensures n as real / d as real > m as real / e as real <==> n * e > m * d
  {
    var q, r := n as real / d as real, m as real / e as real;
    var x, y := d as real, e as real;
    assert q * x == n as real && r * y == m as real;
    assert (n * e) as real == q * x * y && (m * d) as real == r * y * x;
    Scaled(q, r, x * y);
    assert q * x * y == q * (x * y) && r * y * x == r * (x * y);
  }

  lemma {:induction false} Scaled(q: real, r: real, f: real)
    requires f > 0.0
    ensures q > r <==> q * f > r * f
  {
  }

  /** `a` shares relatively more words with the title than `b` does. */
  ghost predicate MoreAlike(title: string, a: string, b: string) {
    Shared(title, a) * Together(title, b) > Shared(title, b) * Together(title, a)
  }

  lemma {:induction false} MoreSimilarIff(title: string, a: string, b: string)
    ensures Jaccard(TitleFingerprint(title), TitleFingerprint(a)) > Jaccard(TitleFingerprint(title), TitleFingerprint(b))
            <==> MoreAlike(title, a, b)
  {
    SimilarityCounts(title, a);
    SimilarityCounts(title, b);
    if Together(title, a) > 0 && Together(title, b) > 0 {
      CompareQuotients(Shared(title, a), Together(title, a), Shared(title, b), Together(title, b));
    } else {
      NothingShared(title, a);
      NothingShared(title, b);
    }
  }

  lemma {:induction false} NothingShared(title: string, other: string)
    ensures Together(title, other) == 0 ==> WordsOf(title) == {}
    ensures WordsOf(title) == {} ==>
              Shared(title, other) == 0 && Jaccard(TitleFingerprint(title), TitleFingerprint(other)) == 0.0
  {
    FingerprintIsExact(title);
    JaccardRange(TitleFingerprint(title), TitleFingerprint(other));
    if WordsOf(title) == {} {
      assert WordsOf(title) * WordsOf(other) == {};
    }
    if Together(title, other) == 0 {
      assert WordsOf(title) + WordsOf(other) == {};
    }
  }

  /** Titles with the same words, and at least one, have similarity 1. */
  lemma {:induction false} SameWordsAreSimilar(a: string, b: string)
    requires WordsOf(a) == WordsOf(b) != {}
    ensures Jaccard(TitleFingerprint(a), TitleFingerprint(b)) == 1.0
  {
    FingerprintIsExact(a);
    FingerprintIsExact(b);
    JaccardRange(WordsOf(a), WordsOf(b));
  }
}
