/** Title fingerprints and their Jaccard similarity. */
module TitleSimilarity {
  /**
   * Which characters are letters or digits, and how a character is lowered, possibly to several. The
   * tables are left open: what is proved holds for whatever they say.
   */
  datatype Alphabet = Alphabet(isAlnum: char -> bool, lower: char -> string)

  const ALPHABET: Alphabet

  predicate IsAlnum(c: char) {
    ALPHABET.isAlnum(c)
  }

  function Keep(word: string): set<string> {
    if |word| > 2 then {word} else {}
  }

  /** The kept words of `text`, where `word` is the word read so far. */
  function Words(text: string, word: string): set<string> {
    if text == [] then Keep(word)
    else if IsAlnum(text[0]) then Words(text[1..], word + ALPHABET.lower(text[0]))
    else Keep(word) + Words(text[1..], "")
  }

  function TitleFingerprint(title: string): set<string> {
    Words(title, "")
  }

  /** A separator splits the fingerprint into the fingerprints of the two sides. */
  lemma {:induction false} WordsAtSeparator(left: string, separator: char, right: string, word: string)
    requires !IsAlnum(separator)
    ensures Words(left + [separator] + right, word) == Words(left, word) + Words(right, "")
  {
    var whole := left + [separator] + right;
    if left == [] {
      assert whole[1..] == right;
    } else {
      assert whole[1..] == left[1..] + [separator] + right;
      if IsAlnum(left[0]) {
        WordsAtSeparator(left[1..], separator, right, word + ALPHABET.lower(left[0]));
      } else {
        WordsAtSeparator(left[1..], separator, right, "");
      }
    }
  }

  /** Swapping the two halves of a headline, around any punctuation, leaves its fingerprint alone. */
  lemma {:induction false} WordOrderIsIrrelevant(left: string, first: char, right: string, second: char)
    requires !IsAlnum(first) && !IsAlnum(second)
    ensures TitleFingerprint(left + [first] + right) == TitleFingerprint(right + [second] + left)
  {
    WordsAtSeparator(left, first, right, "");
    WordsAtSeparator(right, second, left, "");
  }

  function Jaccard(left: set<string>, right: set<string>): real
  {
    if left == {} && right == {} then 0.0
    else
      assert left + right != {};
      |left * right| as real / |left + right| as real
  }

  lemma {:induction false} SubsetCard<T>(small: set<T>, large: set<T>)
    requires small <= large
    ensures |small| <= |large|
  {
    assert large == small + (large - small);
  }

  /** The distance 1 - Jaccard as a quotient of two set sizes. */
  lemma {:induction false} DistanceQuotient(a: set<string>, b: set<string>) returns (apart: nat, all: nat)
    requires a != {} || b != {}
    ensures apart == |a + b| - |a * b| && all == |a + b| && 0 <= apart <= all && all > 0
    ensures apart == |(a + b) - (a * b)|
    ensures 1.0 - Jaccard(a, b) == apart as real / all as real
  {
    SubsetCard(a * b, a + b);
    assert a + b != {};
    all := |a + b|;
    apart := all - |a * b|;
    assert (a + b) == (a * b) + ((a + b) - (a * b));
    OneMinus(|a * b| as real, all as real);
  }

  lemma {:induction false} OneMinus(n: real, d: real)
    requires d > 0.0
    ensures 1.0 - n / d == (d - n) / d
  {
    assert n / d + (d - n) / d == (n + (d - n)) / d;
  }

  lemma {:induction false} QuotientGrows(s: real, d: real, x: real)
    requires 0.0 <= s <= d && d > 0.0 && x >= 0.0
    ensures s / d <= (s + x) / (d + x)
  {
    var q, r := s / d, (s + x) / (d + x);
    QuotientMonotone(s, d, d);
    assert q <= 1.0;
    ProductMonotone(q, 1.0, x);
    assert q * (d + x) == s + q * x;
    assert r * (d + x) == s + x;
    ProductReflects(q, r, d + x);
  }

  lemma {:induction false} ProductMonotone(a: real, b: real, c: real)
    requires a <= b && c >= 0.0
    ensures a * c <= b * c
  {
  }

  lemma {:induction false} ProductReflects(a: real, b: real, c: real)
    requires a * c <= b * c && c > 0.0
    ensures a <= b
  {
    QuotientMonotone(a * c, b * c, c);
    assert a * c / c == a && b * c / c == b;
  }

  lemma {:induction false} QuotientShrinks(s: real, d: real, u: real)
    requires 0.0 <= s && 0.0 < d <= u
    ensures s / u <= s / d
  {
    var q, r := s / u, s / d;
    assert q * u == s && r * d == s && q >= 0.0;
    assert q * d <= q * u;
  }

  lemma {:induction false} QuotientMonotone(s: real, t: real, u: real)
    requires s <= t && u > 0.0
    ensures s / u <= t / u
  {
  }

  /** What lies outside both `a` and `c`, or in just one of them, lies in just one set of another pair. */
  lemma {:induction false} ApartCounts(a: set<string>, b: set<string>, c: set<string>)
    ensures |a + b + c| - |a * c| <= |(a + b) - (a * b)| + |(b + c) - (b * c)|
    ensures |a + b| <= |a + b + c| && |b + c| <= |a + b + c| && |a + c| <= |a + b + c|
  {
    var all := a + b + c;
    SubsetCard(a + b, all);
    SubsetCard(b + c, all);
    SubsetCard(a + c, all);
    var ab, bc := (a + b) - (a * b), (b + c) - (b * c);
    assert all == (a * c) + (all - (a * c));
    SubsetCard(all - (a * c), ab + bc);
    SubsetCard(bc - ab, bc);
    assert ab + bc == ab + (bc - ab);
  }

  /** The same inequality on quotients: `u` is the size of the union of all three sets. */
  lemma {:induction false} QuotientTriangle(sac: real, dac: real, sab: real, dab: real, sbc: real, dbc: real, u: real)
    requires 0.0 <= sac <= dac <= u && 0.0 < dac
    requires 0.0 <= sab && 0.0 < dab <= u && 0.0 <= sbc && 0.0 < dbc <= u
    requires u - dac + sac <= sab + sbc
    ensures sac / dac <= sab / dab + sbc / dbc
  {
    var x := u - dac;
    QuotientGrows(sac, dac, x);
    assert (sac + x) / u == (sac + x) / (dac + x);
    QuotientMonotone(sac + x, sab + sbc, u);
    QuotientAdds(sab, sbc, u);
    QuotientShrinks(sab, dab, u);
    QuotientShrinks(sbc, dbc, u);
  }

  lemma {:induction false} QuotientAdds(s: real, t: real, u: real)
    requires u > 0.0
    ensures (s + t) / u == s / u + t / u
  {
  }

  /** Jaccard distance obeys the triangle inequality, empty sets included. */
  lemma {:induction false} JaccardTriangle(a: set<string>, b: set<string>, c: set<string>)
    ensures 1.0 - Jaccard(a, c) <= (1.0 - Jaccard(a, b)) + (1.0 - Jaccard(b, c))
  {
    JaccardRange(a, b);
    JaccardRange(b, c);
    JaccardRange(a, c);
    if a != {} && b != {} && c != {} {
      var sac, dac := DistanceQuotient(a, c);
      var sab, dab := DistanceQuotient(a, b);
      var sbc, dbc := DistanceQuotient(b, c);
      ApartCounts(a, b, c);
      var u := |a + b + c|;
      assert u - dac + sac <= sab + sbc;
      QuotientTriangle(sac as real, dac as real, sab as real, dab as real, sbc as real, dbc as real, u as real);
    }
  }

  lemma {:induction false} JaccardRange(a: set<string>, b: set<string>)
    ensures 0.0 <= Jaccard(a, b) <= 1.0
    ensures Jaccard(a, b) == Jaccard(b, a)
    ensures a == {} || b == {} ==> Jaccard(a, b) == 0.0
    ensures a == b && a != {} ==> Jaccard(a, b) == 1.0
  {
    assert a * b == b * a && a + b == b + a;
    if a != {} || b != {} {
      var apart, all := DistanceQuotient(a, b);
      assert 0.0 <= apart as real / all as real <= 1.0;
      if a == {} || b == {} {
        assert a * b == {};
      }
      if a == b {
        assert a * b == a && a + b == a;
      }
    }
  }

  /** Two titles that both clear 0.85 against a third clear 0.70 against each other. */
  lemma {:induction false} SimilarToOneTitle(a: set<string>, hub: set<string>, b: set<string>)
    requires Jaccard(a, hub) >= 0.85 && Jaccard(b, hub) >= 0.85
    ensures Jaccard(a, b) >= 0.70
  {
    JaccardTriangle(a, hub, b);
    JaccardRange(b, hub);
  }
}
