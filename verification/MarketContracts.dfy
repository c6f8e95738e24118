/** Market observations and the text fingerprints that deduplicate them. */
module MarketContracts {
  import opened Common

  type Time = int

  /** A price as a count of 10^-10, the resolution of the NUMERIC(28, 10) columns. */
  type Decimal = int

  datatype MarketQuote = MarketQuote(
    id: nat,
    provider: string,
    symbol: string,
    nativeId: Option<string>,
    bid: Option<Decimal>,
    ask: Option<Decimal>,
    last: Option<Decimal>,
    providerTimestamp: Option<Time>,
    receivedAt: Time,
    processedAt: Time)

  datatype MarketBar = MarketBar(
    id: nat,
    provider: string,
    nativeId: Option<string>,
    symbol: string,
    timeframe: string,
    timestamp: Time,
    barEndAt: Time,
    providerUpdatedAt: Option<Time>,
    receivedAt: Time,
    processedAt: Time,
    isFinal: bool,
    open: Decimal,
    high: Decimal,
    low: Decimal,
    close: Decimal,
    volume: Option<nat>)

  /** The pattern that contracts put on a symbol. */
  predicate ValidSymbol(symbol: string) {
    1 <= |symbol| <= 12 && forall i :: 0 <= i < |symbol| ==> 'A' <= symbol[i] <= 'Z' || symbol[i] == '.'
  }

  predicate KnownTimeframe(timeframe: string) {
    timeframe in ["1m", "5m", "15m", "1h", "1d"]
  }

  /** The longest native id that contracts allow. */
  const NATIVE_ID_LENGTH := 500

  function EffectiveTime(quote: MarketQuote): Time {
    if quote.providerTimestamp.Some? then quote.providerTimestamp.value else quote.receivedAt
  }

  /** The market time of `a` is not after that of `b`: provider times count, and receipt only where one is missing. */
  ghost predicate NoLater(a: MarketQuote, b: MarketQuote) {
    match (a.providerTimestamp, b.providerTimestamp)
    case (Some(x), Some(y)) => x <= y
    case (Some(x), None) => x <= b.receivedAt
    case (None, Some(y)) => a.receivedAt <= y
    case (None, None) => a.receivedAt <= b.receivedAt
  }

  lemma {:induction false} TimesCompare(a: MarketQuote, b: MarketQuote)
    ensures NoLater(a, b) <==> EffectiveTime(a) <= EffectiveTime(b)
  {
  }

  // ---- texts of fields ----

  function Digit(d: nat): char
    requires d < 10
  {
    ('0' as int + d) as char
  }

  function NatText(n: nat): string {
    if n < 10 then [Digit(n)] else NatText(n / 10) + [Digit(n % 10)]
  }

  function NatValue(text: string): int {
    if text == [] then 0
    else NatValue(text[..|text| - 1]) * 10 + (text[|text| - 1] as int - '0' as int)
  }

  ghost predicate IsDigits(text: string) {
    text != [] && forall i :: 0 <= i < |text| ==> '0' <= text[i] <= '9'
  }

  lemma {:induction false} NatTextReads(n: nat)
    ensures NatValue(NatText(n)) == n && IsDigits(NatText(n))
  {
    if n >= 10 {
      NatTextReads(n / 10);
      var text := NatText(n);
      assert text[..|text| - 1] == NatText(n / 10);
    }
  }

  /** A canonical text of a number: equal numbers, equal texts, and conversely. */
  function IntText(n: int): string {
    if n < 0 then "-" + NatText(-n) else NatText(n)
  }

  lemma {:induction false} IntTextIsInjective(a: int, b: int)
    ensures IntText(a) == IntText(b) ==> a == b
    ensures IntText(a) != "null" && SeparatorFree(IntText(a))
  {
    NatTextReads(if a < 0 then -a else a);
    NatTextReads(if b < 0 then -b else b);
    assert IntText(a)[0] != 'n';
    if a < 0 && b < 0 && IntText(a) == IntText(b) {
      assert NatText(-a) == IntText(a)[1..] == IntText(b)[1..] == NatText(-b);
    }
  }

  /** `_decimal_text` and `_time_text`. */
  function OptionText(value: Option<int>): string {
    if value.None? then "null" else IntText(value.value)
  }

  lemma {:induction false} OptionTextIsInjective(a: Option<int>, b: Option<int>)
    ensures OptionText(a) == OptionText(b) ==> a == b
    ensures SeparatorFree(OptionText(a))
  {
    if a.Some? {
      IntTextIsInjective(a.value, if b.Some? then b.value else 0);
    }
    if b.Some? {
      IntTextIsInjective(b.value, 0);
    }
  }

  // ---- joining fields ----

  const SEPARATOR: char := 31 as char

  predicate SeparatorFree(text: string) {
    forall i :: 0 <= i < |text| ==> text[i] != SEPARATOR
  }

  function Join(parts: seq<string>): string {
    if |parts| == 0 then []
    else if |parts| == 1 then parts[0]
    else parts[0] + [SEPARATOR] + Join(parts[1..])
  }

  function Split(text: string): (parts: seq<string>)
    ensures parts != []
  {
    if text == [] then [""]
    else
      var rest := Split(text[1..]);
      if text[0] == SEPARATOR then [""] + rest else [[text[0]] + rest[0]] + rest[1..]
  }

  lemma {:induction false} SplitOfPart(part: string)
    requires SeparatorFree(part)
    ensures Split(part) == [part]
  {
    if part != [] {
      SplitOfPart(part[1..]);
      assert [part[0]] + part[1..] == part;
    }
  }

  /** A separator splits a text into the pieces on its left and those on its right. */
  lemma {:induction false} SplitAtSeparator(left: string, right: string)
    ensures Split(left + [SEPARATOR] + right) == Split(left) + Split(right)
  {
    var whole := left + [SEPARATOR] + right;
    if left == [] {
      assert whole[1..] == right;
    } else {
      assert whole[1..] == left[1..] + [SEPARATOR] + right;
      SplitAtSeparator(left[1..], right);
    }
  }

  lemma {:induction false} JoinPrepends(c: char, parts: seq<string>)
    requires parts != []
    ensures Join([[c] + parts[0]] + parts[1..]) == [c] + Join(parts)
  {
    assert ([[c] + parts[0]] + parts[1..])[1..] == parts[1..];
  }

  /** Joining undoes splitting, and the pieces hold no separator. */
  lemma {:induction false} JoinUndoesSplit(text: string)
    ensures Join(Split(text)) == text
    ensures forall i :: 0 <= i < |Split(text)| ==> SeparatorFree(Split(text)[i])
  {
    if text != [] {
      var rest := Split(text[1..]);
      JoinUndoesSplit(text[1..]);
      assert text == [text[0]] + text[1..];
      if text[0] == SEPARATOR {
        assert ([""] + rest)[1..] == rest;
      } else {
        JoinPrepends(text[0], rest);
      }
    }
  }

  /** Splitting undoes joining, so the joined text determines its separator-free fields. */
  lemma {:induction false} SplitUndoesJoin(parts: seq<string>)
    requires parts != [] && forall i :: 0 <= i < |parts| ==> SeparatorFree(parts[i])
    ensures Split(Join(parts)) == parts
  {
    SplitOfPart(parts[0]);
    if |parts| > 1 {
      SplitUndoesJoin(parts[1..]);
      SplitAtSeparator(parts[0], Join(parts[1..]));
    }
  }

  // ---- the digest ----

  const DIGEST_BASE: nat := 0x11_0001

  /** Stands for SHA-256: an injective map from texts to an ordered type. */
  function Digest(text: string): nat {
    if text == [] then 0
    else Digest(text[..|text| - 1]) * DIGEST_BASE + (text[|text| - 1] as nat + 1)
  }

  lemma {:induction false} DigestIsInjective(a: string, b: string)
    requires Digest(a) == Digest(b)
    ensures a == b
  {
    if a != [] && b != [] {
      var x, y := a[..|a| - 1], b[..|b| - 1];
      assert Digest(x) == Digest(y) && a[|a| - 1] == b[|b| - 1];
      DigestIsInjective(x, y);
      assert a == x + [a[|a| - 1]] && b == y + [b[|b| - 1]];
    }
  }

  // ---- fingerprints ----

  function Text(value: Option<string>): string {
    if value.None? then "" else value.value
  }

  /** The fields after the native id. */
  function QuoteTail(q: MarketQuote): seq<string> {
    [IntText(EffectiveTime(q)), OptionText(q.bid), OptionText(q.ask), OptionText(q.last)]
  }

  function QuoteParts(q: MarketQuote): seq<string> {
    [q.provider, q.symbol, Text(q.nativeId)] + QuoteTail(q)
  }

  function QuoteHash(q: MarketQuote): nat {
    Digest(Join(QuoteParts(q)))
  }

  /** The fields after the provider. */
  function BarTail(b: MarketBar): seq<string> {
    [b.symbol, b.timeframe, IntText(b.timestamp), IntText(b.barEndAt),
     IntText(b.open), IntText(b.high), IntText(b.low), IntText(b.close),
     OptionText(b.volume), if b.isFinal then "True" else "False"]
  }

  function BarHash(b: MarketBar): nat {
    Digest(Join([b.provider] + BarTail(b)))
  }

  /** The fields that make a quote the same observation; receipt time only stands in for a missing provider time. */
  ghost predicate SameQuote(a: MarketQuote, b: MarketQuote) {
    && a.provider == b.provider && a.symbol == b.symbol && Text(a.nativeId) == Text(b.nativeId)
    && NoLater(a, b) && NoLater(b, a) && a.bid == b.bid && a.ask == b.ask && a.last == b.last
  }

  ghost predicate SameBar(a: MarketBar, b: MarketBar) {
    && a.provider == b.provider && a.symbol == b.symbol && a.timeframe == b.timeframe
    && a.timestamp == b.timestamp && a.barEndAt == b.barEndAt
    && a.open == b.open && a.high == b.high && a.low == b.low && a.close == b.close
    && a.volume == b.volume && a.isFinal == b.isFinal
  }

  lemma {:induction false} SymbolIsClean(symbol: string)
    requires ValidSymbol(symbol)
    ensures SeparatorFree(symbol)
  {
  }

  lemma {:induction false} QuoteTailIsClean(q: MarketQuote)
    ensures Split(Join(QuoteTail(q))) == QuoteTail(q)
  {
    IntTextIsInjective(EffectiveTime(q), 0);
    OptionTextIsInjective(q.bid, None);
    OptionTextIsInjective(q.ask, None);
    OptionTextIsInjective(q.last, None);
    SplitUndoesJoin(QuoteTail(q));
  }

  lemma {:induction false} JoinParts(provider: string, symbol: string, nativeId: string, tail: seq<string>)
    requires tail != []
    ensures Join([provider, symbol, nativeId] + tail)
            == provider + [SEPARATOR] + (symbol + [SEPARATOR] + (nativeId + [SEPARATOR] + Join(tail)))
  {
    JoinOneMore(nativeId, tail);
    JoinOneMore(symbol, [nativeId] + tail);
    JoinOneMore(provider, [symbol] + ([nativeId] + tail));
    assert [provider, symbol, nativeId] + tail == [provider] + ([symbol] + ([nativeId] + tail));
  }

  lemma {:induction false} JoinOneMore(part: string, rest: seq<string>)
    requires rest != []
    ensures Join([part] + rest) == part + [SEPARATOR] + Join(rest)
  {
    assert ([part] + rest)[1..] == rest;
  }

  /** The text of a quote falls into the pieces of provider and native id around the symbol, and four fields more. */
  lemma {:induction false} QuotePieces(q: MarketQuote)
    requires ValidSymbol(q.symbol)
    ensures Split(Join(QuoteParts(q))) == Split(q.provider) + [q.symbol] + Split(Text(q.nativeId)) + QuoteTail(q)
  {
    var tail := Join(QuoteTail(q));
    JoinParts(q.provider, q.symbol, Text(q.nativeId), QuoteTail(q));
    SplitAtSeparator(q.provider, q.symbol + [SEPARATOR] + (Text(q.nativeId) + [SEPARATOR] + tail));
    SplitAtSeparator(q.symbol, Text(q.nativeId) + [SEPARATOR] + tail);
    SplitAtSeparator(Text(q.nativeId), tail);
    SymbolIsClean(q.symbol);
    SplitOfPart(q.symbol);
    QuoteTailIsClean(q);
  }

  lemma {:induction false} SameTailSameFields(a: MarketQuote, b: MarketQuote)
    requires QuoteTail(a) == QuoteTail(b)
    ensures EffectiveTime(a) == EffectiveTime(b) && a.bid == b.bid && a.ask == b.ask && a.last == b.last
  {
    var x, y := QuoteTail(a), QuoteTail(b);
    assert x[0] == y[0] && x[1] == y[1] && x[2] == y[2] && x[3] == y[3];
    IntTextIsInjective(EffectiveTime(a), EffectiveTime(b));
    OptionTextIsInjective(a.bid, b.bid);
    OptionTextIsInjective(a.ask, b.ask);
    OptionTextIsInjective(a.last, b.last);
  }

  lemma {:induction false} SameSplit(a: string, b: string)
    requires Split(a) == Split(b)
    ensures a == b
  {
    JoinUndoesSplit(a);
    JoinUndoesSplit(b);
  }

  /** Two sequences of pieces that line up at the symbol line up everywhere. */
  lemma {:induction false} LinedUp(
      p: seq<string>, s: string, n: seq<string>, t: seq<string>,
      p2: seq<string>, s2: string, n2: seq<string>, t2: seq<string>)
    requires p + [s] + n + t == p2 + [s2] + n2 + t2 && |t| == |t2|
    ensures t == t2 && p + [s] + n == p2 + [s2] + n2
    ensures |p| == |p2| ==> p == p2 && s == s2 && n == n2
  {
    var x, y := p + [s] + n, p2 + [s2] + n2;
    assert x == (x + t)[..|x|] && y == (y + t2)[..|y|];
    assert t == (x + t)[|x|..] && t2 == (y + t2)[|y|..];
    if |p| == |p2| {
      assert p == x[..|p|] && p2 == y[..|p|];
      assert s == x[|p|] && s2 == y[|p|];
      assert n == x[|p| + 1..] && n2 == y[|p| + 1..];
    }
  }

  /**
   * Two quotes are the same observation if and only if they share a fingerprint and their providers
   * hold equally many separators, as providers without any and equal providers do.
   */
  lemma {:induction false} QuotesDedupeIff(a: MarketQuote, b: MarketQuote)
    requires ValidSymbol(a.symbol) && ValidSymbol(b.symbol)
    ensures SameQuote(a, b) <==> QuoteHash(a) == QuoteHash(b) && |Split(a.provider)| == |Split(b.provider)|
  {
    if QuoteHash(a) == QuoteHash(b) && |Split(a.provider)| == |Split(b.provider)| {
      SharedPieces(a, b);
      SameSplit(a.provider, b.provider);
      SameSplit(Text(a.nativeId), Text(b.nativeId));
      SameTailSameFields(a, b);
    }
  }

  /** Quotes with one fingerprint have the same pieces, but the symbol may be a different one of them. */
  lemma {:induction false} SharedPieces(a: MarketQuote, b: MarketQuote)
    requires ValidSymbol(a.symbol) && ValidSymbol(b.symbol) && QuoteHash(a) == QuoteHash(b)
    ensures QuoteTail(a) == QuoteTail(b)
    ensures Split(a.provider) + [a.symbol] + Split(Text(a.nativeId)) == Split(b.provider) + [b.symbol] + Split(Text(b.nativeId))
    ensures |Split(a.provider)| == |Split(b.provider)| ==>
              Split(a.provider) == Split(b.provider) && a.symbol == b.symbol && Split(Text(a.nativeId)) == Split(Text(b.nativeId))
  {
    DigestIsInjective(Join(QuoteParts(a)), Join(QuoteParts(b)));
    QuotePieces(a);
    QuotePieces(b);
    LinedUp(
      Split(a.provider), a.symbol, Split(Text(a.nativeId)), QuoteTail(a),
      Split(b.provider), b.symbol, Split(Text(b.nativeId)), QuoteTail(b));
  }

  /** Two different observations under one fingerprint. */
  ghost predicate Collide(a: MarketQuote, b: MarketQuote) {
    QuoteHash(a) == QuoteHash(b) && !SameQuote(a, b)
  }

  /** A collision takes a separator in a provider and one in the native id of the other quote. */
  lemma {:induction false} CollisionNeedsBoth(a: MarketQuote, b: MarketQuote)
    requires ValidSymbol(a.symbol) && ValidSymbol(b.symbol) && Collide(a, b)
    ensures || (!SeparatorFree(a.provider) && !SeparatorFree(Text(b.nativeId)))
            || (!SeparatorFree(b.provider) && !SeparatorFree(Text(a.nativeId)))
  {
    QuotesDedupeIff(a, b);
    SharedPieces(a, b);
    PieceCounts(Split(a.provider), a.symbol, Split(Text(a.nativeId)), Split(b.provider), b.symbol, Split(Text(b.nativeId)));
    OnePieceIfClean(a.provider);
    OnePieceIfClean(b.provider);
    OnePieceIfClean(Text(a.nativeId));
    OnePieceIfClean(Text(b.nativeId));
  }

  lemma {:induction false} PieceCounts(p: seq<string>, s: string, n: seq<string>, p2: seq<string>, s2: string, n2: seq<string>)
    requires p + [s] + n == p2 + [s2] + n2
    ensures |p| + |n| == |p2| + |n2|
  {
    assert |p + [s] + n| == |p2 + [s2] + n2|;
  }

  lemma {:induction false} OnePieceIfClean(text: string)
    ensures SeparatorFree(text) ==> |Split(text)| == 1
  {
    if SeparatorFree(text) {
      SplitOfPart(text);
    }
  }

  ghost predicate ValidQuote(q: MarketQuote) {
    ValidSymbol(q.symbol) && |Text(q.nativeId)| <= NATIVE_ID_LENGTH
  }

  /** Some piece of the provider behind its first could be the symbol, with the rest moved into the native id. */
  ghost predicate ProviderHidesSymbol(q: MarketQuote) {
    var p, n := Split(q.provider), Split(Text(q.nativeId));
    exists k :: 1 <= k < |p| && ValidSymbol(p[k]) && |Join(p[k + 1..] + [q.symbol] + n)| <= NATIVE_ID_LENGTH
  }

  /** Some piece of the native id before its last could be the symbol, with the rest moved into the provider. */
  ghost predicate NativeIdHidesSymbol(q: MarketQuote) {
    var n := Split(Text(q.nativeId));
    exists k :: 0 <= k < |n| - 1 && ValidSymbol(n[k])
  }

  /** Reads other fields out of the pieces of a quote. */
  lemma {:induction false} Regroup(q: MarketQuote, p: seq<string>, symbol: string, n: seq<string>) returns (other: MarketQuote)
    requires ValidSymbol(q.symbol) && ValidSymbol(symbol) && p != [] && n != [] && |p| != |Split(q.provider)|
    requires p + [symbol] + n == Split(q.provider) + [q.symbol] + Split(Text(q.nativeId))
    ensures other == q.(provider := Join(p), symbol := symbol, nativeId := Some(Join(n)))
    ensures Collide(other, q)
  {
    other := q.(provider := Join(p), symbol := symbol, nativeId := Some(Join(n)));
    PiecesAreClean(q, p + [symbol] + n);
    forall i | 0 <= i < |p|
      ensures SeparatorFree(p[i])
    {
      assert (p + [symbol] + n)[i] == p[i];
    }
    forall i | 0 <= i < |n|
      ensures SeparatorFree(n[i])
    {
      assert (p + [symbol] + n)[|p| + 1 + i] == n[i];
    }
    SplitUndoesJoin(p);
    SplitUndoesJoin(n);
    assert QuoteTail(other) == QuoteTail(q);
    QuotePieces(other);
    QuotePieces(q);
    SameSplit(Join(QuoteParts(other)), Join(QuoteParts(q)));
    QuotesDedupeIff(other, q);
  }

  lemma {:induction false} PiecesAreClean(q: MarketQuote, pieces: seq<string>)
    requires ValidSymbol(q.symbol) && pieces == Split(q.provider) + [q.symbol] + Split(Text(q.nativeId))
    ensures forall i :: 0 <= i < |pieces| ==> SeparatorFree(pieces[i])
  {
    JoinUndoesSplit(q.provider);
    JoinUndoesSplit(Text(q.nativeId));
    SymbolIsClean(q.symbol);
  }

  lemma {:induction false} JoinOfRest(parts: seq<string>, k: nat)
    requires k < |parts|
    ensures |Join(parts[k..])| <= |Join(parts)|
  {
    if k > 0 {
      JoinOfRest(parts[1..], k - 1);
      assert parts[1..][k - 1..] == parts[k..];
    } else {
      assert parts[0..] == parts;
    }
  }

  lemma {:induction false} HiddenInProvider(q: MarketQuote) returns (other: MarketQuote)
    requires ValidQuote(q) && ProviderHidesSymbol(q)
    ensures ValidQuote(other) && Collide(other, q)
  {
    var p, n := Split(q.provider), Split(Text(q.nativeId));
    var k :| 1 <= k < |p| && ValidSymbol(p[k]) && |Join(p[k + 1..] + [q.symbol] + n)| <= NATIVE_ID_LENGTH;
    assert p[..k] + [p[k]] + (p[k + 1..] + [q.symbol] + n) == p + [q.symbol] + n;
    other := Regroup(q, p[..k], p[k], p[k + 1..] + [q.symbol] + n);
  }

  lemma {:induction false} HiddenInNativeId(q: MarketQuote) returns (other: MarketQuote)
    requires ValidQuote(q) && NativeIdHidesSymbol(q)
    ensures ValidQuote(other) && Collide(other, q)
  {
    var p, n := Split(q.provider), Split(Text(q.nativeId));
    var k :| 0 <= k < |n| - 1 && ValidSymbol(n[k]);
    assert (p + [q.symbol] + n[..k]) + [n[k]] + n[k + 1..] == p + [q.symbol] + n;
    other := Regroup(q, p + [q.symbol] + n[..k], n[k], n[k + 1..]);
    JoinUndoesSplit(Text(q.nativeId));
    JoinOfRest(n, k + 1);
  }

  /** If the symbol sits at two places of one sequence of pieces, each of them is a hidden place of the other reading. */
  lemma {:induction false} ShiftedSymbol(p: seq<string>, s: string, n: seq<string>, p2: seq<string>, s2: string, n2: seq<string>)
    requires p + [s] + n == p2 + [s2] + n2 && n2 != []
    ensures |p2| < |p| ==> p[|p2|] == s2 && p[|p2| + 1..] + [s] + n == n2
    ensures |p2| > |p| ==> |p2| - |p| - 1 < |n| - 1 && n[|p2| - |p| - 1] == s2
  {
    var all := p + [s] + n;
    PieceCounts(p, s, n, p2, s2, n2);
    assert all[|p2|] == s2 && all[|p2| + 1..] == n2;
    if |p2| < |p| {
      assert p[|p2| + 1..] + [s] + n == all[|p2| + 1..];
    }
  }

  lemma {:induction false} HiddenSymbol(other: MarketQuote, q: MarketQuote)
    requires ValidQuote(other) && ValidQuote(q) && Collide(other, q)
    ensures ProviderHidesSymbol(q) || NativeIdHidesSymbol(q)
  {
    var p, n := Split(q.provider), Split(Text(q.nativeId));
    var p2, n2 := Split(other.provider), Split(Text(other.nativeId));
    QuotesDedupeIff(other, q);
    SharedPieces(other, q);
    ShiftedSymbol(p, q.symbol, n, p2, other.symbol, n2);
    JoinUndoesSplit(Text(other.nativeId));
  }

  /**
   * A valid quote shares its fingerprint with some different valid quote if and only if its provider or
   * its native id hides a symbol between separators.
   */
  lemma {:induction false} CollidesIff(q: MarketQuote)
    requires ValidQuote(q)
    ensures (exists other :: ValidQuote(other) && Collide(other, q)) <==> ProviderHidesSymbol(q) || NativeIdHidesSymbol(q)
  {
    if ProviderHidesSymbol(q) {
      var other := HiddenInProvider(q);
    }
    if NativeIdHidesSymbol(q) {
      var other := HiddenInNativeId(q);
    }
    if other :| ValidQuote(other) && Collide(other, q) {
      HiddenSymbol(other, q);
    }
  }

  /** For example, every quote of a provider that ends in a separator and a symbol collides with another one. */
  lemma {:induction false} SeparatorsCollide(q: MarketQuote, provider: string, symbol: string)
    requires q.provider == provider + [SEPARATOR] + symbol
    ensures Collide(
              q.(provider := provider, symbol := symbol, nativeId := Some(q.symbol + [SEPARATOR] + Text(q.nativeId))), q)
  {
    var other := q.(provider := provider, symbol := symbol, nativeId := Some(q.symbol + [SEPARATOR] + Text(q.nativeId)));
    var tail := Join(QuoteTail(q));
    assert QuoteTail(other) == QuoteTail(q);
    JoinParts(provider, symbol, Text(other.nativeId), QuoteTail(q));
    JoinParts(q.provider, q.symbol, Text(q.nativeId), QuoteTail(q));
    assert provider + [SEPARATOR] + (symbol + [SEPARATOR] + (Text(other.nativeId) + [SEPARATOR] + tail))
        == q.provider + [SEPARATOR] + (q.symbol + [SEPARATOR] + (Text(q.nativeId) + [SEPARATOR] + tail));
    assert |other.provider| < |q.provider|;
  }

  lemma {:induction false} BarTailIsClean(b: MarketBar)
    requires ValidSymbol(b.symbol) && KnownTimeframe(b.timeframe)
    ensures Split(Join(BarTail(b))) == BarTail(b)
  {
    SymbolIsClean(b.symbol);
    IntTextIsInjective(b.timestamp, 0);
    IntTextIsInjective(b.barEndAt, 0);
    IntTextIsInjective(b.open, 0);
    IntTextIsInjective(b.high, 0);
    IntTextIsInjective(b.low, 0);
    IntTextIsInjective(b.close, 0);
    OptionTextIsInjective(b.volume, None);
    SplitUndoesJoin(BarTail(b));
  }

  lemma {:induction false} SameTailSameBar(a: MarketBar, b: MarketBar)
    requires a.provider == b.provider && BarTail(a) == BarTail(b)
    ensures SameBar(a, b)
  {
    var x, y := BarTail(a), BarTail(b);
    assert x[0] == y[0] && x[1] == y[1] && x[2] == y[2] && x[3] == y[3] && x[4] == y[4];
    assert x[5] == y[5] && x[6] == y[6] && x[7] == y[7] && x[8] == y[8] && x[9][0] == y[9][0];
    IntTextIsInjective(a.timestamp, b.timestamp);
    IntTextIsInjective(a.barEndAt, b.barEndAt);
    IntTextIsInjective(a.open, b.open);
    IntTextIsInjective(a.high, b.high);
    IntTextIsInjective(a.low, b.low);
    IntTextIsInjective(a.close, b.close);
    OptionTextIsInjective(a.volume, b.volume);
  }

  lemma {:induction false} BarPieces(b: MarketBar)
    requires ValidSymbol(b.symbol) && KnownTimeframe(b.timeframe)
    ensures Split(Join([b.provider] + BarTail(b))) == Split(b.provider) + BarTail(b)
  {
    assert ([b.provider] + BarTail(b))[1..] == BarTail(b);
    SplitAtSeparator(b.provider, Join(BarTail(b)));
    BarTailIsClean(b);
  }

  /** Two bars get one fingerprint if and only if they are the same observation. */
  lemma {:induction false} BarsDedupeIff(a: MarketBar, b: MarketBar)
    requires ValidSymbol(a.symbol) && KnownTimeframe(a.timeframe) && ValidSymbol(b.symbol) && KnownTimeframe(b.timeframe)
    ensures BarHash(a) == BarHash(b) <==> SameBar(a, b)
  {
    if BarHash(a) == BarHash(b) {
      DigestIsInjective(Join([a.provider] + BarTail(a)), Join([b.provider] + BarTail(b)));
      BarPieces(a);
      BarPieces(b);
      SameEnd(Split(a.provider), BarTail(a), Split(b.provider), BarTail(b));
      SameSplit(a.provider, b.provider);
      SameTailSameBar(a, b);
    }
  }

  lemma {:induction false} SameEnd(p: seq<string>, t: seq<string>, p2: seq<string>, t2: seq<string>)
    requires p + t == p2 + t2 && |t| == |t2|
    ensures p == p2 && t == t2
  {
    assert p == (p + t)[..|p|] && p2 == (p2 + t2)[..|p2|];
    assert t == (p + t)[|p|..] && t2 == (p2 + t2)[|p2|..];
  }
}
