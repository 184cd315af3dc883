/** The embedding service (server/src/services/embeddings.js): the text to
    cache-key derivation, the memoising cache in front of the embedding
    provider, the guard cases of cosine similarity, and the score / filter /
    sort / truncate pipeline that ranks the candidate documents. */
module Embeddings {
  import opened Common
  import opened Documents
  import opened Database
  import opened Gemini

  // ---------------------------------------------------------------------------
  // Decimal rendering of a length (`'' + n` for a non-negative integer)

  function DigitChar(d: nat): char
    requires d < 10
  {
    ('0' as int + d) as char
  }

  function DigitValue(c: char): nat {
    if '0' <= c <= '9' then (c as int - '0' as int) else 0
  }

  /** The decimal numeral of n, without leading zeros. */
  function Decimal(n: nat): (s: string)
    ensures |s| >= 1
    ensures forall i :: 0 <= i < |s| ==> '0' <= s[i] <= '9'
  {
    if n < 10 then [DigitChar(n)] else Decimal(n / 10) + [DigitChar(n % 10)]
  }

  /** Reads a numeral back. */
  function ParseDecimal(s: string): nat {
    if s == [] then 0 else 10 * ParseDecimal(s[..|s| - 1]) + DigitValue(s[|s| - 1])
  }

  lemma {:induction false} DecimalRoundTrip(n: nat)
    ensures ParseDecimal(Decimal(n)) == n
  {
    if n >= 10 {
      DecimalRoundTrip(n / 10);
      var s := Decimal(n);
      assert s[..|s| - 1] == Decimal(n / 10);
      assert DigitValue(DigitChar(n % 10)) == n % 10;
    } else {
      assert DigitValue(DigitChar(n)) == n;
    }
  }

  /** Numbers of three or more digits need three or more characters. */
  lemma {:induction false} DecimalLength(n: nat)
    requires n >= 100
    ensures |Decimal(n)| >= 3
  {
    assert n / 10 >= 10;
    assert |Decimal(n / 10)| >= 2 by {
      assert Decimal(n / 10) == Decimal(n / 100) + [DigitChar(n / 10 % 10)];
    }
  }

  lemma DecimalInjective(m: nat, n: nat)
    requires Decimal(m) == Decimal(n)
    ensures m == n
  {
    DecimalRoundTrip(m);
    DecimalRoundTrip(n);
  }

  // ---------------------------------------------------------------------------
  // Cache keys

  /** `_generateCacheKey`: a text of at most 100 characters is its own key;
      a longer one is keyed by its first 50 characters, its length and its
      last 50 characters. */
  function CacheKey(text: string): string {
    if |text| <= 100 then text
    else text[..50] + Decimal(|text|) + text[|text| - 50..]
  }

  /** When two texts get the same key: a short text shares its key with
      itself only; two long texts share one exactly when they have the same
      length, the same first 50 and the same last 50 characters. */
  predicate SameKeyClass(a: string, b: string) {
    if |a| <= 100 then a == b
    else |b| > 100 && |a| == |b| && a[..50] == b[..50] && a[|a| - 50..] == b[|b| - 50..]
  }

  lemma CacheKeyShortIsText(text: string)
    requires |text| <= 100
    ensures CacheKey(text) == text
  {
  }

  /** A long text's key has at least 103 characters, so it is never the key
      of a text of at most 100 characters. */
  lemma CacheKeyLongLength(text: string)
    requires |text| > 100
    ensures |CacheKey(text)| >= 103
    ensures forall s: string :: |s| <= 100 ==> CacheKey(s) != CacheKey(text)
  {
    DecimalLength(|text|);
  }

  /** The collision structure of the cache: equal keys exactly for texts of
      the same key class. */
  lemma CacheKeyCollision(a: string, b: string)
    ensures CacheKey(a) == CacheKey(b) <==> SameKeyClass(a, b)
  {
    if |a| > 100 {
      CacheKeyLongLength(a);
    }
    if |b| > 100 {
      CacheKeyLongLength(b);
    }
    if |a| > 100 && |b| > 100 && CacheKey(a) == CacheKey(b) {
      var k := CacheKey(a);
      var da, db := Decimal(|a|), Decimal(|b|);
      assert |da| == |db|;
      assert k[50..50 + |da|] == da;
      assert CacheKey(b)[50..50 + |db|] == db;
      DecimalInjective(|a|, |b|);
      assert k[..50] == a[..50] && CacheKey(b)[..50] == b[..50];
      assert k[50 + |da|..] == a[|a| - 50..];
      assert CacheKey(b)[50 + |db|..] == b[|b| - 50..];
    }
  }

  // ---------------------------------------------------------------------------
  // Cosine similarity: guards only

  /** The square of a vector's magnitude, summed in index order. */
  function SumOfSquares(v: Vector): real {
    if v == [] then 0.0 else SumOfSquares(v[..|v| - 1]) + v[|v| - 1] * v[|v| - 1]
  }

  /** `Math.sqrt(sum) === 0`: the magnitude guard as the code computes it. */
  predicate HasNoMagnitude(v: Vector) {
    SumOfSquares(v) == 0.0
  }

  predicate IsZero(v: Vector) {
    forall i :: 0 <= i < |v| ==> v[i] == 0.0
  }

  /** The all-zero vector, the empty one included, fails the magnitude guard. */
  lemma {:induction false} ZeroVectorHasNoMagnitude(v: Vector)
    ensures IsZero(v) ==> HasNoMagnitude(v)
  {
    if v != [] && IsZero(v) {
      ZeroVectorHasNoMagnitude(v[..|v| - 1]);
      assert v[|v| - 1] == 0.0;
    }
  }

  /** `_cosineSimilarity(a, b)`: 0 for a missing vector or a length mismatch,
      0 when either magnitude is 0; otherwise the floating-point quotient of
      the dot product by the magnitudes, given here by `quotient`. */
  function CosineSimilarity(a: Option<Vector>, b: Option<Vector>,
                            quotient: (Vector, Vector) -> real): (r: real)
    ensures a.None? || b.None? ==> r == 0.0
    ensures a.Some? && b.Some? && |a.value| != |b.value| ==> r == 0.0
    ensures a.Some? && b.Some? && (IsZero(a.value) || IsZero(b.value)) ==> r == 0.0
    ensures (a.Some? && b.Some? && |a.value| == |b.value|
             && !HasNoMagnitude(a.value) && !HasNoMagnitude(b.value)) ==> r == quotient(a.value, b.value)
  {
    if a.None? || b.None? || |a.value| != |b.value| then 0.0
    else
      ZeroVectorHasNoMagnitude(a.value);
      ZeroVectorHasNoMagnitude(b.value);
      if SumOfSquares(a.value) == 0.0 || SumOfSquares(b.value) == 0.0 then 0.0
      else quotient(a.value, b.value)
  }

  // ---------------------------------------------------------------------------
  // Ranking

  /** `{ ...doc, similarity }`. */
  datatype Scored = Scored(doc: Document, similarity: real)

  /** A candidate with no embedding scores 0; any other is scored against
      the query embedding. */
  function ScoreOf(query: Vector, d: Document, quotient: (Vector, Vector) -> real): (s: Scored)
    ensures s.doc == d
    ensures d.embeddings == [] ==> s.similarity == 0.0
    ensures |d.embeddings| != |query| ==> s.similarity == 0.0
  {
    if |d.embeddings| == 0 then Scored(d, 0.0)
    else Scored(d, CosineSimilarity(Some(query), Some(d.embeddings), quotient))
  }

  function ScoreAll(query: Vector, docs: seq<Document>, quotient: (Vector, Vector) -> real): (r: seq<Scored>)
    ensures |r| == |docs| && forall i :: 0 <= i < |r| ==> r[i] == ScoreOf(query, docs[i], quotient)
  {
    seq(|docs|, i requires 0 <= i < |docs| => ScoreOf(query, docs[i], quotient))
  }

  ghost predicate NonIncreasing(s: seq<Scored>) {
    forall i, j :: 0 <= i < j < |s| ==> s[i].similarity >= s[j].similarity
  }

  /** Places x before the first element that scores no higher than x. */
  function InsertDesc(x: Scored, l: seq<Scored>): seq<Scored> {
    if l == [] || x.similarity >= l[0].similarity then [x] + l
    else [l[0]] + InsertDesc(x, l[1..])
  }

  lemma {:induction false} InsertDescPermutes(x: Scored, l: seq<Scored>)
    ensures multiset(InsertDesc(x, l)) == multiset(l) + multiset{x}
  {
    if l != [] && x.similarity < l[0].similarity {
      InsertDescPermutes(x, l[1..]);
      assert l == [l[0]] + l[1..];
    }
  }

  lemma {:induction false} InsertDescSorted(x: Scored, l: seq<Scored>)
    requires NonIncreasing(l)
    ensures NonIncreasing(InsertDesc(x, l))
  {
    if l != [] && x.similarity < l[0].similarity {
      var rest := InsertDesc(x, l[1..]);
      InsertDescSorted(x, l[1..]);
      InsertDescPermutes(x, l[1..]);
      forall k | 0 <= k < |rest| ensures l[0].similarity >= rest[k].similarity {
        assert rest[k] in multiset(rest);
        if rest[k] != x {
          assert rest[k] in multiset(l[1..]);
          var j :| 0 <= j < |l[1..]| && l[1..][j] == rest[k];
          assert l[j + 1] == rest[k];
        }
      }
      assert InsertDesc(x, l) == [l[0]] + rest;
    }
  }

  /** `array.sort((a, b) => b.similarity - a.similarity)`: a stable sort by
      descending similarity. */
  function SortDesc(l: seq<Scored>): (r: seq<Scored>)
    ensures NonIncreasing(r)
    ensures multiset(r) == multiset(l)
  {
    if l == [] then []
    else
      assert l == [l[0]] + l[1..];
      InsertDescSorted(l[0], SortDesc(l[1..]));
      InsertDescPermutes(l[0], SortDesc(l[1..]));
      InsertDesc(l[0], SortDesc(l[1..]))
  }

  function WithSimilarity(s: seq<Scored>, c: real): seq<Scored> {
    Filter(s, (x: Scored) => x.similarity == c)
  }

  lemma WithSimilarityAppend(a: seq<Scored>, b: seq<Scored>, c: real)
    ensures WithSimilarity(a + b, c) == WithSimilarity(a, c) + WithSimilarity(b, c)
  {
    FilterAppend(a, b, (x: Scored) => x.similarity == c);
  }

  lemma WithSimilaritySingle(y: Scored, c: real)
    ensures WithSimilarity([y], c) == if y.similarity == c then [y] else []
  {
    assert [y][1..] == [];
  }

  lemma {:induction false} InsertDescStable(x: Scored, l: seq<Scored>, c: real)
    ensures WithSimilarity(InsertDesc(x, l), c) ==
            (if x.similarity == c then [x] else []) + WithSimilarity(l, c)
  {
    WithSimilaritySingle(x, c);
    if l == [] || x.similarity >= l[0].similarity {
      assert InsertDesc(x, l) == [x] + l;
      WithSimilarityAppend([x], l, c);
    } else {
      var h, t := l[0], l[1..];
      var rest := InsertDesc(x, t);
      var fx := if x.similarity == c then [x] else [];
      var fh := WithSimilarity([h], c);
      WithSimilaritySingle(h, c);
      // x scores below h, so at most one of them has score c
      assert fx == [] || fh == [];
      calc {
        WithSimilarity(InsertDesc(x, l), c);
        { assert InsertDesc(x, l) == [h] + rest; }
        WithSimilarity([h] + rest, c);
        { WithSimilarityAppend([h], rest, c); }
        fh + WithSimilarity(rest, c);
        { InsertDescStable(x, t, c); }
        fh + (fx + WithSimilarity(t, c));
        fx + (fh + WithSimilarity(t, c));
        { WithSimilarityAppend([h], t, c); }
        fx + WithSimilarity([h] + t, c);
        { assert l == [h] + t; }
        fx + WithSimilarity(l, c);
      }
    }
  }

  /** Stability: among equally scored candidates the sort keeps their order. */
  lemma {:induction false} SortDescStable(l: seq<Scored>, c: real)
    ensures WithSimilarity(SortDesc(l), c) == WithSimilarity(l, c)
  {
    if l != [] {
      SortDescStable(l[1..], c);
      InsertDescStable(l[0], SortDesc(l[1..]), c);
      assert l == [l[0]] + l[1..];
      WithSimilarityAppend([l[0]], l[1..], c);
      WithSimilaritySingle(l[0], c);
    }
  }

  /** `.filter(doc => doc.similarity >= minSimilarity).sort(...).slice(0, limit)`. */
  function Rank(scored: seq<Scored>, minSimilarity: real, limit: nat): (r: seq<Scored>)
    ensures |r| <= limit
    ensures forall i :: 0 <= i < |r| ==> r[i].similarity >= minSimilarity
    ensures NonIncreasing(r)
    ensures multiset(r) <= multiset(scored)
  {
    var passing := Filter(scored, (x: Scored) => x.similarity >= minSimilarity);
    var sorted := SortDesc(passing);
    FilterMultiset(scored, (x: Scored) => x.similarity >= minSimilarity);
    var r := Take(sorted, limit);
    PrefixOfSorted(sorted, |r|);
    assert multiset(r) <= multiset(passing);
    SubMultisetAtLeast(r, passing, minSimilarity);
    r
  }

  /** A sub-multiset of a collection that clears the threshold clears it too. */
  lemma SubMultisetAtLeast(a: seq<Scored>, b: seq<Scored>, m: real)
    requires multiset(a) <= multiset(b)
    requires forall i :: 0 <= i < |b| ==> b[i].similarity >= m
    ensures forall i :: 0 <= i < |a| ==> a[i].similarity >= m
  {
    forall i | 0 <= i < |a| ensures a[i].similarity >= m {
      assert a[i] in multiset(a);
      assert a[i] in multiset(b);
      var j :| 0 <= j < |b| && b[j] == a[i];
    }
  }

  lemma PrefixOfSorted(s: seq<Scored>, n: nat)
    requires n <= |s|
    ensures NonIncreasing(s) ==> NonIncreasing(s[..n])
    ensures multiset(s[..n]) <= multiset(s)
  {
    assert s == s[..n] + s[n..];
  }

  lemma {:induction false} FilterMultiset<T>(s: seq<T>, p: T -> bool)
    ensures multiset(Filter(s, p)) <= multiset(s)
  {
    if s != [] {
      FilterMultiset(s[1..], p);
      assert s == [s[0]] + s[1..];
    }
  }

  /** Every candidate that passes the threshold and is left out of the
      ranking scores no higher than every ranked one: the ranking is the top
      `limit` of the passing candidates. */
  lemma RankIsTop(scored: seq<Scored>, minSimilarity: real, limit: nat)
    ensures |Rank(scored, minSimilarity, limit)| ==
            if |Filter(scored, (x: Scored) => x.similarity >= minSimilarity)| <= limit
            then |Filter(scored, (x: Scored) => x.similarity >= minSimilarity)| else limit
    ensures var r := Rank(scored, minSimilarity, limit);
            var sorted := SortDesc(Filter(scored, (x: Scored) => x.similarity >= minSimilarity));
            forall i, j :: 0 <= i < |r| <= j < |sorted| ==> r[i].similarity >= sorted[j].similarity
  {
    var passing := Filter(scored, (x: Scored) => x.similarity >= minSimilarity);
    assert |SortDesc(passing)| == |passing| by {
      assert |multiset(SortDesc(passing))| == |multiset(passing)|;
    }
  }

  /** The candidate documents visible to a user: their own or public ones. */
  function Visible(docs: seq<Document>, userId: UserId): (r: seq<Document>)
    ensures forall d :: d in r <==> d in docs && (d.owner == userId || d.isPublic)
  {
    var r := Filter(docs, (d: Document) => d.owner == userId || d.isPublic);
    forall d | d in docs && (d.owner == userId || d.isPublic) ensures d in r {
      var j :| 0 <= j < |docs| && docs[j] == d;
    }
    r
  }

  // ---------------------------------------------------------------------------
  // The cache, as a function of its contents

  /** What `getEmbedding(text)` resolves to given the cache contents. */
  function EmbeddingOutcome(cache: map<string, Vector>, embedFn: string -> Option<Vector>,
                            text: string): (r: Result<Vector>)
    ensures CacheKey(text) in cache ==> r == Ok(cache[CacheKey(text)])
    ensures CacheKey(text) !in cache && embedFn(text).Some? ==> r == Ok(embedFn(text).value)
    ensures CacheKey(text) !in cache && embedFn(text).None? ==> r == Err("Failed to generate embedding")
  {
    var key := CacheKey(text);
    if key in cache then Ok(cache[key])
    else match embedFn(text)
      case Some(v) => Ok(v)
      case None => Err("Failed to generate embedding")
  }

  /** The cache after `getEmbedding(text)`: one entry more on a successful
      miss, unchanged otherwise. */
  function CacheAfter(cache: map<string, Vector>, embedFn: string -> Option<Vector>,
                      text: string): (c: map<string, Vector>)
    ensures cache.Keys <= c.Keys <= cache.Keys + {CacheKey(text)}
    ensures forall k :: k in cache ==> c[k] == cache[k]
    ensures CacheKey(text) in c <==> EmbeddingOutcome(cache, embedFn, text).Ok?
    ensures CacheKey(text) in c ==> c[CacheKey(text)] == EmbeddingOutcome(cache, embedFn, text).value
  {
    var key := CacheKey(text);
    if key in cache then cache
    else match embedFn(text)
      case Some(v) => cache[key := v]
      case None => cache
  }

  /** A second lookup of the same text, after a successful first, is a hit:
      same vector, cache unchanged. */
  lemma RepeatedLookupHits(cache: map<string, Vector>, embedFn: string -> Option<Vector>, text: string)
    requires EmbeddingOutcome(cache, embedFn, text).Ok?
    ensures var c := CacheAfter(cache, embedFn, text);
            && CacheKey(text) in c
            && EmbeddingOutcome(c, embedFn, text) == EmbeddingOutcome(cache, embedFn, text)
            && CacheAfter(c, embedFn, text) == c
  {
  }

  /** The weakness of the key: once a long text is cached, every other text
      of its key class gets that text's vector without a provider call. */
  lemma CollidingTextsShareEmbedding(cache: map<string, Vector>, embedFn: string -> Option<Vector>,
                                     a: string, b: string)
    requires SameKeyClass(a, b)
    requires EmbeddingOutcome(cache, embedFn, a).Ok?
    ensures var c := CacheAfter(cache, embedFn, a);
            CacheKey(b) in c && EmbeddingOutcome(c, embedFn, b) == EmbeddingOutcome(cache, embedFn, a)
  {
    CacheKeyCollision(a, b);
  }

  const DefaultLimit: nat := 5
  const DefaultMinSimilarity: real := 0.7

  class EmbeddingService {
    var cache: map<string, Vector>
    /** The floating-point cosine of two equal-length non-zero vectors. */
    const quotient: (Vector, Vector) -> real

    constructor (quotient: (Vector, Vector) -> real)
      ensures cache == map[] && this.quotient == quotient
    {
      cache := map[];
      this.quotient := quotient;
    }

    /** `getEmbedding(text)`: a hit returns the cached vector with no provider
        call; a miss makes exactly one provider call and caches its answer
        under the key; a provider failure leaves the cache as it was. */
    method GetEmbedding(text: string, gemini: GeminiService) returns (r: Result<Vector>)
      modifies this`cache, gemini`embedCalls
      ensures r == EmbeddingOutcome(old(cache), gemini.embedFn, text)
      ensures cache == CacheAfter(old(cache), gemini.embedFn, text)
      ensures gemini.embedCalls ==
              old(gemini.embedCalls) + (if CacheKey(text) in old(cache) then [] else [text])
    {
      var key := CacheKey(text);
      if key in cache {
        return Ok(cache[key]);
      }
      var embedding := gemini.GenerateEmbedding(text);
      if embedding.Err? {
        return Err("Failed to generate embedding");
      }
      cache := cache[key := embedding.value];
      r := Ok(embedding.value);
    }

    /** `updateDocumentEmbeddings(id)`: embeds the stored content and saves
        it as the document's `embeddings`; any failure becomes
        'Failed to update document embeddings' and writes nothing. */
    method UpdateDocumentEmbeddings(db: Database, id: DocId, gemini: GeminiService)
      returns (r: Result<Document>)
      requires db.Valid()
      modifies this`cache, gemini`embedCalls, db
      ensures db.Valid()
      ensures db.order == old(db.order) && db.versions == old(db.versions)
      ensures id !in old(db.docs) ==>
        r == Err("Failed to update document embeddings") && db.docs == old(db.docs)
        && cache == old(cache) && gemini.embedCalls == old(gemini.embedCalls)
      ensures id in old(db.docs) ==>
        var text := old(db.docs)[id].content;
        var e := EmbeddingOutcome(old(cache), gemini.embedFn, text);
        && cache == CacheAfter(old(cache), gemini.embedFn, text)
        && gemini.embedCalls ==
             old(gemini.embedCalls) + (if CacheKey(text) in old(cache) then [] else [text])
        && (e.Err? ==> r == Err("Failed to update document embeddings") && db.docs == old(db.docs))
        && (e.Ok? ==> r == Ok(old(db.docs)[id].(embeddings := e.value))
                      && db.docs == old(db.docs)[id := r.value])
    {
      if id !in db.docs {
        return Err("Failed to update document embeddings");
      }
      var document := db.docs[id];
      var embedding := GetEmbedding(document.content, gemini);
      if embedding.Err? {
        return Err("Failed to update document embeddings");
      }
      document := document.(embeddings := embedding.value);
      assert CurrentVersionConsistent(db.versions, db.docs[id]);
      var ok := db.SaveDocument(document);
      if !ok {
        return Err("Failed to update document embeddings");
      }
      r := Ok(document);
    }

    /** `findSimilarDocuments(query, userId, limit, minSimilarity)`: embeds
        the query, scores at most `limit * 2` visible documents in natural
        order, and ranks them; any failure answers []. */
    method FindSimilarDocuments(query: string, userId: UserId, limit: nat, minSimilarity: real,
                                db: Database, gemini: GeminiService) returns (r: seq<Scored>)
      requires db.Valid()
      modifies this`cache, gemini`embedCalls
      ensures cache == CacheAfter(old(cache), gemini.embedFn, query)
      ensures gemini.embedCalls ==
              old(gemini.embedCalls) + (if CacheKey(query) in old(cache) then [] else [query])
      ensures var e := EmbeddingOutcome(old(cache), gemini.embedFn, query);
        && (e.Err? ==> r == [])
        && (e.Ok? ==> r == Rank(ScoreAll(e.value, TakeLimit(Visible(db.All(), userId), limit * 2),
                                         quotient), minSimilarity, limit))
    {
      var queryEmbedding := GetEmbedding(query, gemini);
      if queryEmbedding.Err? {
        return [];
      }
      var documents := TakeLimit(Visible(db.All(), userId), limit * 2);
      var scored := ScoreAll(queryEmbedding.value, documents, quotient);
      r := Rank(scored, minSimilarity, limit);
    }
  }
}
