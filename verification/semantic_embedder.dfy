/**
 * The embedding layer: the `Embedding` record, the cosine similarity used on it,
 * the dense similarity matrix between two embedding lists, the in-memory
 * `EmbeddingCache` and the cache-aware batch embedding of `SemanticEmbedder`.
 * The sentence encoder and numpy's normalised dot product are parameters.
 */
module SemanticEmbedder {
  import opened Wrappers

  datatype Embedding = Embedding(text: string, vector: seq<real>, modelName: string, language: string)

  /** A dense table of `rows` rows with `cols` cells each. */
  predicate IsMatrix(m: seq<seq<real>>, rows: nat, cols: nat) {
    |m| == rows && forall i :: 0 <= i < rows ==> |m[i]| == cols
  }

  function Clamp01(x: real): (r: real)
    ensures 0.0 <= r <= 1.0
    ensures 0.0 <= x <= 1.0 ==> r == x
  {
    if x < 0.0 then 0.0 else if x > 1.0 then 1.0 else x
  }

  /**
   * `cosine_similarity`: the normalised dot product (`dot`, computed by numpy)
   * mapped from [-1, 1] onto [0, 1] and clamped; 0.0 when numpy is missing.
   */
  function CosineSimilarity(v1: seq<real>, v2: seq<real>, numpyAvailable: bool,
                            dot: (seq<real>, seq<real>) -> real): (r: real)
    ensures 0.0 <= r <= 1.0
    ensures !numpyAvailable ==> r == 0.0
    ensures numpyAvailable && -1.0 <= dot(v1, v2) <= 1.0 ==> r == (dot(v1, v2) + 1.0) / 2.0
  {
    if !numpyAvailable then 0.0 else Clamp01((dot(v1, v2) + 1.0) / 2.0)
  }

  /** One cell of a similarity matrix: 0.0 unless both embeddings exist. */
  function Cell(e1: Option<Embedding>, e2: Option<Embedding>, numpyAvailable: bool,
                dot: (seq<real>, seq<real>) -> real): (r: real)
    ensures 0.0 <= r <= 1.0
    ensures e1.None? || e2.None? || !numpyAvailable ==> r == 0.0
  {
    if e1.Some? && e2.Some? then CosineSimilarity(e1.value.vector, e2.value.vector, numpyAvailable, dot)
    else 0.0
  }

  /** Fill an `|embs1| x |embs2|` table with pairwise similarities, 0.0 where an embedding is missing. */
  method BuildSimilarityMatrix(embs1: seq<Option<Embedding>>, embs2: seq<Option<Embedding>>,
                               numpyAvailable: bool, dot: (seq<real>, seq<real>) -> real)
    returns (m: seq<seq<real>>)
    ensures m == SimilarityTable(embs1, embs2, numpyAvailable, dot)
    ensures IsMatrix(m, |embs1|, |embs2|)
    ensures forall i, j :: 0 <= i < |embs1| && 0 <= j < |embs2| ==>
      m[i][j] == Cell(embs1[i], embs2[j], numpyAvailable, dot)
    ensures forall i, j :: 0 <= i < |embs1| && 0 <= j < |embs2| ==> 0.0 <= m[i][j] <= 1.0
    ensures forall i, j :: 0 <= i < |embs1| && 0 <= j < |embs2| && (embs1[i].None? || embs2[j].None?) ==> m[i][j] == 0.0
    ensures !numpyAvailable ==> forall i, j :: 0 <= i < |embs1| && 0 <= j < |embs2| ==> m[i][j] == 0.0
  {
    m := [];
    for i := 0 to |embs1|
      invariant IsMatrix(m, i, |embs2|)
      invariant forall r, c :: 0 <= r < i && 0 <= c < |embs2| ==>
        m[r][c] == Cell(embs1[r], embs2[c], numpyAvailable, dot)
      invariant forall r, c :: 0 <= r < i && 0 <= c < |embs2| ==> 0.0 <= m[r][c] <= 1.0
      invariant forall r, c {:trigger m[r][c]} :: 0 <= r < i && 0 <= c < |embs2| && (embs1[r].None? || embs2[c].None? || !numpyAvailable) ==>
        m[r][c] == 0.0
    {
      var row: seq<real> := [];
      for j := 0 to |embs2|
        invariant |row| == j
        invariant forall c :: 0 <= c < j ==> row[c] == Cell(embs1[i], embs2[c], numpyAvailable, dot)
        invariant forall c :: 0 <= c < j ==> 0.0 <= row[c] <= 1.0
        invariant forall c {:trigger row[c]} :: 0 <= c < j && (embs1[i].None? || embs2[c].None? || !numpyAvailable) ==> row[c] == 0.0
      {
        var v := 0.0;
        if embs1[i].Some? && embs2[j].Some? {
          v := CosineSimilarity(embs1[i].value.vector, embs2[j].value.vector, numpyAvailable, dot);
        }
        row := row + [v];
      }
      m := m + [row];
    }
    ghost var table := SimilarityTable(embs1, embs2, numpyAvailable, dot);
    forall i | 0 <= i < |embs1|
      ensures m[i] == table[i]
    {
      assert forall j :: 0 <= j < |embs2| ==> m[i][j] == table[i][j];
    }
  }

  /** A cache key `model_name:hash(text)`; the hash is taken to be injective. */
  datatype CacheKey = CacheKey(modelName: string, text: string)

  datatype CacheStatistics = CacheStatistics(size: nat, hits: nat, misses: nat, hitRatePercent: real)

  /** What a lookup in `entries` yields for `text` under `modelName`. */
  function Lookup(entries: map<CacheKey, Embedding>, modelName: string, text: string): Option<Embedding> {
    var key := CacheKey(modelName, text);
    if key in entries then Some(entries[key]) else None
  }

  /** Every entry is filed under the text of the embedding it holds, as `set` files it. */
  predicate KeysMatchTexts(entries: map<CacheKey, Embedding>) {
    forall k :: k in entries ==> entries[k].text == k.text
  }

  class EmbeddingCache {
    var entries: map<CacheKey, Embedding>
    var hits: nat
    var misses: nat
    /** Number of `Get` calls since construction or the last `Clear`. */
    ghost var lookups: nat

    /** The counters account for every lookup, and each entry is filed under its own text. */
    ghost predicate Valid()
      reads this
    {
      hits + misses == lookups && KeysMatchTexts(entries)
    }

    constructor ()
      ensures Valid()
      ensures entries == map[] && hits == 0 && misses == 0 && lookups == 0
    {
      entries := map[];
      hits, misses := 0, 0;
      lookups := 0;
    }

    /** Every lookup counts as exactly one hit or one miss and leaves the entries alone. */
    method Get(text: string, modelName: string) returns (r: Option<Embedding>)
      requires Valid()
      modifies this
      ensures Valid()
      ensures entries == old(entries) && lookups == old(lookups) + 1
      ensures r == Lookup(entries, modelName, text)
      ensures r.Some? ==> r.value.text == text
      ensures r.Some? ==> hits == old(hits) + 1 && misses == old(misses)
      ensures r.None? ==> hits == old(hits) && misses == old(misses) + 1
    {
      var key := CacheKey(modelName, text);
      lookups := lookups + 1;
      if key in entries {
        hits := hits + 1;
        return Some(entries[key]);
      }
      misses := misses + 1;
      return None;
    }

    method Set(e: Embedding, modelName: string)
      requires Valid()
      modifies this
      ensures Valid()
      ensures entries == old(entries)[CacheKey(modelName, e.text) := e]
      ensures hits == old(hits) && misses == old(misses) && lookups == old(lookups)
    {
      entries := entries[CacheKey(modelName, e.text) := e];
    }

    method Clear()
      modifies this
      ensures Valid()
      ensures entries == map[] && hits == 0 && misses == 0 && lookups == 0
    {
      entries := map[];
      hits, misses := 0, 0;
      lookups := 0;
    }

    /** Size, counters and the hit rate in percent (0 before any lookup). */
    method GetStatistics() returns (s: CacheStatistics)
      ensures s.size == |entries| && s.hits == hits && s.misses == misses
      ensures hits + misses == 0 ==> s.hitRatePercent == 0.0
      ensures hits + misses > 0 ==> s.hitRatePercent * ((hits + misses) as real) == 100.0 * (hits as real)
      ensures 0.0 <= s.hitRatePercent <= 100.0
    {
      var total := hits + misses;
      var rate := 0.0;
      if total > 0 {
        rate := (hits as real) / (total as real) * 100.0;
        assert (hits as real) / (total as real) <= 1.0;
      }
      s := CacheStatistics(|entries|, hits, misses, rate);
    }
  }

  /** After `Set(e, m)`, `Get(e.text, m)` hands back `e`. */
  method SetThenGet(c: EmbeddingCache, e: Embedding, modelName: string) returns (r: Option<Embedding>)
    requires c.Valid()
    modifies c
    ensures c.Valid() && r == Some(e)
  {
    c.Set(e, modelName);
    r := c.Get(e.text, modelName);
  }

  /** Indices of the texts whose embedding `entries` does not hold, in increasing order. */
  function Pending(texts: seq<string>, entries: map<CacheKey, Embedding>, modelName: string): (p: seq<nat>)
    ensures forall t :: 0 <= t < |p| ==> p[t] < |texts| && Lookup(entries, modelName, texts[p[t]]).None?
    ensures forall t1, t2 :: 0 <= t1 < t2 < |p| ==> p[t1] < p[t2]
  {
    if texts == [] then []
    else
      var n := |texts| - 1;
      Pending(texts[..n], entries, modelName)
        + (if Lookup(entries, modelName, texts[n]).None? then [n] else [])
  }

  /** Conversely, every uncached text is pending. */
  lemma {:induction false} PendingComplete(texts: seq<string>, entries: map<CacheKey, Embedding>, modelName: string, i: nat)
    requires i < |texts| && Lookup(entries, modelName, texts[i]).None?
    ensures i in Pending(texts, entries, modelName)
  {
    var n := |texts| - 1;
    if i < n {
      assert texts[..n][i] == texts[i];
      PendingComplete(texts[..n], entries, modelName, i);
    }
  }

  function TextsAt(texts: seq<string>, idx: seq<nat>): (r: seq<string>)
    requires forall t :: 0 <= t < |idx| ==> idx[t] < |texts|
    ensures |r| == |idx| && forall t :: 0 <= t < |idx| ==> r[t] == texts[idx[t]]
  {
    seq(|idx|, t requires 0 <= t < |idx| => texts[idx[t]])
  }

  /** Scanning one more text adds its index exactly when it is not cached. */
  lemma PendingStep(texts: seq<string>, entries: map<CacheKey, Embedding>, modelName: string, i: nat)
    requires i < |texts|
    ensures Pending(texts[..i + 1], entries, modelName)
      == Pending(texts[..i], entries, modelName) + (if Lookup(entries, modelName, texts[i]).None? then [i] else [])
  {
    assert texts[..i + 1][..i] == texts[..i];
  }

  lemma TextsAtSnoc(texts: seq<string>, idx: seq<nat>, i: nat)
    requires forall t :: 0 <= t < |idx| ==> idx[t] < |texts|
    requires i < |texts|
    ensures TextsAt(texts, idx + [i]) == TextsAt(texts, idx) + [texts[i]]
  {
  }

  /** The languages of a batch: the given list, or "unknown" for every text. */
  function Languages(texts: seq<string>, languages: Option<seq<string>>): (langs: seq<string>)
    requires languages.Some? ==> |languages.value| == |texts|
    ensures |langs| == |texts|
  {
    if languages.Some? then languages.value else seq(|texts|, _ => "unknown")
  }

  /** The embeddings built from the encoder's output; `zip` pairs the t-th pending index with the t-th vector. */
  function Encoded(texts: seq<string>, langs: seq<string>, p: seq<nat>, vectors: seq<seq<real>>,
                   modelName: string): (es: seq<Embedding>)
    requires |langs| == |texts| && forall t :: 0 <= t < |p| ==> p[t] < |texts|
    ensures |es| <= |p| && |es| <= |vectors| && (|es| == |p| || |es| == |vectors|)
    ensures forall t :: 0 <= t < |es| ==> es[t] == Embedding(texts[p[t]], vectors[t], modelName, langs[p[t]])
  {
    seq(if |p| <= |vectors| then |p| else |vectors|,
        t requires 0 <= t < |p| && t < |vectors| => Embedding(texts[p[t]], vectors[t], modelName, langs[p[t]]))
  }

  /** The results after `embeddings[idx] = embedding` for each encoded embedding in turn. */
  function Placed(base: seq<Option<Embedding>>, es: seq<Embedding>, p: seq<nat>): (out: seq<Option<Embedding>>)
    requires |es| <= |p| && forall t :: 0 <= t < |p| ==> p[t] < |base|
    ensures |out| == |base|
  {
    if es == [] then base
    else Placed(base, es[..|es| - 1], p)[p[|es| - 1] := Some(es[|es| - 1])]
  }

  /** The cache entries after `cache.set(embedding, model_name)` for each encoded embedding in turn. */
  function Stored(entries: map<CacheKey, Embedding>, es: seq<Embedding>, modelName: string): map<CacheKey, Embedding> {
    if es == [] then entries
    else
      var e := es[|es| - 1];
      Stored(entries, es[..|es| - 1], modelName)[CacheKey(modelName, e.text) := e]
  }

  /** Distinct pending indices: each encoded embedding ends up at its own index, the rest stay put. */
  lemma {:induction false} PlacedAt(base: seq<Option<Embedding>>, es: seq<Embedding>, p: seq<nat>)
    requires |es| <= |p| && forall t :: 0 <= t < |p| ==> p[t] < |base|
    requires forall t1, t2 :: 0 <= t1 < t2 < |p| ==> p[t1] < p[t2]
    ensures forall t :: 0 <= t < |es| ==> Placed(base, es, p)[p[t]] == Some(es[t])
    ensures forall k :: 0 <= k < |base| && k !in p[..|es|] ==> Placed(base, es, p)[k] == base[k]
  {
    if es != [] {
      var n := |es| - 1;
      PlacedAt(base, es[..n], p);
      assert p[..|es|] == p[..n] + [p[n]];
      forall t | 0 <= t < n
        ensures Placed(base, es, p)[p[t]] == Some(es[t])
      {
        assert es[..n][t] == es[t];
      }
    }
  }

  /** Storing only adds keys, files each embedding under its own text, and keeps entries matched to their keys. */
  lemma {:induction false} StoredKeeps(entries: map<CacheKey, Embedding>, es: seq<Embedding>, modelName: string)
    ensures forall k :: k in entries ==> k in Stored(entries, es, modelName)
    ensures forall t :: 0 <= t < |es| ==> CacheKey(modelName, es[t].text) in Stored(entries, es, modelName)
    ensures KeysMatchTexts(entries) ==> KeysMatchTexts(Stored(entries, es, modelName))
  {
    if es != [] {
      var n := |es| - 1;
      StoredKeeps(entries, es[..n], modelName);
      forall t | 0 <= t < n
        ensures CacheKey(modelName, es[t].text) in Stored(entries, es, modelName)
      {
        assert es[..n][t] == es[t];
      }
    }
  }

  /** Writing encoded embeddings back by pending index, over any placeholders `base`. */
  lemma PlacedEncoded(texts: seq<string>, langs: seq<string>, base: seq<Option<Embedding>>, p: seq<nat>,
                      vectors: seq<seq<real>>, modelName: string)
    requires |langs| == |texts| && |base| == |texts|
    requires forall t :: 0 <= t < |p| ==> p[t] < |texts|
    requires forall t1, t2 :: 0 <= t1 < t2 < |p| ==> p[t1] < p[t2]
    ensures var out := Placed(base, Encoded(texts, langs, p, vectors, modelName), p);
      (forall k :: 0 <= k < |texts| && k !in p ==> out[k] == base[k])
      && (forall t :: 0 <= t < |p| ==>
            out[p[t]] == if t < |vectors| then Some(Embedding(texts[p[t]], vectors[t], modelName, langs[p[t]])) else base[p[t]])
  {
    var es := Encoded(texts, langs, p, vectors, modelName);
    PlacedAt(base, es, p);
    forall t | |es| <= t < |p|
      ensures Placed(base, es, p)[p[t]] == base[p[t]]
    {
      assert p[t] !in p[..|es|];
    }
    assert forall k :: k !in p ==> k !in p[..|es|];
  }

  /**
   * What `embed_batch` returns, given the cache entries beforehand: the cached
   * embeddings when nothing is pending, all `None` when the model is missing or
   * the encoder fails, and otherwise the cached ones with the encoded ones
   * written back at their pending indices.
   */
  function BatchEmbeddings(texts: seq<string>, languages: Option<seq<string>>, entries: map<CacheKey, Embedding>,
                           modelName: string, modelLoaded: bool, encode: seq<string> -> Option<seq<seq<real>>>)
    : (out: seq<Option<Embedding>>)
    requires languages.Some? ==> |languages.value| == |texts|
    ensures |out| == |texts|
  {
    var p := Pending(texts, entries, modelName);
    var cached := seq(|texts|, i requires 0 <= i < |texts| => Lookup(entries, modelName, texts[i]));
    if p == [] then cached
    else if !modelLoaded || encode(TextsAt(texts, p)).None? then seq(|texts|, _ => None)
    else Placed(cached, Encoded(texts, Languages(texts, languages), p, encode(TextsAt(texts, p)).value, modelName), p)
  }

  /** Index by index: cached texts keep their embedding, each uncached one gets its own vector, or `None` past the encoder's output. */
  lemma BatchEmbeddingsAt(texts: seq<string>, languages: Option<seq<string>>, entries: map<CacheKey, Embedding>,
                          modelName: string, modelLoaded: bool, encode: seq<string> -> Option<seq<seq<real>>>)
    requires languages.Some? ==> |languages.value| == |texts|
    ensures var out := BatchEmbeddings(texts, languages, entries, modelName, modelLoaded, encode);
      var p := Pending(texts, entries, modelName);
      var langs := Languages(texts, languages);
      if p == [] then
        forall i :: 0 <= i < |texts| ==> out[i] == Lookup(entries, modelName, texts[i])
      else if !modelLoaded || encode(TextsAt(texts, p)).None? then
        forall i :: 0 <= i < |texts| ==> out[i].None?
      else
        var vectors := encode(TextsAt(texts, p)).value;
        (forall i :: 0 <= i < |texts| && i !in p ==> out[i] == Lookup(entries, modelName, texts[i]))
        && (forall t :: 0 <= t < |p| ==>
              out[p[t]] == if t < |vectors| then Some(Embedding(texts[p[t]], vectors[t], modelName, langs[p[t]])) else None)
  {
    var p := Pending(texts, entries, modelName);
    if p != [] && modelLoaded && encode(TextsAt(texts, p)).Some? {
      var cached := seq(|texts|, i requires 0 <= i < |texts| => Lookup(entries, modelName, texts[i]));
      PlacedEncoded(texts, Languages(texts, languages), cached, p, encode(TextsAt(texts, p)).value, modelName);
    }
  }

  /**
   * Every embedding a batch hands back is the embedding of the text at its own
   * index, and one that was not cached carries the embedder's model name and
   * the text's language.
   */
  lemma BatchEmbeddingsMatchTexts(texts: seq<string>, languages: Option<seq<string>>, entries: map<CacheKey, Embedding>,
                                  modelName: string, modelLoaded: bool, encode: seq<string> -> Option<seq<seq<real>>>)
    requires languages.Some? ==> |languages.value| == |texts|
    ensures var out := BatchEmbeddings(texts, languages, entries, modelName, modelLoaded, encode);
      && (KeysMatchTexts(entries) ==> forall i :: 0 <= i < |texts| && out[i].Some? ==> out[i].value.text == texts[i])
      && (forall i :: 0 <= i < |texts| && out[i].Some? && Lookup(entries, modelName, texts[i]).None? ==>
            out[i].value.modelName == modelName && out[i].value.language == Languages(texts, languages)[i])
  {
    var out := BatchEmbeddings(texts, languages, entries, modelName, modelLoaded, encode);
    var p := Pending(texts, entries, modelName);
    BatchEmbeddingsAt(texts, languages, entries, modelName, modelLoaded, encode);
    forall i | 0 <= i < |texts| && out[i].Some?
      ensures KeysMatchTexts(entries) ==> out[i].value.text == texts[i]
      ensures Lookup(entries, modelName, texts[i]).None? ==>
        out[i].value.modelName == modelName && out[i].value.language == Languages(texts, languages)[i]
    {
      if i in p {
        var t :| 0 <= t < |p| && p[t] == i;
      }
    }
  }

  /** The cache entries `embed_batch` leaves behind, given those beforehand. */
  function BatchEntries(texts: seq<string>, languages: Option<seq<string>>, entries: map<CacheKey, Embedding>,
                        modelName: string, modelLoaded: bool, encode: seq<string> -> Option<seq<seq<real>>>)
    : (r: map<CacheKey, Embedding>)
    requires languages.Some? ==> |languages.value| == |texts|
    ensures forall k :: k in entries ==> k in r
    ensures KeysMatchTexts(entries) ==> KeysMatchTexts(r)
  {
    var p := Pending(texts, entries, modelName);
    if p == [] || !modelLoaded || encode(TextsAt(texts, p)).None? then entries
    else
      var es := Encoded(texts, Languages(texts, languages), p, encode(TextsAt(texts, p)).value, modelName);
      StoredKeeps(entries, es, modelName);
      Stored(entries, es, modelName)
  }

  /**
   * A batch whose encoder covers every pending text caches all of them: the
   * same batch again finds every text cached, under its own text.
   */
  lemma BatchCachesEverything(texts: seq<string>, languages: Option<seq<string>>, entries: map<CacheKey, Embedding>,
                              modelName: string, encode: seq<string> -> Option<seq<seq<real>>>)
    requires languages.Some? ==> |languages.value| == |texts|
    requires var p := Pending(texts, entries, modelName);
      p != [] ==> encode(TextsAt(texts, p)).Some? && |p| <= |encode(TextsAt(texts, p)).value|
    ensures var after := BatchEntries(texts, languages, entries, modelName, true, encode);
      && Pending(texts, after, modelName) == []
      && (KeysMatchTexts(entries) ==> forall i :: 0 <= i < |texts| ==>
            Lookup(after, modelName, texts[i]).Some? && Lookup(after, modelName, texts[i]).value.text == texts[i])
  {
    var p := Pending(texts, entries, modelName);
    var after := BatchEntries(texts, languages, entries, modelName, true, encode);
    forall i | 0 <= i < |texts|
      ensures Lookup(after, modelName, texts[i]).Some?
    {
      if Lookup(entries, modelName, texts[i]).None? {
        PendingComplete(texts, entries, modelName, i);
        var es := Encoded(texts, Languages(texts, languages), p, encode(TextsAt(texts, p)).value, modelName);
        assert after == Stored(entries, es, modelName);
        StoredKeeps(entries, es, modelName);
        var t :| 0 <= t < |p| && p[t] == i;
        assert CacheKey(modelName, es[t].text) in after;
      } else {
        assert CacheKey(modelName, texts[i]) in entries;
      }
    }
    NothingPending(texts, after, modelName);
  }

  /** Once every text is cached, nothing is left to embed. */
  lemma NothingPending(texts: seq<string>, entries: map<CacheKey, Embedding>, modelName: string)
    requires forall i :: 0 <= i < |texts| ==> Lookup(entries, modelName, texts[i]).Some?
    ensures Pending(texts, entries, modelName) == []
  {
  }

  /** The table of pairwise similarities of two embedding lists. */
  function SimilarityTable(embs1: seq<Option<Embedding>>, embs2: seq<Option<Embedding>>, numpyAvailable: bool,
                           dot: (seq<real>, seq<real>) -> real): (m: seq<seq<real>>)
    ensures IsMatrix(m, |embs1|, |embs2|)
    ensures forall i, j :: 0 <= i < |embs1| && 0 <= j < |embs2| ==> m[i][j] == Cell(embs1[i], embs2[j], numpyAvailable, dot)
  {
    seq(|embs1|, i requires 0 <= i < |embs1| =>
      seq(|embs2|, j requires 0 <= j < |embs2| => Cell(embs1[i], embs2[j], numpyAvailable, dot)))
  }

  const DefaultModelName: string := "paraphrase-multilingual-mpnet-base-v2"

  class SemanticEmbedder {
    const modelName: string
    /** `None` when caching is disabled. */
    var cache: EmbeddingCache?

    constructor (modelName: string, cacheEnabled: bool)
      ensures this.modelName == modelName
      ensures cacheEnabled ==> cache != null && fresh(cache) && cache.Valid() && cache.entries == map[]
      ensures !cacheEnabled ==> cache == null
    {
      this.modelName := modelName;
      if cacheEnabled {
        cache := new EmbeddingCache();
      } else {
        cache := null;
      }
    }

    ghost function Entries(): map<CacheKey, Embedding>
      reads this, cache
    {
      if cache == null then map[] else cache.entries
    }

    /**
     * `embed_batch`: cached texts keep their cached embedding at their own index,
     * the others are encoded in one call and written back by index; a missing
     * model or a failing encoder (`encode` yields `None`) gives all `None`.
     * `zip` truncates, so texts beyond the encoder's output stay `None`.
     */
    method EmbedBatch(texts: seq<string>, languages: Option<seq<string>>, modelLoaded: bool,
                      encode: seq<string> -> Option<seq<seq<real>>>)
      returns (out: seq<Option<Embedding>>)
      requires languages.Some? ==> |languages.value| == |texts|
      requires cache != null ==> cache.Valid()
      modifies cache
      ensures cache != null ==> cache.Valid()
      ensures out == BatchEmbeddings(texts, languages, old(Entries()), modelName, modelLoaded, encode)
      ensures Entries() == if cache == null then old(Entries())
                           else BatchEntries(texts, languages, old(Entries()), modelName, modelLoaded, encode)
      ensures cache != null ==>
        var pending := |Pending(texts, old(Entries()), modelName)|;
        cache.hits == old(cache.hits) + (|texts| - pending) && cache.misses == old(cache.misses) + pending
    {
      if texts == [] {
        return [];
      }
      var langs := if languages.Some? then languages.value else seq(|texts|, _ => "unknown");
      ghost var entries := Entries();
      ghost var cached := seq(|texts|, i requires 0 <= i < |texts| => Lookup(entries, modelName, texts[i]));
      var embeddings, textsToEmbed, indicesToEmbed := LookupCached(texts);
      assert embeddings == cached;
      if textsToEmbed == [] {
        return embeddings;
      }
      if !modelLoaded {
        return seq(|texts|, _ => None);
      }
      var encoded := encode(textsToEmbed);
      if encoded.None? {
        return seq(|texts|, _ => None);
      }
      out := StoreEncoded(texts, langs, embeddings, indicesToEmbed, encoded.value);
    }

    /** The cache pass of `embed_batch`: cached embeddings in place, `None` placeholders for the rest. */
    method LookupCached(texts: seq<string>)
      returns (embeddings: seq<Option<Embedding>>, textsToEmbed: seq<string>, indicesToEmbed: seq<nat>)
      requires cache != null ==> cache.Valid()
      modifies cache
      ensures cache != null ==> cache.Valid() && cache.entries == old(cache.entries)
      ensures cache != null ==> cache.hits == old(cache.hits) + (|texts| - |indicesToEmbed|)
                                && cache.misses == old(cache.misses) + |indicesToEmbed|
      ensures |embeddings| == |texts|
      ensures indicesToEmbed == Pending(texts, old(Entries()), modelName)
      ensures textsToEmbed == TextsAt(texts, indicesToEmbed)
      ensures forall k :: 0 <= k < |texts| ==> embeddings[k] == Lookup(old(Entries()), modelName, texts[k])
    {
      ghost var entries := Entries();
      ghost var hits0, misses0 := if cache != null then cache.hits else 0, if cache != null then cache.misses else 0;
      embeddings, textsToEmbed, indicesToEmbed := [], [], [];
      for i := 0 to |texts|
        invariant cache != null ==> cache.Valid() && cache.entries == entries
        invariant |indicesToEmbed| <= i
        invariant cache != null ==> cache.hits == hits0 + (i - |indicesToEmbed|) && cache.misses == misses0 + |indicesToEmbed|
        invariant |embeddings| == i
        invariant indicesToEmbed == Pending(texts[..i], entries, modelName)
        invariant textsToEmbed == TextsAt(texts, indicesToEmbed)
        invariant forall k :: 0 <= k < i ==> embeddings[k] == Lookup(entries, modelName, texts[k])
      {
        PendingStep(texts, entries, modelName, i);
        var cached := None;
        if cache != null {
          cached := cache.Get(texts[i], modelName);
        }
        embeddings := embeddings + [cached];
        if cached.None? {
          TextsAtSnoc(texts, indicesToEmbed, i);
          textsToEmbed := textsToEmbed + [texts[i]];
          indicesToEmbed := indicesToEmbed + [i];
        }
      }
      assert texts[..|texts|] == texts;
    }

    /** The write-back pass of `embed_batch`: each encoded vector goes to the cache and to its own index. */
    method StoreEncoded(texts: seq<string>, langs: seq<string>, embeddings: seq<Option<Embedding>>,
                        p: seq<nat>, vectors: seq<seq<real>>)
      returns (out: seq<Option<Embedding>>)
      requires |langs| == |texts| && |embeddings| == |texts|
      requires forall t :: 0 <= t < |p| ==> p[t] < |texts| && embeddings[p[t]].None?
      requires forall t1, t2 :: 0 <= t1 < t2 < |p| ==> p[t1] < p[t2]
      requires cache != null ==> cache.Valid()
      modifies cache
      ensures cache != null ==> cache.Valid()
      ensures out == Placed(embeddings, Encoded(texts, langs, p, vectors, modelName), p)
      ensures cache != null ==>
        cache.entries == Stored(old(cache.entries), Encoded(texts, langs, p, vectors, modelName), modelName)
        && cache.hits == old(cache.hits) && cache.misses == old(cache.misses)
      ensures |out| == |texts|
      ensures forall k :: 0 <= k < |texts| && k !in p ==> out[k] == embeddings[k]
      ensures forall t :: 0 <= t < |p| ==>
        out[p[t]] == if t < |vectors| then Some(Embedding(texts[p[t]], vectors[t], modelName, langs[p[t]])) else None
    {
      out := embeddings;
      var n := if |p| <= |vectors| then |p| else |vectors|;
      ghost var es := Encoded(texts, langs, p, vectors, modelName);
      ghost var entries0 := if cache != null then cache.entries else map[];
      ghost var hits0, misses0 := if cache != null then cache.hits else 0, if cache != null then cache.misses else 0;
      for t := 0 to n
        invariant cache != null ==> cache.Valid()
        invariant out == Placed(embeddings, es[..t], p)
        invariant cache != null ==>
          cache.entries == Stored(entries0, es[..t], modelName) && cache.hits == hits0 && cache.misses == misses0
      {
        var e := Embedding(texts[p[t]], vectors[t], modelName, langs[p[t]]);
        if cache != null {
          cache.Set(e, modelName);
        }
        assert es[..t + 1][..t] == es[..t] && es[..t + 1][t] == e;
        out := out[p[t] := Some(e)];
      }
      assert es[..n] == es;
      PlacedEncoded(texts, langs, embeddings, p, vectors, modelName);
    }

    /**
     * The matrix `compute_similarity_matrix` builds from the cache entries
     * `entries`: the first list is embedded against those entries, the second
     * against the entries the first batch leaves behind.
     */
    function SimilarityOf(texts1: seq<string>, texts2: seq<string>, modelLoaded: bool,
                          encode: seq<string> -> Option<seq<seq<real>>>,
                          numpyAvailable: bool, dot: (seq<real>, seq<real>) -> real,
                          entries: map<CacheKey, Embedding>): (m: seq<seq<real>>)
      reads this
      ensures IsMatrix(m, |texts1|, |texts2|)
      ensures forall i, j :: 0 <= i < |texts1| && 0 <= j < |texts2| ==> 0.0 <= m[i][j] <= 1.0
      ensures !numpyAvailable ==> forall i, j :: 0 <= i < |texts1| && 0 <= j < |texts2| ==> m[i][j] == 0.0
    {
      var embs1 := BatchEmbeddings(texts1, None, entries, modelName, modelLoaded, encode);
      var entries1 := if cache == null then entries else BatchEntries(texts1, None, entries, modelName, modelLoaded, encode);
      SimilarityTable(embs1, BatchEmbeddings(texts2, None, entries1, modelName, modelLoaded, encode), numpyAvailable, dot)
    }

    /** `compute_similarity_matrix`: a `|texts1| x |texts2|` table of similarities in [0, 1]. */
    method ComputeSimilarityMatrix(texts1: seq<string>, texts2: seq<string>, modelLoaded: bool,
                                   encode: seq<string> -> Option<seq<seq<real>>>,
                                   numpyAvailable: bool, dot: (seq<real>, seq<real>) -> real)
      returns (m: seq<seq<real>>)
      requires cache != null ==> cache.Valid()
      modifies cache
      ensures cache != null ==> cache.Valid()
      ensures m == SimilarityOf(texts1, texts2, modelLoaded, encode, numpyAvailable, dot, old(Entries()))
      ensures Entries() == if cache == null then old(Entries())
                           else BatchEntries(texts2, None, BatchEntries(texts1, None, old(Entries()), modelName, modelLoaded, encode),
                                             modelName, modelLoaded, encode)
      ensures IsMatrix(m, |texts1|, |texts2|)
      ensures forall i, j :: 0 <= i < |texts1| && 0 <= j < |texts2| ==> 0.0 <= m[i][j] <= 1.0
      ensures !numpyAvailable ==> forall i, j :: 0 <= i < |texts1| && 0 <= j < |texts2| ==> m[i][j] == 0.0
    {
      var embs1 := EmbedBatch(texts1, None, modelLoaded, encode);
      var embs2 := EmbedBatch(texts2, None, modelLoaded, encode);
      m := BuildSimilarityMatrix(embs1, embs2, numpyAvailable, dot);
    }
  }
}
