// The embedding generator: a cache of vectors keyed by review id in front of
// a sentence encoder. Cached reviews are not re-encoded; the others are
// encoded together, in order, and (with the cache on) saved.
module Embeddings {
  import opened Common
  import opened Json
  import opened ProfessorSchemas
  import opened Preprocess

  type Vector = seq<real>

  datatype Result<T> = Success(value: T) | Failure(error: string)

  /** `np.zeros(dim)`: the row an embedding starts as. */
  function Zeros(dim: nat): (v: Vector)
    ensures |v| == dim && forall j :: 0 <= j < dim ==> v[j] == 0.0
  {
    seq(dim, _ => 0.0)
  }

  /** The positions to encode: those not in the cache when it is used, all of them otherwise. */
  function Misses(cache: map<string, Vector>, ids: seq<string>, useCache: bool): (r: seq<nat>)
    ensures forall k :: 0 <= k < |r| ==> r[k] < |ids|
  {
    if useCache then MissesUpTo(cache, ids, |ids|) else seq(|ids|, i => i)
  }

  function MissesUpTo(cache: map<string, Vector>, ids: seq<string>, n: nat): (r: seq<nat>)
    requires n <= |ids|
    ensures forall k :: 0 <= k < |r| ==> r[k] < n
  {
    if n == 0 then []
    else MissesUpTo(cache, ids, n - 1) + (if ids[n - 1] in cache then [] else [n - 1])
  }

  /** The positions are increasing, below the length, and exactly the uncached ones. */
  predicate Increasing(idx: seq<nat>) {
    forall a, b :: 0 <= a < b < |idx| ==> idx[a] < idx[b]
  }

  lemma {:induction false} MissesUpToSpec(cache: map<string, Vector>, ids: seq<string>, n: nat)
    requires n <= |ids|
    ensures Increasing(MissesUpTo(cache, ids, n))
    ensures forall k :: 0 <= k < |MissesUpTo(cache, ids, n)| ==> MissesUpTo(cache, ids, n)[k] < n
    ensures forall i :: 0 <= i < n ==> (i in MissesUpTo(cache, ids, n) <==> ids[i] !in cache)
  {
    if n > 0 {
      MissesUpToSpec(cache, ids, n - 1);
    }
  }

  /** The positions to encode are increasing and in range; with the cache on they are exactly the uncached ids. */
  lemma MissesSpec(cache: map<string, Vector>, ids: seq<string>, useCache: bool)
    ensures Increasing(Misses(cache, ids, useCache))
    ensures forall k :: 0 <= k < |Misses(cache, ids, useCache)| ==> Misses(cache, ids, useCache)[k] < |ids|
    ensures forall i :: 0 <= i < |ids| ==>
      (i in Misses(cache, ids, useCache) <==> !useCache || ids[i] !in cache)
  {
    if useCache {
      MissesUpToSpec(cache, ids, |ids|);
    } else {
      forall i | 0 <= i < |ids| ensures i in Misses(cache, ids, useCache) {
        assert Misses(cache, ids, useCache)[i] == i;
      }
    }
  }

  /** What the encoder returns for the texts to encode; it is not called when there are none. */
  function Encoded(texts: seq<string>, misses: seq<nat>, encode: seq<string> -> seq<Vector>): seq<Vector>
    requires forall k :: 0 <= k < |misses| ==> misses[k] < |texts|
  {
    if |misses| == 0 then [] else encode(Pick(texts, misses))
  }

  /** The rows before encoding: the cached vector, or zeros. */
  function Initial(cache: map<string, Vector>, ids: seq<string>, useCache: bool, dim: nat): (rows: seq<Vector>)
    ensures |rows| == |ids|
  {
    seq(|ids|, i requires 0 <= i < |ids| => if useCache && ids[i] in cache then cache[ids[i]] else Zeros(dim))
  }

  /** `for idx, embedding in zip(indices, new_embeddings): rows[idx] = embedding`. */
  function Filled(rows: seq<Vector>, idx: seq<nat>, vs: seq<Vector>, n: nat): (r: seq<Vector>)
    requires n <= |idx| && n <= |vs|
    requires forall k :: 0 <= k < |idx| ==> idx[k] < |rows|
    ensures |r| == |rows|
  {
    if n == 0 then rows else Filled(rows, idx, vs, n - 1)[idx[n - 1] := vs[n - 1]]
  }

  /** The cache after saving: each encoded vector stored under its review's id. */
  function Saved(cache: map<string, Vector>, ids: seq<string>, idx: seq<nat>, vs: seq<Vector>, n: nat)
    : map<string, Vector>
    requires n <= |idx| && n <= |vs|
    requires forall k :: 0 <= k < |idx| ==> idx[k] < |ids|
  {
    if n == 0 then cache else Saved(cache, ids, idx, vs, n - 1)[ids[idx[n - 1]] := vs[n - 1]]
  }

  function Paired(misses: seq<nat>, encoded: seq<Vector>): nat {
    if |misses| <= |encoded| then |misses| else |encoded|
  }

  /** The embeddings `generate_embeddings` returns. */
  function EmbeddingsOf(cache: map<string, Vector>, texts: seq<string>, ids: seq<string>, useCache: bool,
                        encode: seq<string> -> seq<Vector>, dim: nat): Result<seq<Vector>>
  {
    if |texts| != |ids| then Failure("texts and review_ids must have same length")
    else
      var misses := Misses(cache, ids, useCache);
      MissesSpec(cache, ids, useCache);
      var encoded := Encoded(texts, misses, encode);
      Success(Filled(Initial(cache, ids, useCache, dim), misses, encoded, Paired(misses, encoded)))
  }

  /** The cache after `generate_embeddings`. */
  function CacheAfter(cache: map<string, Vector>, texts: seq<string>, ids: seq<string>, useCache: bool,
                      encode: seq<string> -> seq<Vector>): map<string, Vector>
  {
    if |texts| != |ids| || !useCache then cache
    else
      var misses := Misses(cache, ids, useCache);
      MissesSpec(cache, ids, useCache);
      var encoded := Encoded(texts, misses, encode);
      Saved(cache, ids, misses, encoded, Paired(misses, encoded))
  }

  // ---------------------------------------------------------------------------
  // Properties
  // ---------------------------------------------------------------------------

  /** Filling touches only the listed positions. */
  lemma {:induction false} FilledUntouched(rows: seq<Vector>, idx: seq<nat>, vs: seq<Vector>, n: nat, i: nat)
    requires n <= |idx| && n <= |vs|
    requires forall k :: 0 <= k < |idx| ==> idx[k] < |rows|
    requires i < |rows| && forall k :: 0 <= k < n ==> idx[k] != i
    ensures Filled(rows, idx, vs, n)[i] == rows[i]
  {
    if n > 0 {
      FilledUntouched(rows, idx, vs, n - 1, i);
    }
  }

  /** The last write to a position wins. */
  lemma {:induction false} FilledLast(rows: seq<Vector>, idx: seq<nat>, vs: seq<Vector>, n: nat, k: nat)
    requires n <= |idx| && n <= |vs|
    requires forall m :: 0 <= m < |idx| ==> idx[m] < |rows|
    requires k < n && forall l :: k < l < n ==> idx[l] != idx[k]
    ensures Filled(rows, idx, vs, n)[idx[k]] == vs[k]
  {
    if k < n - 1 {
      FilledLast(rows, idx, vs, n - 1, k);
    }
  }

  /** Saving adds the listed ids and keeps every other entry. */
  lemma {:induction false} SavedSpec(cache: map<string, Vector>, ids: seq<string>, idx: seq<nat>, vs: seq<Vector>, n: nat)
    requires n <= |idx| && n <= |vs|
    requires forall k :: 0 <= k < |idx| ==> idx[k] < |ids|
    ensures forall k :: 0 <= k < n ==> ids[idx[k]] in Saved(cache, ids, idx, vs, n)
    ensures forall id :: id in Saved(cache, ids, idx, vs, n) <==>
      id in cache || exists k :: 0 <= k < n && ids[idx[k]] == id
    ensures forall id :: id in cache && (forall k :: 0 <= k < n ==> ids[idx[k]] != id) ==>
      Saved(cache, ids, idx, vs, n)[id] == cache[id]
  {
    if n > 0 {
      SavedSpec(cache, ids, idx, vs, n - 1);
    }
  }

  /** Without the same number of texts and ids the call fails and the cache is untouched. */
  lemma LengthMismatch(cache: map<string, Vector>, texts: seq<string>, ids: seq<string>, useCache: bool,
                       encode: seq<string> -> seq<Vector>, dim: nat)
    ensures EmbeddingsOf(cache, texts, ids, useCache, encode, dim).Failure? <==> |texts| != |ids|
    ensures |texts| != |ids| ==> CacheAfter(cache, texts, ids, useCache, encode) == cache
  {
  }

  /** A cached review is not re-encoded: its row is the cached vector. */
  lemma CacheHit(cache: map<string, Vector>, texts: seq<string>, ids: seq<string>,
                 encode: seq<string> -> seq<Vector>, dim: nat, i: nat)
    requires |texts| == |ids| && i < |ids| && ids[i] in cache
    ensures |EmbeddingsOf(cache, texts, ids, true, encode, dim).value| == |texts|
    ensures EmbeddingsOf(cache, texts, ids, true, encode, dim).value[i] == cache[ids[i]]
  {
    var misses := Misses(cache, ids, true);
    MissesSpec(cache, ids, true);
    var encoded := Encoded(texts, misses, encode);
    assert forall k :: 0 <= k < |misses| ==> misses[k] != i by {
      forall k | 0 <= k < |misses| ensures misses[k] != i {
        assert misses[k] in misses;
      }
    }
    FilledUntouched(Initial(cache, ids, true, dim), misses, encoded, Paired(misses, encoded), i);
  }

  /**
   * When the encoder returns one vector per text, every uncached review's row
   * is the vector encoded for it, in the order the reviews came.
   */
  lemma MissEncoded(cache: map<string, Vector>, texts: seq<string>, ids: seq<string>, useCache: bool,
                    encode: seq<string> -> seq<Vector>, dim: nat, k: nat)
    requires |texts| == |ids|
    requires |Encoded(texts, Misses(cache, ids, useCache), encode)| == |Misses(cache, ids, useCache)|
    requires k < |Misses(cache, ids, useCache)|
    ensures EmbeddingsOf(cache, texts, ids, useCache, encode, dim).value[Misses(cache, ids, useCache)[k]] ==
      encode(Pick(texts, Misses(cache, ids, useCache)))[k]
  {
    var misses := Misses(cache, ids, useCache);
    MissesSpec(cache, ids, useCache);
    var encoded := Encoded(texts, misses, encode);
    FilledLast(Initial(cache, ids, useCache, dim), misses, encoded, |misses|, k);
  }

  /**
   * With the cache on and one vector per text from the encoder, every id is
   * cached afterwards, earlier entries are kept as they were, and a second
   * call with the same ids has nothing left to encode.
   */
  lemma CacheFilled(cache: map<string, Vector>, texts: seq<string>, ids: seq<string>,
                    encode: seq<string> -> seq<Vector>)
    requires |texts| == |ids|
    requires |Encoded(texts, Misses(cache, ids, true), encode)| == |Misses(cache, ids, true)|
    ensures forall i :: 0 <= i < |ids| ==> ids[i] in CacheAfter(cache, texts, ids, true, encode)
    ensures forall id :: id in cache ==>
      id in CacheAfter(cache, texts, ids, true, encode) && CacheAfter(cache, texts, ids, true, encode)[id] == cache[id]
    ensures Misses(CacheAfter(cache, texts, ids, true, encode), ids, true) == []
  {
    var misses := Misses(cache, ids, true);
    MissesSpec(cache, ids, true);
    var encoded := Encoded(texts, misses, encode);
    var after := CacheAfter(cache, texts, ids, true, encode);
    SavedSpec(cache, ids, misses, encoded, |misses|);
    forall i | 0 <= i < |ids| ensures ids[i] in after {
      if ids[i] !in cache {
        var k :| 0 <= k < |misses| && misses[k] == i;
      }
    }
    forall id | id in cache ensures id in after && after[id] == cache[id] {
      forall k | 0 <= k < |misses| ensures ids[misses[k]] != id {
        assert misses[k] in misses;
      }
    }
    MissesNone(after, ids, |ids|);
  }

  lemma {:induction false} MissesNone(cache: map<string, Vector>, ids: seq<string>, n: nat)
    requires n <= |ids| && forall i :: 0 <= i < |ids| ==> ids[i] in cache
    ensures MissesUpTo(cache, ids, n) == []
  {
    if n > 0 {
      MissesNone(cache, ids, n - 1);
    }
  }

  // ---------------------------------------------------------------------------
  // The generator
  // ---------------------------------------------------------------------------

  /**
   * The generator with its cache. The model's embedding width and its
   * encoder are parameters; the cache directory is the `cache` map.
   */
  class EmbeddingGenerator {
    var cache: map<string, Vector>

    constructor(cache0: map<string, Vector>)
      ensures cache == cache0
    {
      cache := cache0;
    }

    /** The cache pass: cached rows are filled in, the other positions and texts listed for encoding. */
    method LookUp(embeddings: array<Vector>, texts: seq<string>, ids: seq<string>, dim: nat)
      returns (toEncode: seq<string>, indices: seq<nat>)
      requires |texts| == |ids| == embeddings.Length
      requires forall j :: 0 <= j < embeddings.Length ==> embeddings[j] == Zeros(dim)
      modifies embeddings
      ensures indices == Misses(cache, ids, true)
      ensures toEncode == Pick(texts, indices)
      ensures embeddings[..] == Initial(cache, ids, true, dim)
    {
      toEncode, indices := [], [];
      for i := 0 to |ids|
        invariant indices == MissesUpTo(cache, ids, i)
        invariant toEncode == Pick(texts, indices)
        invariant forall j :: 0 <= j < i ==> embeddings[j] == if ids[j] in cache then cache[ids[j]] else Zeros(dim)
        invariant forall j :: i <= j < |ids| ==> embeddings[j] == Zeros(dim)
      {
        if ids[i] in cache {
          embeddings[i] := cache[ids[i]];
        } else {
          toEncode := toEncode + [texts[i]];
          indices := indices + [i];
        }
      }
      assert embeddings[..] == Initial(cache, ids, true, dim);
    }

    /** The store pass: each encoded vector goes to its row and, with the cache on, into the cache. */
    method Store(embeddings: array<Vector>, ids: seq<string>, indices: seq<nat>, encoded: seq<Vector>, useCache: bool)
      requires |ids| == embeddings.Length
      requires forall k :: 0 <= k < |indices| ==> indices[k] < |ids|
      modifies this, embeddings
      ensures embeddings[..] == Filled(old(embeddings[..]), indices, encoded, Paired(indices, encoded))
      ensures cache == if useCache then Saved(old(cache), ids, indices, encoded, Paired(indices, encoded)) else old(cache)
    {
      for k := 0 to Paired(indices, encoded)
        invariant embeddings[..] == Filled(old(embeddings[..]), indices, encoded, k)
        invariant cache == if useCache then Saved(old(cache), ids, indices, encoded, k) else old(cache)
      {
        embeddings[indices[k]] := encoded[k];
        if useCache {
          cache := cache[ids[indices[k]] := encoded[k]];
        }
      }
    }

    /** `generate_embeddings`. */
    method GenerateEmbeddings(texts: seq<string>, ids: seq<string>, useCache: bool,
                              encode: seq<string> -> seq<Vector>, dim: nat)
      returns (r: Result<seq<Vector>>)
      modifies this
      ensures r == EmbeddingsOf(old(cache), texts, ids, useCache, encode, dim)
      ensures cache == CacheAfter(old(cache), texts, ids, useCache, encode)
    {
      if |texts| != |ids| {
        return Failure("texts and review_ids must have same length");
      }
      var embeddings := new Vector[|texts|](_ => Zeros(dim));
      var toEncode: seq<string>, indices: seq<nat>;
      if useCache {
        toEncode, indices := LookUp(embeddings, texts, ids, dim);
      } else {
        toEncode, indices := texts, seq(|texts|, i => i);
        assert toEncode == Pick(texts, indices);
        assert embeddings[..] == Initial(cache, ids, useCache, dim);
      }
      if |toEncode| > 0 {
        var encoded := encode(toEncode);
        Store(embeddings, ids, indices, encoded, useCache);
      }
      r := Success(embeddings[..]);
    }

    /** `generate_embeddings_for_reviews`: the reviews' texts under their ids. */
    method GenerateForReviews(reviews: seq<ProcessedReview>, useCache: bool,
                              encode: seq<string> -> seq<Vector>, dim: nat)
      returns (r: Result<seq<Vector>>)
      modifies this
      ensures useCache && (exists i :: 0 <= i < |reviews| && !reviews[i].reviewId.JStr?) ==> r.Failure?
      ensures (!useCache || forall i :: 0 <= i < |reviews| ==> reviews[i].reviewId.JStr?) ==>
        r == EmbeddingsOf(old(cache), Texts(reviews), Ids(reviews), useCache, encode, dim) &&
        cache == CacheAfter(old(cache), Texts(reviews), Ids(reviews), useCache, encode)
    {
      if useCache && exists i :: 0 <= i < |reviews| && !reviews[i].reviewId.JStr? {
        return Failure("review id is not a string");
      }
      r := GenerateEmbeddings(Texts(reviews), Ids(reviews), useCache, encode, dim);
    }
  }

  function Texts(reviews: seq<ProcessedReview>): (r: seq<string>)
    ensures |r| == |reviews| && forall i :: 0 <= i < |r| ==> r[i] == reviews[i].text
  {
    MapSeq(reviews, (x: ProcessedReview) => x.text)
  }

  /** The ids as cache keys; a non-string id has no key. */
  function Ids(reviews: seq<ProcessedReview>): (r: seq<string>)
    ensures |r| == |reviews|
    ensures forall i :: 0 <= i < |r| && reviews[i].reviewId.JStr? ==> r[i] == reviews[i].reviewId.s
  {
    MapSeq(reviews, (x: ProcessedReview) => if x.reviewId.JStr? then x.reviewId.s else [])
  }
}
