/**
 * `Retriever` (the query side of the index): it holds the `meta` and
 * `chunks` lists loaded from `meta.json` and the FAISS index, and `search`
 * turns the index's (score, idx) pairs into (chunk, meta, score) triples.
 * The embedding model and FAISS's nearest-neighbour search are one opaque
 * function here, `index`, from a query and `k` to the pairs FAISS returns.
 */
module Retrieval {
  import opened IndexDocs

  /** A similarity score, passed through and never computed here. */
  type Score = real

  /** FAISS marks an unfilled result slot with this index. */
  const NotFound: int := -1

  /** One (score, idx) pair of `zip(D[0], I[0])`. */
  datatype Hit = Hit(score: Score, idx: int)

  /** One element of `search`'s result: `(chunks[idx], meta[idx], score)`. */
  datatype Retrieved = Retrieved(chunk: string, meta: ChunkMeta, score: Score)

  /** Every pair that is not the sentinel points inside both `chunks` and `meta`. */
  predicate HitsInRange(hits: seq<Hit>, chunks: seq<string>, meta: seq<ChunkMeta>) {
    forall h :: h in hits && h.idx != NotFound ==> 0 <= h.idx < |chunks| && 0 <= h.idx < |meta|
  }

  /** What FAISS promises for `index.search(q, k)` on an index built with the stored chunks. */
  predicate IndexAnswers(hits: seq<Hit>, k: nat, chunks: seq<string>, meta: seq<ChunkMeta>) {
    |hits| <= k && HitsInRange(hits, chunks, meta)
  }

  /** The triple for a non-sentinel pair: a stored chunk, a stored meta entry, the score unchanged. */
  function Lookup(h: Hit, chunks: seq<string>, meta: seq<ChunkMeta>): (r: Retrieved)
    requires 0 <= h.idx < |chunks| && 0 <= h.idx < |meta|
    ensures r.chunk in chunks && r.meta in meta && r.score == h.score
  {
    Retrieved(chunks[h.idx], meta[h.idx], h.score)
  }

  /** What `search` returns for the pairs `hits`: sentinels skipped, the rest looked up, in order. */
  function Resolve(hits: seq<Hit>, chunks: seq<string>, meta: seq<ChunkMeta>): (out: seq<Retrieved>)
    requires HitsInRange(hits, chunks, meta)
    ensures |out| <= |hits|
  {
    if hits == [] then []
    else
      var h := hits[|hits| - 1];
      assert h in hits;
      Resolve(hits[..|hits| - 1], chunks, meta) +
        (if h.idx == NotFound then [] else [Lookup(h, chunks, meta)])
  }

  /** The positions of `hits` that are not the sentinel, in increasing order. */
  function Kept(hits: seq<Hit>): (pos: seq<nat>)
    ensures |pos| <= |hits|
    ensures forall j :: 0 <= j < |pos| ==> pos[j] < |hits| && hits[pos[j]].idx != NotFound
    ensures forall j1, j2 :: 0 <= j1 < j2 < |pos| ==> pos[j1] < pos[j2]
    ensures forall i :: 0 <= i < |hits| && hits[i].idx != NotFound ==> i in pos
  {
    if hits == [] then []
    else
      var n := |hits| - 1;
      var init := Kept(hits[..n]);
      assert forall i :: 0 <= i < n ==> hits[..n][i] == hits[i];
      init + (if hits[n].idx == NotFound then [] else [n])
  }

  /**
   * Order and alignment of `search`: output j comes from the j-th
   * non-sentinel pair, and is `(chunks[idx], meta[idx], score)` for that
   * pair's own idx and score.
   */
  lemma {:induction false} ResolveFollowsKept(hits: seq<Hit>, chunks: seq<string>, meta: seq<ChunkMeta>)
    requires HitsInRange(hits, chunks, meta)
    ensures |Resolve(hits, chunks, meta)| == |Kept(hits)|
    ensures forall j :: 0 <= j < |Kept(hits)| ==>
      hits[Kept(hits)[j]] in hits &&
      Resolve(hits, chunks, meta)[j] == Lookup(hits[Kept(hits)[j]], chunks, meta)
  {
    if hits != [] {
      var n := |hits| - 1;
      var init := hits[..n];
      assert HitsInRange(init, chunks, meta) by {
        forall h | h in init ensures h in hits { }
      }
      ResolveFollowsKept(init, chunks, meta);
      var out, out0 := Resolve(hits, chunks, meta), Resolve(init, chunks, meta);
      var pos, pos0 := Kept(hits), Kept(init);
      assert |out0| == |pos0|;
      assert out[..|out0|] == out0 && pos[..|pos0|] == pos0;
      forall j | 0 <= j < |pos|
        ensures hits[pos[j]] in hits && out[j] == Lookup(hits[pos[j]], chunks, meta)
      {
        if j < |pos0| {
          assert pos[j] == pos0[j] && out[j] == out0[j];
          assert init[pos0[j]] == hits[pos0[j]];
        } else {
          assert pos[j] == n;
        }
      }
    }
  }

  /** No output triple comes from a sentinel pair, and scores are passed through unchanged. */
  lemma ResolveSkipsSentinels(hits: seq<Hit>, chunks: seq<string>, meta: seq<ChunkMeta>, j: nat)
    requires HitsInRange(hits, chunks, meta) && j < |Resolve(hits, chunks, meta)|
    ensures exists i :: 0 <= i < |hits| && hits[i].idx != NotFound &&
                        Resolve(hits, chunks, meta)[j] == Retrieved(chunks[hits[i].idx], meta[hits[i].idx], hits[i].score)
  {
    ResolveFollowsKept(hits, chunks, meta);
    var i := Kept(hits)[j];
    assert hits[i].idx != NotFound;
  }

  /** Every non-sentinel pair shows up in the output. */
  lemma ResolveKeepsEveryHit(hits: seq<Hit>, chunks: seq<string>, meta: seq<ChunkMeta>, i: nat)
    requires HitsInRange(hits, chunks, meta) && i < |hits| && hits[i].idx != NotFound
    ensures hits[i] in hits
    ensures Lookup(hits[i], chunks, meta) in Resolve(hits, chunks, meta)
  {
    ResolveFollowsKept(hits, chunks, meta);
    var pos := Kept(hits);
    var j :| 0 <= j < |pos| && pos[j] == i;
    assert Resolve(hits, chunks, meta)[j] == Lookup(hits[i], chunks, meta);
  }

  /** Scores that come out of FAISS in non-increasing order stay in that order. */
  lemma ResolveKeepsScoreOrder(hits: seq<Hit>, chunks: seq<string>, meta: seq<ChunkMeta>)
    requires HitsInRange(hits, chunks, meta)
    requires forall i1, i2 :: 0 <= i1 < i2 < |hits| ==> hits[i1].score >= hits[i2].score
    ensures var out := Resolve(hits, chunks, meta);
      forall j1, j2 :: 0 <= j1 < j2 < |out| ==> out[j1].score >= out[j2].score
  {
    ResolveFollowsKept(hits, chunks, meta);
    var out := Resolve(hits, chunks, meta);
    var pos := Kept(hits);
    forall j1, j2 | 0 <= j1 < j2 < |out| ensures out[j1].score >= out[j2].score {
      assert out[j1].score == hits[pos[j1]].score && out[j2].score == hits[pos[j2]].score;
    }
  }

  /** `search` over `a + b` is `search` over `a` followed by `search` over `b`. */
  lemma {:induction false} ResolveConcat(a: seq<Hit>, b: seq<Hit>, chunks: seq<string>, meta: seq<ChunkMeta>)
    requires HitsInRange(a, chunks, meta) && HitsInRange(b, chunks, meta)
    ensures HitsInRange(a + b, chunks, meta)
    ensures Resolve(a + b, chunks, meta) == Resolve(a, chunks, meta) + Resolve(b, chunks, meta)
    decreases |b|
  {
    assert HitsInRange(a + b, chunks, meta) by {
      forall h | h in a + b ensures h in a || h in b { }
    }
    if b != [] {
      var n := |b| - 1;
      assert HitsInRange(b[..n], chunks, meta) by {
        forall h | h in b[..n] ensures h in b { }
      }
      var last := b[n];
      var tail := if last.idx == NotFound then [] else [Lookup(last, chunks, meta)];
      assert (a + b)[..|a + b| - 1] == a + b[..n];
      assert (a + b)[|a + b| - 1] == last;
      calc {
        Resolve(a + b, chunks, meta);
        Resolve(a + b[..n], chunks, meta) + tail;
        { ResolveConcat(a, b[..n], chunks, meta); }
        (Resolve(a, chunks, meta) + Resolve(b[..n], chunks, meta)) + tail;
        Resolve(a, chunks, meta) + (Resolve(b[..n], chunks, meta) + tail);
        Resolve(a, chunks, meta) + Resolve(b, chunks, meta);
      }
    } else {
      assert a + b == a;
    }
  }

  /**
   * Search over a store built by the indexer: every result's chunk text is
   * chunk number `chunk_id` of the file its `meta` entry names.
   */
  lemma ResultsTraceToDocuments(docs: seq<Document>, hits: seq<Hit>, j: nat) returns (f: nat)
    requires HitsInRange(hits, StoreOf(docs).chunks, StoreOf(docs).meta)
    requires j < |Resolve(hits, StoreOf(docs).chunks, StoreOf(docs).meta)|
    ensures var r := Resolve(hits, StoreOf(docs).chunks, StoreOf(docs).meta)[j];
      f < |docs| && docs[f].name == r.meta.source &&
      r.meta.chunkId < |DocChunks(docs[f])| && DocChunks(docs[f])[r.meta.chunkId] == r.chunk
  {
    var store := StoreOf(docs);
    ResolveFollowsKept(hits, store.chunks, store.meta);
    var h := hits[Kept(hits)[j]];
    f := StoreEntryProvenance(docs, h.idx);
  }

  /** The retriever the chat handlers share; `None` in the program when loading failed. */
  class Retriever {
    /** `self.meta` and `self.chunks`, both from the same `meta.json`. */
    var meta: seq<ChunkMeta>
    var chunks: seq<string>
    /** Embedding the query and `self.index.search(q, k)`, as one function. */
    var index: (string, nat) -> seq<Hit>

    /** The loaded index answers every query within bounds of the loaded lists. */
    ghost predicate Valid()
      reads this
    {
      forall q: string, k: nat :: IndexAnswers(index(q, k), k, chunks, meta)
    }

    /** `__init__`: load the index and take `meta` and `chunks` from one stored document. */
    constructor (store: Store, index: (string, nat) -> seq<Hit>)
      requires forall q: string, k: nat :: IndexAnswers(index(q, k), k, store.chunks, store.meta)
      ensures Valid()
      ensures this.meta == store.meta && this.chunks == store.chunks && this.index == index
    {
      this.meta := store.meta;
      this.chunks := store.chunks;
      this.index := index;
    }

    /** What `search(query, k)` returns. */
    ghost function Results(query: string, k: nat): seq<Retrieved>
      reads this
      requires Valid()
    {
      Resolve(index(query, k), chunks, meta)
    }

    /**
     * `search`: walk the (score, idx) pairs, skip the sentinel, and append
     * `(chunks[idx], meta[idx], score)` for the others. Nothing is modified.
     */
    method Search(query: string, k: nat) returns (out: seq<Retrieved>)
      requires Valid() && 1 <= k
      ensures out == Results(query, k)
      ensures |out| <= k
    {
      var hits := index(query, k);
      assert IndexAnswers(hits, k, chunks, meta);
      out := [];
      for i := 0 to |hits|
        invariant HitsInRange(hits[..i], chunks, meta)
        invariant out == Resolve(hits[..i], chunks, meta)
      {
        assert hits[..i + 1][..i] == hits[..i];
        assert hits[i] in hits;
        assert HitsInRange(hits[..i + 1], chunks, meta) by {
          forall h | h in hits[..i + 1] ensures h in hits { }
        }
        var h := hits[i];
        if h.idx == NotFound {
          continue;
        }
        out := out + [Retrieved(chunks[h.idx], meta[h.idx], h.score)];
      }
      assert hits[..|hits|] == hits;
    }
  }
}
