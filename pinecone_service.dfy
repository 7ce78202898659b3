/**
 * The vector-index service: it turns a document's chunks into vectors
 * (id, embedding, metadata), skipping chunks without an embedding, and
 * writes them to the index in one batch; and it builds the request that
 * queries the index, with or without a tag filter. The index is a map
 * from vector id to the stored embedding and metadata; the similarity
 * search itself happens inside the index and is passed in as a function.
 */
module PineconeService {
  import opened Wrappers
  import opened PyText
  import opened Json

  /** A vector as handed to the index: `(chunk_id, embedding, metadata)`. */
  datatype Vector = Vector(id: Json, values: Json, metadata: Json)

  /** What the index keeps under one id. */
  datatype Record = Record(values: Json, metadata: Json)

  /** One query match: its id, its similarity score (opaque here) and its metadata. */
  datatype Match = Match(id: Json, score: real, metadata: Json)

  /** What one chunk contributes: an exception, nothing, or a vector. */
  datatype Outcome = Raises | Skipped | Built(vector: Vector)

  /** The id of the `i`-th chunk of `filename` when it brings none. */
  function DefaultChunkId(filename: string, i: nat): string
  {
    filename + "-chunk-" + NatToString(i)
  }

  /** Default ids of one file never collide: they differ exactly when the positions differ. */
  lemma DefaultIdsDistinct(filename: string, i: nat, j: nat)
    ensures DefaultChunkId(filename, i) == DefaultChunkId(filename, j) <==> i == j
  {
    var prefix := filename + "-chunk-";
    if DefaultChunkId(filename, i) == DefaultChunkId(filename, j) {
      assert DefaultChunkId(filename, i)[|prefix|..] == NatToString(i);
      assert DefaultChunkId(filename, j)[|prefix|..] == NatToString(j);
      NatToStringInjective(i, j);
    }
  }

  /** `chunk.get('chunk_id', f"{filename}-chunk-{i}")`. */
  function ChunkId(filename: string, i: nat, chunk: Json): (r: Json)
    requires chunk.JObj?
    ensures Lookup(chunk.fields, "chunk_id").None? ==> r == JStr(DefaultChunkId(filename, i))
    ensures Lookup(chunk.fields, "chunk_id").Some? ==> r == Lookup(chunk.fields, "chunk_id").value
  {
    Get(chunk, "chunk_id", JStr(DefaultChunkId(filename, i))).value
  }

  /** The metadata stored with the `i`-th chunk. */
  function Metadata(filename: string, i: nat, chunk: Json): Json
    requires chunk.JObj?
  {
    JObj([("filename", JStr(filename)),
          ("chunkText", Get(chunk, "text", JStr("")).value),
          ("chunkIndex", JNum(i as real)),
          ("chunkId", ChunkId(filename, i, chunk)),
          ("tags", Get(chunk, "tags", EmptyArray).value)])
  }

  /** One iteration of `upsert_chunks`' loop. */
  function Build(filename: string, i: nat, chunk: Json): (r: Outcome)
    ensures r.Raises? <==> !chunk.JObj?
    ensures r.Built? <==> chunk.JObj? && Truthy(Get(chunk, "embedding", JNull).value)
    ensures r.Built? ==> r.vector.values == Get(chunk, "embedding", JNull).value
    ensures r.Built? ==> r.vector.id == ChunkId(filename, i, chunk) && r.vector.metadata == Metadata(filename, i, chunk)
  {
    if !chunk.JObj? then Raises
    else
      var embedding := Get(chunk, "embedding", JNull).value;
      if Truthy(embedding) then Built(Vector(ChunkId(filename, i, chunk), embedding, Metadata(filename, i, chunk)))
      else Skipped
  }

  /** The vectors built from the first `n` chunks, or `None` once a chunk raised. */
  function Vectors(filename: string, chunks: seq<Json>, n: nat): Option<seq<Vector>>
    requires n <= |chunks|
  {
    if n == 0 then Some([])
    else
      match Vectors(filename, chunks, n - 1)
      case None => None
      case Some(vs) =>
        match Build(filename, n - 1, chunks[n - 1])
        case Raises => None
        case Skipped => Some(vs)
        case Built(v) => Some(vs + [v])
  }

  /** The positions, below `n`, of the chunks that carry an embedding. */
  function Embedded(chunks: seq<Json>, n: nat): (r: seq<nat>)
    requires n <= |chunks|
    ensures forall k :: 0 <= k < |r| ==> r[k] < n
    ensures forall k, m :: 0 <= k < m < |r| ==> r[k] < r[m]
    ensures forall i :: 0 <= i < n ==>
      (i in r <==> chunks[i].JObj? && Truthy(Get(chunks[i], "embedding", JNull).value))
  {
    if n == 0 then []
    else if Build("", n - 1, chunks[n - 1]).Built? then Embedded(chunks, n - 1) + [n - 1]
    else Embedded(chunks, n - 1)
  }

  /** The call raises exactly when some chunk is not a dict. */
  lemma {:induction false} VectorsRaise(filename: string, chunks: seq<Json>, n: nat)
    requires n <= |chunks|
    ensures Vectors(filename, chunks, n).None? <==> exists i :: 0 <= i < n && !chunks[i].JObj?
  {
    if n > 0 {
      VectorsRaise(filename, chunks, n - 1);
      if Vectors(filename, chunks, n - 1).None? {
        var i :| 0 <= i < n - 1 && !chunks[i].JObj?;
        assert 0 <= i < n && !chunks[i].JObj?;
      }
    }
  }

  /**
   * Vectors are built for exactly the chunks with a truthy embedding, in
   * input order; each carries the chunk's input position as its
   * `chunkIndex`, so the stored indices skip the chunks left out.
   */
  lemma {:induction false} VectorsInOrder(filename: string, chunks: seq<Json>, n: nat)
    requires n <= |chunks| && Vectors(filename, chunks, n).Some?
    ensures var vs := Vectors(filename, chunks, n).value;
      var kept := Embedded(chunks, n);
      |vs| == |kept| &&
      forall k :: 0 <= k < |vs| ==>
        Build(filename, kept[k], chunks[kept[k]]) == Built(vs[k]) &&
        vs[k].metadata == Metadata(filename, kept[k], chunks[kept[k]])
  {
    if n > 0 {
      assert Vectors(filename, chunks, n - 1).Some?;
      VectorsInOrder(filename, chunks, n - 1);
      var prev := Vectors(filename, chunks, n - 1).value;
      var kept := Embedded(chunks, n - 1);
      var b := Build(filename, n - 1, chunks[n - 1]);
      assert b.Built? == Build("", n - 1, chunks[n - 1]).Built?;
      if b.Built? {
        var vs := prev + [b.vector];
        assert Vectors(filename, chunks, n).value == vs;
        assert Embedded(chunks, n) == kept + [n - 1];
        forall k | 0 <= k < |prev| ensures vs[k] == prev[k] && (kept + [n - 1])[k] == kept[k] {
        }
      } else {
        assert Vectors(filename, chunks, n).value == prev;
        assert Embedded(chunks, n) == kept;
      }
    }
  }

  /** The index after one batched upsert: the vectors written in order, a later vector replacing an earlier one with the same id. */
  function Upserted(index: map<Json, Record>, vectors: seq<Vector>): map<Json, Record>
  {
    if vectors == [] then index
    else
      var last := vectors[|vectors| - 1];
      Upserted(index, vectors[..|vectors| - 1])[last.id := Record(last.values, last.metadata)]
  }

  /** The ids present after an upsert: the old ones and the batch's. */
  lemma {:induction false} UpsertedKeys(index: map<Json, Record>, vectors: seq<Vector>)
    ensures Upserted(index, vectors).Keys == index.Keys + set k | 0 <= k < |vectors| :: vectors[k].id
  {
    if vectors != [] {
      var front := vectors[..|vectors| - 1];
      UpsertedKeys(index, front);
      assert forall k :: 0 <= k < |front| ==> front[k] == vectors[k];
      assert (set k | 0 <= k < |vectors| :: vectors[k].id) ==
        (set k | 0 <= k < |front| :: front[k].id) + {vectors[|vectors| - 1].id};
    }
  }

  /** An id the batch does not mention keeps what it had. */
  lemma {:induction false} UpsertedElsewhere(index: map<Json, Record>, vectors: seq<Vector>, id: Json)
    requires id in index && forall k :: 0 <= k < |vectors| ==> vectors[k].id != id
    ensures id in Upserted(index, vectors) && Upserted(index, vectors)[id] == index[id]
  {
    if vectors != [] {
      var front := vectors[..|vectors| - 1];
      assert forall k :: 0 <= k < |front| ==> front[k] == vectors[k];
      UpsertedElsewhere(index, front, id);
    }
  }

  /** An id of the batch holds the last vector of the batch with that id. */
  lemma {:induction false} UpsertedLastWins(index: map<Json, Record>, vectors: seq<Vector>, k: nat)
    requires k < |vectors| && forall m :: k < m < |vectors| ==> vectors[m].id != vectors[k].id
    ensures vectors[k].id in Upserted(index, vectors)
    ensures Upserted(index, vectors)[vectors[k].id] == Record(vectors[k].values, vectors[k].metadata)
  {
    if k < |vectors| - 1 {
      var front := vectors[..|vectors| - 1];
      assert forall m :: 0 <= m < |front| ==> front[m] == vectors[m];
      UpsertedLastWins(index, front, k);
    }
  }

  /** The filter `query` sends: `{"tags": {"$in": filter_categories}}`. */
  function TagFilter(categories: Json): Json
  {
    JObj([("tags", JObj([("$in", categories)]))])
  }

  const DefaultTopK := 20

  /** A query against the index, metadata always included. */
  datatype QueryRequest = QueryRequest(vector: Json, topK: int, includeMetadata: bool, filter: Option<Json>)

  /** The request `query` sends: a filter only when `filter_categories` is truthy, so `None` and `[]` both query unfiltered. */
  function QueryRequestFor(queryEmbedding: Json, topK: int, filterCategories: Json): (r: QueryRequest)
    ensures r.vector == queryEmbedding && r.topK == topK && r.includeMetadata
    ensures r.filter.Some? <==> Truthy(filterCategories)
    ensures r.filter.Some? ==>
      r.filter.value.JObj? && Lookup(r.filter.value.fields, "tags") == Some(JObj([("$in", filterCategories)]))
  {
    if Truthy(filterCategories) then QueryRequest(queryEmbedding, topK, true, Some(TagFilter(filterCategories)))
    else QueryRequest(queryEmbedding, topK, true, None)
  }

  lemma EmptyFilterUnfiltered(queryEmbedding: Json, topK: int)
    ensures QueryRequestFor(queryEmbedding, topK, JNull) == QueryRequestFor(queryEmbedding, topK, EmptyArray)
    ensures QueryRequestFor(queryEmbedding, topK, JNull).filter.None?
    ensures QueryRequestFor(queryEmbedding, DefaultTopK, JNull) == QueryRequest(queryEmbedding, 20, true, None)
  {
  }

  /** The service over its index. */
  class PineconeService {
    var index: map<Json, Record>

    constructor(existing: map<Json, Record>)
      ensures index == existing
    {
      index := existing;
    }

    /**
     * `upsert_chunks`: build the vectors, then write them all in one
     * upsert when there is at least one. True exactly when something was
     * written; a chunk that is not a dict raises before the index is
     * touched.
     */
    method UpsertChunks(filename: string, chunks: seq<Json>) returns (r: Option<bool>)
      modifies this
      ensures Vectors(filename, chunks, |chunks|).None? ==> r.None? && index == old(index)
      ensures Vectors(filename, chunks, |chunks|).Some? ==>
        var vs := Vectors(filename, chunks, |chunks|).value;
        r == Some(vs != []) && index == Upserted(old(index), vs)
    {
      var vectors: seq<Vector> := [];
      for i := 0 to |chunks|
        invariant Vectors(filename, chunks, i) == Some(vectors)
      {
        var chunk := chunks[i];
        if !chunk.JObj? {
          VectorsRaise(filename, chunks, |chunks|);
          return None;
        }
        var chunkId := Get(chunk, "chunk_id", JStr(DefaultChunkId(filename, i))).value;
        var chunkText := Get(chunk, "text", JStr("")).value;
        var chunkTags := Get(chunk, "tags", EmptyArray).value;
        var metadata := JObj([("filename", JStr(filename)), ("chunkText", chunkText),
                              ("chunkIndex", JNum(i as real)), ("chunkId", chunkId), ("tags", chunkTags)]);
        var embedding := Get(chunk, "embedding", JNull).value;
        if Truthy(embedding) {
          vectors := vectors + [Vector(chunkId, embedding, metadata)];
        }
      }
      if vectors != [] {
        index := Upserted(index, vectors);
        return Some(true);
      }
      return Some(false);
    }

    /** `query`: the backend's matches for the request built from the arguments. */
    method Query(search: (map<Json, Record>, QueryRequest) -> seq<Match>,
                 queryEmbedding: Json, topK: int, filterCategories: Json) returns (r: seq<Match>)
      ensures Truthy(filterCategories) ==>
        r == search(index, QueryRequest(queryEmbedding, topK, true, Some(JObj([("tags", JObj([("$in", filterCategories)]))]))))
      ensures !Truthy(filterCategories) ==> r == search(index, QueryRequest(queryEmbedding, topK, true, None))
    {
      r := search(index, QueryRequestFor(queryEmbedding, topK, filterCategories));
    }
  }
}
