/** `RAGEngine.store_embeddings`: one vector record per chunk with an id built
    from the job id, the chunk's source file and the chunk's position in the
    job-wide chunk list, then upserts in consecutive batches of 100.

    The embedding model and the vector index are outside the model: `embed`
    maps the list of chunk texts to vectors or to an error text, and `upsert`
    maps one batch to `None` (stored) or `Some(e)` (the index raised `e`). */
module Vectors {
  import opened Wrappers
  import opened Strings
  import opened Documents

  /** An embedding vector; its values are never inspected. */
  datatype Embedding = Embedding(values: seq<real>)

  datatype VectorMetadata = VectorMetadata(text: string, source: string, chunkId: nat, jobId: string)

  datatype VectorRecord = VectorRecord(id: string, values: Embedding, metadata: VectorMetadata)

  type Embedder = seq<string> -> Result<seq<Embedding>, string>
  type Upserter = seq<VectorRecord> -> Option<string>

  const BatchSize := 100

  /** `f"{job_id}_{source}_{idx}"`. */
  function VectorId(jobId: string, source: string, position: nat): string {
    jobId + "_" + source + "_" + NatToString(position)
  }

  /** The position an id encodes: the number after its last underscore. */
  function IdPosition(id: string): Option<nat> {
    var tail := AfterLast(id, '_');
    if tail != [] && AllDigits(tail) then Some(DigitsValue(tail)) else None
  }

  /** The id determines the position it was built from, whatever the job id
      and file name contain (underscores included). */
  lemma IdPositionOfVectorId(jobId: string, source: string, position: nat)
    ensures IdPosition(VectorId(jobId, source, position)) == Some(position)
  {
    var digits := NatToString(position);
    assert forall k :: 0 <= k < |digits| ==> digits[k] != '_';
    assert VectorId(jobId, source, position) == (jobId + "_" + source) + ['_'] + digits;
    AfterLastOfSuffix(jobId + "_" + source, '_', digits);
    DigitsValueOfNatToString(position);
  }

  /** Ids built for different positions differ, even across jobs and files. */
  lemma VectorIdsDiffer(jobA: string, sourceA: string, a: nat, jobB: string, sourceB: string, b: nat)
    requires a != b
    ensures VectorId(jobA, sourceA, a) != VectorId(jobB, sourceB, b)
  {
    IdPositionOfVectorId(jobA, sourceA, a);
    IdPositionOfVectorId(jobB, sourceB, b);
  }

  /** The loop over `enumerate(zip(chunks, embeddings))`; `zip` stops at the shorter list. */
  function BuildVectors(chunks: seq<Chunk>, embeddings: seq<Embedding>, jobId: string): (r: seq<VectorRecord>)
    ensures |r| == Min(|chunks|, |embeddings|)
    ensures forall i :: 0 <= i < |r| ==>
      && r[i].id == VectorId(jobId, chunks[i].meta.source, i)
      && r[i].values == embeddings[i]
      && r[i].metadata == VectorMetadata(chunks[i].text, chunks[i].meta.source, chunks[i].meta.chunkId, jobId)
  {
    var n := Min(|chunks|, |embeddings|);
    seq(n, i requires 0 <= i < n =>
      VectorRecord(
        VectorId(jobId, chunks[i].meta.source, i),
        embeddings[i],
        VectorMetadata(chunks[i].text, chunks[i].meta.source, chunks[i].meta.chunkId, jobId)))
  }

  /** Within one call the ids are pairwise distinct, and each decodes to its
      record's position. */
  lemma BuildVectorsIdsDistinct(chunks: seq<Chunk>, embeddings: seq<Embedding>, jobId: string)
    ensures var r := BuildVectors(chunks, embeddings, jobId);
      && (forall i :: 0 <= i < |r| ==> IdPosition(r[i].id) == Some(i))
      && (forall i, k :: 0 <= i < k < |r| ==> r[i].id != r[k].id)
  {
    var r := BuildVectors(chunks, embeddings, jobId);
    forall i | 0 <= i < |r|
      ensures IdPosition(r[i].id) == Some(i)
    {
      IdPositionOfVectorId(jobId, chunks[i].meta.source, i);
    }
  }

  // ----- batching -----

  /** `vectors[i:i + 100]` for `i` in `range(start, len(vectors), 100)`. */
  function BatchesFrom<T>(xs: seq<T>, start: nat): seq<seq<T>>
    decreases |xs| - start
  {
    if start >= |xs| then [] else [xs[start..Min(start + BatchSize, |xs|)]] + BatchesFrom(xs, start + BatchSize)
  }

  /** The upsert batches of `store_embeddings`. */
  function Batches<T>(xs: seq<T>): seq<seq<T>> {
    BatchesFrom(xs, 0)
  }

  function Flatten<T>(xss: seq<seq<T>>): seq<T>
    decreases |xss|
  {
    if xss == [] then [] else xss[0] + Flatten(xss[1..])
  }

  lemma {:induction false} BatchesFromProperties<T>(xs: seq<T>, start: nat)
    requires start <= |xs|
    ensures var bs := BatchesFrom(xs, start);
      && Flatten(bs) == xs[start..]
      && |bs| == (|xs| - start + BatchSize - 1) / BatchSize
      && (forall k :: 0 <= k < |bs| ==> 1 <= |bs[k]| <= BatchSize)
      && (forall k :: 0 <= k < |bs| ==>
            bs[k] == xs[start + k * BatchSize..Min(start + k * BatchSize + BatchSize, |xs|)])
    decreases |xs| - start
  {
    var bs := BatchesFrom(xs, start);
    if start < |xs| {
      var end := Min(start + BatchSize, |xs|);
      if end == |xs| {
        assert BatchesFrom(xs, start + BatchSize) == [];
        assert xs[start..end] == xs[start..];
        assert bs == [xs[start..]];
        assert Flatten(bs) == xs[start..] + Flatten(bs[1..]);
      } else {
        BatchesFromProperties(xs, end);
        var rest := BatchesFrom(xs, end);
        assert bs == [xs[start..end]] + rest;
        assert bs[1..] == rest;
        assert xs[start..] == xs[start..end] + xs[end..];
        forall k | 0 <= k < |bs|
          ensures bs[k] == xs[start + k * BatchSize..Min(start + k * BatchSize + BatchSize, |xs|)]
        {
          if k > 0 {
            assert bs[k] == rest[k - 1];
            assert end + (k - 1) * BatchSize == start + k * BatchSize;
          }
        }
      }
    }
  }

  /** Batches are consecutive slices of at most 100 items, none empty, that
      concatenate back to the whole list in order; there are `ceil(n / 100)` of them. */
  lemma BatchesProperties<T>(xs: seq<T>)
    ensures var bs := Batches(xs);
      && Flatten(bs) == xs
      && |bs| == (|xs| + BatchSize - 1) / BatchSize
      && (forall k :: 0 <= k < |bs| ==> 1 <= |bs[k]| <= BatchSize)
      && (forall k :: 0 <= k < |bs| ==>
            bs[k] == xs[k * BatchSize..Min(k * BatchSize + BatchSize, |xs|)])
  {
    BatchesFromProperties(xs, 0);
  }

  /** Upserts the batches in order and stops at the first one the index rejects. */
  function UpsertAll(batches: seq<seq<VectorRecord>>, upsert: Upserter): (r: Option<string>)
    ensures r.None? <==> forall k :: 0 <= k < |batches| ==> upsert(batches[k]).None?
    ensures r.Some? ==> exists k :: 0 <= k < |batches| && upsert(batches[k]) == r &&
                                  (forall j :: 0 <= j < k ==> upsert(batches[j]).None?)
    decreases |batches|
  {
    if batches == [] then None
    else match upsert(batches[0])
      case Some(e) => Some(e)
      case None =>
        var rest := UpsertAll(batches[1..], upsert);
        assert forall k :: 1 <= k < |batches| ==> batches[k] == batches[1..][k - 1];
        if rest.Some? then
          var k :| 0 <= k < |batches[1..]| && upsert(batches[1..][k]) == rest &&
                   (forall j :: 0 <= j < k ==> upsert(batches[1..][j]).None?);
          assert upsert(batches[k + 1]) == rest;
          assert forall j :: 0 <= j < k + 1 ==> upsert(batches[j]).None? by {
            forall j | 0 <= j < k + 1
              ensures upsert(batches[j]).None?
            {
              if j > 0 {
                assert batches[j] == batches[1..][j - 1];
              }
            }
          }
          rest
        else
          rest
  }

  const StoreErrorPrefix := "Error storing embeddings: "
  const EmbedErrorPrefix := "Error generating embeddings: "

  /** `store_embeddings`: `None` when every batch was stored, otherwise the
      text of the exception it raises. */
  function StoreEmbeddings(chunks: seq<Chunk>, jobId: string, embed: Embedder, upsert: Upserter): (r: Option<string>)
    ensures embed(Texts(chunks)).Failure? ==>
      r == Some(StoreErrorPrefix + EmbedErrorPrefix + embed(Texts(chunks)).error)
    ensures r.None? <==>
      && embed(Texts(chunks)).Success?
      && forall b :: b in Batches(BuildVectors(chunks, embed(Texts(chunks)).value, jobId)) ==> upsert(b).None?
    ensures embed(Texts(chunks)).Success? ==>
      var stored := UpsertAll(Batches(BuildVectors(chunks, embed(Texts(chunks)).value, jobId)), upsert);
      stored.Some? ==> r == Some(StoreErrorPrefix + stored.value)
  {
    match embed(Texts(chunks))
    case Failure(e) => Some(StoreErrorPrefix + EmbedErrorPrefix + e)
    case Success(embeddings) =>
      var batches := Batches(BuildVectors(chunks, embeddings, jobId));
      match UpsertAll(batches, upsert)
      case Some(e) => Some(StoreErrorPrefix + e)
      case None => None
  }
}
