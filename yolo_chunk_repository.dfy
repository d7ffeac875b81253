/** The yolo `ChunkRepository`: the same `chunks` table, searched with the
    `<=>` operator, which is cosine distance, and with the query literal as
    the first parameter of `findNearestChunks`. */
module YoloChunkRepository {
  import opened Wrappers
  import opened Ranking
  import opened Rows
  import RagChunkRepository

  /** One `Object[]` row of `findNearestChunksWithScore`: the chunk's columns
      and the extra `similarity` column. */
  datatype ScoredChunk = ScoredChunk(chunk: ChunkRow, similarity: real)

  /** `findByDocumentId`: a derived query without `ORDER BY`, so only the set
      of rows (with multiplicity) is promised, not their order. */
  function FindByDocumentId(table: seq<ChunkRow>, documentId: int): (r: seq<ChunkRow>)
    ensures multiset(r) == multiset(ChunksOfDocument(table, documentId))
  {
    Filter(table, OfDocument(documentId))
  }

  /** `findNearestChunks(embedding, documentIds, limit)`: the nearest rows of
      the given documents by cosine distance. */
  function FindNearestChunks(table: seq<ChunkRow>, cosine: Metric, embedding: string,
                             documentIds: seq<int>, limit: nat): (r: seq<ChunkRow>)
    ensures IsTopK(r, table, RagChunkRepository.InDocuments(documentIds), DistanceTo(cosine, embedding), limit)
  {
    var keep := RagChunkRepository.InDocuments(documentIds);
    TopKIsTopK(table, keep, DistanceTo(cosine, embedding), limit);
    TopK(table, keep, DistanceTo(cosine, embedding), limit)
  }

  /** `findNearestChunksWithScore`: the rows of `findNearestChunks`, in the
      same order, each with `1 - distance`; the scores never increase down
      the list. */
  function FindNearestChunksWithScore(table: seq<ChunkRow>, cosine: Metric, embedding: string,
                                      documentIds: seq<int>, limit: nat): (r: seq<ScoredChunk>)
    ensures var rows := FindNearestChunks(table, cosine, embedding, documentIds, limit);
      && |r| == |rows|
      && (forall i :: 0 <= i < |r| ==> r[i].chunk == rows[i])
      && (forall i :: 0 <= i < |r| ==> r[i].similarity + cosine(rows[i].embedding, embedding) == 1.0)
    ensures forall i, j :: 0 <= i < j < |r| ==> r[i].similarity >= r[j].similarity
  {
    var rows := FindNearestChunks(table, cosine, embedding, documentIds, limit);
    seq(|rows|, i requires 0 <= i < |rows| => ScoredChunk(rows[i], 1.0 - cosine(rows[i].embedding, embedding)))
  }

  /** The two repositories run the same query when given the same distance
      operator; only the order of the parameters differs. */
  lemma SameQueryAsRagApp(table: seq<ChunkRow>, metric: Metric, embedding: string,
                          documentIds: seq<int>, limit: nat)
    ensures FindNearestChunks(table, metric, embedding, documentIds, limit)
         == RagChunkRepository.FindNearestChunks(table, metric, documentIds, embedding, limit)
  {
  }

  /** A document's chunks come back by `findByDocumentId` and, ordered, by
      `findChunksByDocumentId`; `countByDocumentId` counts either. */
  lemma ListingsAgree(table: seq<ChunkRow>, documentId: int)
    ensures |FindByDocumentId(table, documentId)| == CountOfDocument(table, documentId)
    ensures SortBy(FindByDocumentId(table, documentId), ChunkIndexKey) == ChunksOfDocument(table, documentId)
  {
  }
}
