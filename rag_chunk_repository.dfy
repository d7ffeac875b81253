/** The rag.app `ChunkRepository`: native pgvector queries ordered by the
    `<->` operator, which is Euclidean (L2) distance.  Each query is
    specified by `IsTopK` (the rows a database may return for `WHERE … ORDER
    BY distance LIMIT n`), and computed by the reference `TopK`. */
module RagChunkRepository {
  import opened Wrappers
  import opened Ranking
  import opened Rows

  /** The query without a `WHERE` clause. */
  function AnyRow(c: ChunkRow): bool {
    true
  }

  /** `WHERE (c.embedding <-> CAST(:v AS vector)) < :threshold`. */
  function Within(l2: Metric, query: string, threshold: real): ChunkRow -> bool {
    (c: ChunkRow) => l2(c.embedding, query) < threshold
  }

  /** `WHERE c.document_id IN :documentIds`. */
  function InDocuments(documentIds: seq<int>): ChunkRow -> bool {
    (c: ChunkRow) => c.documentId in documentIds
  }

  /** `findByDocumentIdOrderByChunkIndexAsc`. */
  function FindByDocumentIdOrderByChunkIndexAsc(table: seq<ChunkRow>, documentId: int): (r: seq<ChunkRow>)
    ensures SortedBy(r, ChunkIndexKey)
    ensures forall c :: c in r <==> c in table && c.documentId == documentId
    ensures |r| == CountByDocumentId(table, documentId)
  {
    ChunksOfDocument(table, documentId)
  }

  /** `countByDocumentId`. */
  function CountByDocumentId(table: seq<ChunkRow>, documentId: int): (n: nat)
    ensures n == |ChunksOfDocument(table, documentId)|
  {
    CountOfDocument(table, documentId)
  }

  /** `findTopKSimilarChunks`: the `limit` rows nearest the query, over the
      whole table. */
  function FindTopKSimilarChunks(table: seq<ChunkRow>, l2: Metric, embeddingVector: string, limit: nat)
    : (r: seq<ChunkRow>)
    ensures IsTopK(r, table, AnyRow, DistanceTo(l2, embeddingVector), limit)
  {
    TopKIsTopK(table, AnyRow, DistanceTo(l2, embeddingVector), limit);
    TopK(table, AnyRow, DistanceTo(l2, embeddingVector), limit)
  }

  /** `findTopKSimilarChunksInDocument`: the same, within one document. */
  function FindTopKSimilarChunksInDocument(table: seq<ChunkRow>, l2: Metric, documentId: int,
                                           embeddingVector: string, limit: nat): (r: seq<ChunkRow>)
    ensures IsTopK(r, table, OfDocument(documentId), DistanceTo(l2, embeddingVector), limit)
  {
    TopKIsTopK(table, OfDocument(documentId), DistanceTo(l2, embeddingVector), limit);
    TopK(table, OfDocument(documentId), DistanceTo(l2, embeddingVector), limit)
  }

  /** `findSimilarChunksWithinThreshold`: the nearest rows among those
      strictly closer than `threshold`. */
  function FindSimilarChunksWithinThreshold(table: seq<ChunkRow>, l2: Metric, embeddingVector: string,
                                            threshold: real, limit: nat): (r: seq<ChunkRow>)
    ensures IsTopK(r, table, Within(l2, embeddingVector, threshold), DistanceTo(l2, embeddingVector), limit)
  {
    TopKIsTopK(table, Within(l2, embeddingVector, threshold), DistanceTo(l2, embeddingVector), limit);
    TopK(table, Within(l2, embeddingVector, threshold), DistanceTo(l2, embeddingVector), limit)
  }

  /** `findNearestChunks(documentIds, embeddingVector, limit)`: the nearest
      rows of the given documents. */
  function FindNearestChunks(table: seq<ChunkRow>, l2: Metric, documentIds: seq<int>,
                             embeddingVector: string, limit: nat): (r: seq<ChunkRow>)
    ensures IsTopK(r, table, InDocuments(documentIds), DistanceTo(l2, embeddingVector), limit)
  {
    TopKIsTopK(table, InDocuments(documentIds), DistanceTo(l2, embeddingVector), limit);
    TopK(table, InDocuments(documentIds), DistanceTo(l2, embeddingVector), limit)
  }

  /** Every row `findNearestChunks` returns is stored and belongs to one of
      the requested documents. */
  lemma NearestChunksRequested(table: seq<ChunkRow>, l2: Metric, documentIds: seq<int>,
                               embeddingVector: string, limit: nat, c: ChunkRow)
    requires c in FindNearestChunks(table, l2, documentIds, embeddingVector, limit)
    ensures c in table && c.documentId in documentIds
  {
    TopKMembers(FindNearestChunks(table, l2, documentIds, embeddingVector, limit), table,
                InDocuments(documentIds), DistanceTo(l2, embeddingVector), limit, c);
  }

  /** With a positive limit, a stored row of a requested document guarantees
      a non-empty answer whose first row is at least as near. */
  lemma NearestChunksFirst(table: seq<ChunkRow>, l2: Metric, documentIds: seq<int>,
                           embeddingVector: string, limit: nat, c: ChunkRow)
    requires limit > 0 && c in table && c.documentId in documentIds
    ensures var r := FindNearestChunks(table, l2, documentIds, embeddingVector, limit);
      r != [] && l2(r[0].embedding, embeddingVector) <= l2(c.embedding, embeddingVector)
  {
    NearestFirst(FindNearestChunks(table, l2, documentIds, embeddingVector, limit), table,
                 InDocuments(documentIds), DistanceTo(l2, embeddingVector), limit, c);
  }

  /** Every row `findSimilarChunksWithinThreshold` returns is strictly closer
      than the threshold. */
  lemma WithinThresholdStrict(table: seq<ChunkRow>, l2: Metric, embeddingVector: string,
                              threshold: real, limit: nat, c: ChunkRow)
    requires c in FindSimilarChunksWithinThreshold(table, l2, embeddingVector, threshold, limit)
    ensures c in table && l2(c.embedding, embeddingVector) < threshold
  {
    TopKMembers(FindSimilarChunksWithinThreshold(table, l2, embeddingVector, threshold, limit), table,
                Within(l2, embeddingVector, threshold), DistanceTo(l2, embeddingVector), limit, c);
  }

  /** A threshold above every stored distance removes nothing: the query is
      then `findTopKSimilarChunks`. */
  lemma ThresholdAboveAll(table: seq<ChunkRow>, l2: Metric, embeddingVector: string, threshold: real, limit: nat)
    requires forall i :: 0 <= i < |table| ==> l2(table[i].embedding, embeddingVector) < threshold
    ensures FindSimilarChunksWithinThreshold(table, l2, embeddingVector, threshold, limit)
         == FindTopKSimilarChunks(table, l2, embeddingVector, limit)
  {
    FilterAgree(table, Within(l2, embeddingVector, threshold), AnyRow);
  }

  /** Searching within one document is searching the one-element list of
      documents. */
  lemma InDocumentIsNearestOfOne(table: seq<ChunkRow>, l2: Metric, documentId: int,
                                 embeddingVector: string, limit: nat)
    ensures FindTopKSimilarChunksInDocument(table, l2, documentId, embeddingVector, limit)
         == FindNearestChunks(table, l2, [documentId], embeddingVector, limit)
  {
    FilterAgree(table, OfDocument(documentId), InDocuments([documentId]));
  }

  /** When every stored row belongs to the document, searching within it is
      searching the whole table. */
  lemma InDocumentOfOnlyDocument(table: seq<ChunkRow>, l2: Metric, documentId: int,
                                 embeddingVector: string, limit: nat)
    requires forall i :: 0 <= i < |table| ==> table[i].documentId == documentId
    ensures FindTopKSimilarChunksInDocument(table, l2, documentId, embeddingVector, limit)
         == FindTopKSimilarChunks(table, l2, embeddingVector, limit)
  {
    FilterAgree(table, OfDocument(documentId), AnyRow);
  }

  /** A limit of at least the table's size returns every stored row. */
  lemma TopKSimilarAllRows(table: seq<ChunkRow>, l2: Metric, embeddingVector: string, limit: nat)
    requires limit >= |table|
    ensures multiset(FindTopKSimilarChunks(table, l2, embeddingVector, limit)) == multiset(table)
  {
    FilterAll(table, AnyRow);
    AllWhenLimitLarge(FindTopKSimilarChunks(table, l2, embeddingVector, limit), table,
                      AnyRow, DistanceTo(l2, embeddingVector), limit);
  }
}
