/** The two tables the Python and Java services share, seen as sequences of
    row values in stored order, and the by-document listing that
    `get_chunks_by_document` and both Java chunk repositories run over the
    `chunks` table. */
module Rows {
  import opened Wrappers
  import opened Floats
  import opened Ranking

  /** A row of `chunks`.  The `embedding` column is a pgvector value (NULL
      allowed); `page_start` and `page_end` may be NULL. */
  datatype ChunkRow = ChunkRow(
    id: int,
    documentId: int,
    chunkIndex: int,
    pageStart: Option<int>,
    pageEnd: Option<int>,
    content: string,
    embedding: Option<seq<Float32>>)

  /** A row of `documents`; `upload_timestamp` is a point in time, ordered. */
  datatype DocumentRow = DocumentRow(
    id: int,
    title: string,
    filePath: Option<string>,
    uploadTimestamp: int,
    totalChunks: int)

  /** A pgvector distance operator between a stored `embedding` and the query
      vector literal cast to `vector`; its values are not modelled. */
  type Metric = (Option<seq<Float32>>, string) -> real

  /** `ORDER BY c.embedding <op> CAST(:v AS vector)`: the sort key of a row. */
  function DistanceTo(metric: Metric, query: string): ChunkRow -> real {
    (c: ChunkRow) => metric(c.embedding, query)
  }

  /** `WHERE c.document_id = :documentId`. */
  function OfDocument(documentId: int): ChunkRow -> bool {
    (c: ChunkRow) => c.documentId == documentId
  }

  /** `ORDER BY chunk_index`. */
  function ChunkIndexKey(c: ChunkRow): real {
    c.chunkIndex as real
  }

  /** A document's chunks by ascending `chunk_index`: exactly the stored rows
      of that document, each as often as it is stored. */
  function ChunksOfDocument(table: seq<ChunkRow>, documentId: int): (r: seq<ChunkRow>)
    ensures multiset(r) == multiset(Filter(table, OfDocument(documentId)))
    ensures forall c :: c in r <==> c in table && c.documentId == documentId
    ensures SortedBy(r, ChunkIndexKey)
  {
    var mine := Filter(table, OfDocument(documentId));
    forall c
      ensures c in SortBy(mine, ChunkIndexKey) <==> c in table && c.documentId == documentId
    {
      FilterHas(table, OfDocument(documentId), c);
      assert c in SortBy(mine, ChunkIndexKey) <==> c in multiset(SortBy(mine, ChunkIndexKey));
    }
    SortBy(mine, ChunkIndexKey)
  }

  /** `countByDocumentId`: the length of that document's listing. */
  function CountOfDocument(table: seq<ChunkRow>, documentId: int): (n: nat)
    ensures n == |ChunksOfDocument(table, documentId)|
    ensures n <= |table|
  {
    |Filter(table, OfDocument(documentId))|
  }
}
