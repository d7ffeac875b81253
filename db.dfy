/** The Python storage layer.  A `Database` holds the committed `documents`
    and `chunks` tables and the two id sequences; a `Session` holds the rows
    added since its last commit.  Which database call raises (a lost
    connection, a constraint violation) is not something the code decides,
    so it is a parameter, `Fault`. */
module Db {
  import opened Wrappers
  import opened Text
  import opened Floats
  import opened Ranking
  import opened Rows
  import PdfUtils

  const DEFAULT_DOCUMENT_LIMIT: nat := 100

  datatype DbError = ValueError(message: string) | DatabaseError

  /** The dictionary `ingest_document_with_chunks` returns. */
  datatype IngestResult = IngestResult(status: string, documentId: int, numChunks: int)

  /** The database call that raises during an ingestion, if any. */
  datatype Fault = NoFault | AtCreateDocument | AtCreateChunks | AtCommit

  /** The text of the `ValueError` raised by `create_chunks`. */
  function MismatchMessage(chunks: nat, embeddings: nat): string {
    "Number of chunks (" + DecimalString(chunks) + ") must match number of embeddings ("
      + DecimalString(embeddings) + ")"
  }

  /** The rows `create_chunks` adds, in chunk order. */
  function NewRows(firstId: int, documentId: int, chunks: seq<PdfUtils.ChunkDraft>,
                   embeddings: seq<seq<Float32>>): (rows: seq<ChunkRow>)
    requires |chunks| == |embeddings|
    ensures |rows| == |chunks|
    decreases |chunks|
  {
    if chunks == [] then []
    else
      var c := chunks[0];
      [ChunkRow(firstId, documentId, c.chunkIndex, Some(c.pageStart as int), Some(c.pageEnd as int), c.text, Some(embeddings[0]))]
        + NewRows(firstId + 1, documentId, chunks[1..], embeddings[1..])
  }

  /** Row `i` holds chunk `i`'s index, pages and text, embedding `i`, the
      given document id, and the `i`-th id drawn from the sequence. */
  lemma {:induction false} NewRowsFields(firstId: int, documentId: int, chunks: seq<PdfUtils.ChunkDraft>,
                                         embeddings: seq<seq<Float32>>)
    requires |chunks| == |embeddings|
    ensures var rows := NewRows(firstId, documentId, chunks, embeddings);
      forall i :: 0 <= i < |rows| ==> rows[i] == ChunkRow(firstId + i, documentId, chunks[i].chunkIndex,
        Some(chunks[i].pageStart as int), Some(chunks[i].pageEnd as int), chunks[i].text, Some(embeddings[i]))
    decreases |chunks|
  {
    if chunks != [] {
      NewRowsFields(firstId + 1, documentId, chunks[1..], embeddings[1..]);
    }
  }

  class Database {
    var documents: seq<DocumentRow>
    var chunks: seq<ChunkRow>
    var nextDocumentId: int
    var nextChunkId: int

    /** Every stored chunk refers to a document id already drawn. */
    ghost predicate Valid()
      reads this
    {
      forall i :: 0 <= i < |chunks| ==> chunks[i].documentId < nextDocumentId
    }

    constructor()
      ensures Valid() && documents == [] && chunks == []
    {
      documents := [];
      chunks := [];
      nextDocumentId := 1;
      nextChunkId := 1;
    }
  }

  /** A session of `SessionLocal` (no autocommit, no autoflush). */
  class Session {
    const database: Database
    var newDocuments: seq<DocumentRow>
    var newChunks: seq<ChunkRow>
    var open: bool

    /** `get_db`: a new session with nothing pending. */
    constructor(database: Database)
      ensures this.database == database && newDocuments == [] && newChunks == [] && open
    {
      this.database := database;
      newDocuments := [];
      newChunks := [];
      open := true;
    }

    /** `create_document`: adds the row, stamped `now`, and flushes it to
        obtain its id; the flush raises when `fails`. */
    method CreateDocument(title: string, filePath: Option<string>, totalChunks: int, now: int, fails: bool)
      returns (r: Result<DocumentRow, DbError>)
      modifies this`newDocuments, database`nextDocumentId
      ensures var doc := DocumentRow(old(database.nextDocumentId), title, filePath, now, totalChunks);
        && newDocuments == old(newDocuments) + [doc]
        && r == (if fails then Failure(DatabaseError) else Success(doc))
      ensures database.nextDocumentId == old(database.nextDocumentId) + 1
    {
      var doc := DocumentRow(database.nextDocumentId, title, filePath, now, totalChunks);
      newDocuments := newDocuments + [doc];
      database.nextDocumentId := database.nextDocumentId + 1;
      if fails {
        return Failure(DatabaseError);
      }
      return Success(doc);
    }

    /** `create_chunks`: refuses mismatched lengths before adding anything;
        otherwise adds one row per chunk, in order, and flushes; the flush
        raises when `fails`. */
    method CreateChunks(documentId: int, chunks: seq<PdfUtils.ChunkDraft>, embeddings: seq<seq<Float32>>, fails: bool)
      returns (r: Result<seq<ChunkRow>, DbError>)
      modifies this`newChunks, database`nextChunkId
      ensures |chunks| != |embeddings| ==>
        && r == Failure(ValueError(MismatchMessage(|chunks|, |embeddings|)))
        && newChunks == old(newChunks)
        && database.nextChunkId == old(database.nextChunkId)
      ensures |chunks| == |embeddings| ==>
        var rows := NewRows(old(database.nextChunkId), documentId, chunks, embeddings);
        && newChunks == old(newChunks) + rows
        && database.nextChunkId == old(database.nextChunkId) + |chunks|
        && r == (if fails then Failure(DatabaseError) else Success(rows))
    {
      if |chunks| != |embeddings| {
        return Failure(ValueError(MismatchMessage(|chunks|, |embeddings|)));
      }
      ghost var rows := NewRows(database.nextChunkId, documentId, chunks, embeddings);
      NewRowsFields(database.nextChunkId, documentId, chunks, embeddings);
      var created: seq<ChunkRow> := [];
      for i := 0 to |chunks|
        invariant database.nextChunkId == old(database.nextChunkId) + i
        invariant created == rows[..i]
        invariant newChunks == old(newChunks) + created
      {
        var c := chunks[i];
        var chunk := ChunkRow(database.nextChunkId, documentId, c.chunkIndex, Some(c.pageStart as int),
                              Some(c.pageEnd as int), c.text, Some(embeddings[i]));
        assert chunk == rows[i];
        newChunks := newChunks + [chunk];
        created := created + [chunk];
        database.nextChunkId := database.nextChunkId + 1;
      }
      assert created == rows;
      if fails {
        return Failure(DatabaseError);
      }
      return Success(created);
    }

    /** `commit`: the pending rows become part of the tables; when it
        raises, nothing is written. */
    method Commit(fails: bool) returns (r: Result<(), DbError>)
      modifies this`newDocuments, this`newChunks, database`documents, database`chunks
      ensures fails ==>
        && r == Failure(DatabaseError)
        && unchanged(this)
        && database.documents == old(database.documents)
        && database.chunks == old(database.chunks)
      ensures !fails ==>
        && r == Success(())
        && database.documents == old(database.documents) + old(newDocuments)
        && database.chunks == old(database.chunks) + old(newChunks)
        && newDocuments == [] && newChunks == []
    {
      if fails {
        return Failure(DatabaseError);
      }
      database.documents := database.documents + newDocuments;
      database.chunks := database.chunks + newChunks;
      newDocuments := [];
      newChunks := [];
      return Success(());
    }

    /** `rollback`: the pending rows are discarded; the sequences keep the
        ids they handed out. */
    method Rollback()
      modifies this`newDocuments, this`newChunks
      ensures newDocuments == [] && newChunks == []
    {
      newDocuments := [];
      newChunks := [];
    }

    /** `close`. */
    method Close()
      modifies this`open, this`newDocuments, this`newChunks
      ensures !open && newDocuments == [] && newChunks == []
    {
      open := false;
      newDocuments := [];
      newChunks := [];
    }
  }

  /** The `try` block of `ingest_document_with_chunks`: the document row,
      with `total_chunks` set to the number of chunks, then its chunks under
      its id, then one commit; the first step that raises ends it. */
  method IngestSteps(db: Session, title: string, chunks: seq<PdfUtils.ChunkDraft>,
                     embeddings: seq<seq<Float32>>, filePath: Option<string>, now: int, fault: Fault)
    returns (r: Result<IngestResult, DbError>)
    requires db.newDocuments == [] && db.newChunks == []
    modifies db, db.database
    ensures r.Success? <==> |chunks| == |embeddings| && fault == NoFault
    ensures r.Failure? ==>
      && db.database.documents == old(db.database.documents)
      && db.database.chunks == old(db.database.chunks)
      && r.error == (if fault != AtCreateDocument && |chunks| != |embeddings|
                     then ValueError(MismatchMessage(|chunks|, |embeddings|))
                     else DatabaseError)
    ensures r.Success? ==>
      var id := old(db.database.nextDocumentId);
      && r.value == IngestResult("success", id, |chunks|)
      && db.database.documents == old(db.database.documents) + [DocumentRow(id, title, filePath, now, |chunks|)]
      && db.database.chunks == old(db.database.chunks) + NewRows(old(db.database.nextChunkId), id, chunks, embeddings)
    ensures db.database.nextDocumentId == old(db.database.nextDocumentId) + 1
  {
    var doc := db.CreateDocument(title, filePath, |chunks|, now, fault == AtCreateDocument);
    if doc.Failure? {
      return Failure(doc.error);
    }
    var created := db.CreateChunks(doc.value.id, chunks, embeddings, fault == AtCreateChunks);
    if created.Failure? {
      return Failure(created.error);
    }
    var committed := db.Commit(fault == AtCommit);
    if committed.Failure? {
      return Failure(committed.error);
    }
    r := Success(IngestResult("success", doc.value.id, |chunks|));
  }

  /** `ingest_document_with_chunks`: all or nothing.  On success the
      document and all its chunks are committed and the document's listing
      is exactly its new chunks; on any exception the session is rolled back
      and the error raised again, leaving the tables as they were; the
      session is closed on every path. */
  method IngestDocumentWithChunks(database: Database, title: string, chunks: seq<PdfUtils.ChunkDraft>,
                                  embeddings: seq<seq<Float32>>, filePath: Option<string>, now: int, fault: Fault)
    returns (r: Result<IngestResult, DbError>, ghost session: Session)
    requires database.Valid()
    modifies database
    ensures database.Valid()
    ensures fresh(session) && session.database == database
    ensures !session.open && session.newDocuments == [] && session.newChunks == []
    ensures r.Success? <==> |chunks| == |embeddings| && fault == NoFault
    ensures r.Failure? ==>
      && database.documents == old(database.documents)
      && database.chunks == old(database.chunks)
      && r.error == (if fault != AtCreateDocument && |chunks| != |embeddings|
                     then ValueError(MismatchMessage(|chunks|, |embeddings|))
                     else DatabaseError)
    ensures r.Success? ==>
      var id := old(database.nextDocumentId);
      var rows := NewRows(old(database.nextChunkId), id, chunks, embeddings);
      && r.value == IngestResult("success", id, |chunks|)
      && database.documents == old(database.documents) + [DocumentRow(id, title, filePath, now, |chunks|)]
      && database.chunks == old(database.chunks) + rows
      && ChunksOfDocument(database.chunks, id) == SortBy(rows, ChunkIndexKey)
  {
    var db := new Session(database);
    session := db;
    r := IngestSteps(db, title, chunks, embeddings, filePath, now, fault);
    if r.Failure? {
      db.Rollback();
    } else {
      ghost var id := old(database.nextDocumentId);
      ghost var stored := old(database.chunks);
      ghost var rows := NewRows(old(database.nextChunkId), id, chunks, embeddings);
      assert forall i :: 0 <= i < |stored| ==> stored[i].documentId != id;
      NewRowsFields(old(database.nextChunkId), id, chunks, embeddings);
      ListingOfNewDocument(stored, rows, id);
    }
    db.Close();
  }

  /** When no stored chunk belongs to document `id` and every appended one
      does, the document's listing is the appended rows by chunk index. */
  lemma ListingOfNewDocument(stored: seq<ChunkRow>, rows: seq<ChunkRow>, id: int)
    requires forall i :: 0 <= i < |stored| ==> stored[i].documentId != id
    requires forall i :: 0 <= i < |rows| ==> rows[i].documentId == id
    ensures ChunksOfDocument(stored + rows, id) == SortBy(rows, ChunkIndexKey)
  {
    var keep := OfDocument(id);
    assert forall i :: 0 <= i < |stored| ==> !keep(stored[i]);
    assert forall i :: 0 <= i < |rows| ==> keep(rows[i]);
    FilterAppend(stored, rows, keep);
    FilterNone(stored, keep);
    FilterAll(rows, keep);
    assert Filter(stored + rows, keep) == rows;
  }

  /** The order in which `get_all_documents` lists documents: newest upload
      first. */
  function NewestFirst(d: DocumentRow): real {
    -(d.uploadTimestamp as real)
  }

  function AnyDocument(d: DocumentRow): bool {
    true
  }

  /** `get_all_documents(limit)`: at most `limit` documents, newest upload
      first, none left out that is newer than one returned. */
  function GetAllDocuments(table: seq<DocumentRow>, limit: nat): (r: seq<DocumentRow>)
    ensures IsTopK(r, table, AnyDocument, NewestFirst, limit)
    ensures forall i, j :: 0 <= i < j < |r| ==> r[i].uploadTimestamp >= r[j].uploadTimestamp
  {
    TopKIsTopK(table, AnyDocument, NewestFirst, limit);
    TopK(table, AnyDocument, NewestFirst, limit)
  }
}
