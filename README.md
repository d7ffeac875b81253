# A verified model of the yolo-rag-application retrieval pipeline

This Dafny project models the core of a retrieval-augmented question-answering
application. A Python service cuts PDF pages into chunks, embeds them and stores
documents and chunks in PostgreSQL with pgvector. A Spring service embeds a
question, fetches the nearest chunks, numbers them into a prompt, cites them
and asks a chat model for the answer.

The modules follow the source files:

- `PdfUtils` (`pdf_utils.dfy`) holds the two page chunkers, `chunk_text` and
  `chunk_text_smart`, as methods with the source's loops. Each is proved equal
  to a recursive specification, and the properties of the chunk records are
  proved about that specification: consecutive numbering, one page per chunk,
  stripped text, window coverage and the quirks of both loops. `PyStr`
  (`pystr.dfy`) and `Text` (`text.dfy`) give Python's `strip`, slicing and
  `split` the way the chunkers use them.
- `Embeddings` (`embeddings.dfy`) holds the lazily loaded model held in a module
  global (a class with a `model` field), `encode_chunks` and
  `verify_embedding_dimension`.
- `Db` (`db.dfy`) models the database as committed tables plus a session with
  pending rows. `create_chunks` is a loop over the session. The all-or-nothing
  ingestion runs with an explicit `Fault` parameter that names the call that
  raises. `Rows` (`rows.dfy`) holds the stored rows and the per-document
  listing that `get_chunks_by_document` and both repositories return.
- `Ranking` (`ranking.dfy`) specifies `WHERE … ORDER BY key LIMIT n` by the
  predicate `IsTopK`. Any answer a database may give satisfies it, ties
  included. A stable insertion sort followed by a prefix is the reference that
  satisfies it. `RagChunkRepository` and `YoloChunkRepository` state every
  native query as an instance of it. The distance operators `<->` (L2) and
  `<=>` (cosine) are abstract functions to `real`.
- `Floats`, `VectorLiteral`, `JavaStr`, `Entities`, `EmbeddingClient` and
  `VectorType` hold the `"[a,b,c]"` vector literal, in its three Java
  writers and two Java readers. `Float.toString` and `Float.parseFloat` are a
  codec given as a parameter; `ValidCodec` states what the proofs assume about
  it. `Chunk` and `Document` are classes whose methods update their fields in
  place.
- `QaService` (`qa_service.dfy`) is a class holding the embedding endpoint,
  the chunk search and the chat model as opaque functions, plus `topK`.
  `buildContext` and `buildCitations` are loops proved against the functions
  `Blocks` and `CitationOf`.

The comment at `ChunkRepository.java:31` in rag.app calls the ordering "cosine
similarity", but the query uses pgvector's `<->`, which is Euclidean distance.
The model follows the code and names that metric `l2`. Only the yolo repository
orders by cosine distance (`<=>`).

## Model

| member | source | states |
|---|---|---|
| PdfUtils.NextStart | python-service/pdf_utils.py:105-110 | the next window starts strictly after the current one exactly when `max_chars > 0` or `overlap < max_chars`, and otherwise at `end`, which is not ahead; at `end - overlap` when `0 <= overlap < max_chars`, never past `end` for a non-negative overlap |
| PdfUtils.Window | python-service/pdf_utils.py:91-92 | the slice `page[start:start+max_chars]` is at most `max_chars` long, exactly `min(max_chars, len - start)` long when `start` is inside the page, and empty when `max_chars == 0` |
| PdfUtils.NegativeWindow | python-service/pdf_utils.py:91-92 | a negative `max_chars` makes the end bound count from the end of the page: the window is `page[start:len+start+max_chars]` while `start + max_chars < 0` and `len + max_chars > 0`, and empty otherwise |
| PdfUtils.WindowText | python-service/pdf_utils.py:95-103 | a window adds at most one text, which is non-empty, stripped and no longer than `max_chars`; it adds none exactly when the window is blank |
| PdfUtils.WindowStarts | python-service/pdf_utils.py:90-91 | the loop runs at least once exactly when `start < len(page_text)`, and its first window starts at `start` |
| PdfUtils.WindowTexts | python-service/pdf_utils.py:91-106 | the windows add at most one text each, all non-empty, stripped and within `max_chars` |
| PdfUtils.WindowLoopTexts | python-service/pdf_utils.py:90-110 | the `while` loop adds, after what it already holds, the texts of the windows from `start` on, in order |
| PdfUtils.StartsBounds | python-service/pdf_utils.py:91 | every window start lies in `[start, len(page_text))` |
| PdfUtils.StartsStep | python-service/pdf_utils.py:105-110 | consecutive window starts differ by the `end - overlap` / `end` rule, and the loop stops exactly when the next start reaches the page length |
| PdfUtils.WindowsCover | python-service/pdf_utils.py:90-110 | with `max_chars > 0` and `overlap >= 0`, every character of the page lies in some window |
| PdfUtils.RedundantLastWindow | python-service/pdf_utils.py:91-106 | when a window already reaches the end of the page but starts less than `max_chars - overlap` before it, one more window opens, and its text is a suffix of the previous window's |
| PdfUtils.DefaultStarts | python-service/pdf_utils.py:90-110 | with the defaults 1500 and 200, a 2800-character page has windows at 0, 1300 and 2600 |
| PdfUtils.FixedChunkTexts | python-service/pdf_utils.py:92-103 | every text `chunk_text` emits is non-empty, stripped and at most `max_chars` long |
| PdfUtils.PageTextsFixed | python-service/pdf_utils.py:71-110 | one page's texts under `chunk_text` all have that shape |
| PdfUtils.ZeroWidthNoChunks | python-service/pdf_utils.py:89-110 | with `max_chars == 0` and a negative overlap every page leaves the window loop, and `chunk_text` emits no chunk at all |
| PdfUtils.Sentences | python-service/pdf_utils.py:157 | splitting the page on `'. '` after replacing line breaks gives at least one sentence |
| PdfUtils.Punctuate | python-service/pdf_utils.py:162-164 | a sentence is empty after stripping exactly when it was blank; otherwise it is stripped and ends in `.` |
| PdfUtils.PunctuateEmpty | python-service/pdf_utils.py:162-164 | an empty sentence stays empty and gets no full stop |
| PdfUtils.PunctuatePlain | python-service/pdf_utils.py:162-164 | a stripped sentence without a full stop gets one appended |
| PdfUtils.CarryOver | python-service/pdf_utils.py:179 | the carried text is a suffix of the finished chunk: all of it when `overlap == 0` (Python's `s[-0:]`), the last `min(overlap, len)` characters for a positive overlap, and Python's negative-slice length for a negative one |
| PdfUtils.Pack | python-service/pdf_utils.py:167-183 | one turn of the sentence loop saves at most one chunk |
| PdfUtils.Flush | python-service/pdf_utils.py:186-193 | the last chunk of a page is saved only when it is not blank, stripped |
| PdfUtils.SmartLoopStep | python-service/pdf_utils.py:160-183 | one turn of the sentence loop is the `Pack` step on the punctuated sentence |
| PdfUtils.SmartLoopStripped | python-service/pdf_utils.py:160-193 | every text the sentence loop saves is stripped |
| PdfUtils.LongSentenceKeptWhole | python-service/pdf_utils.py:167-183 | a one-sentence page longer than `max_chars` becomes a single chunk longer than `max_chars`: no size limit applies to a lone sentence |
| PdfUtils.EmptyChunkSaved | python-service/pdf_utils.py:167-180 | the save at line 169-174 has no blank check, so sentences `a`, ``, ``, `z` with limit `len(a)+2` and overlap 1 save the empty string as a chunk |
| PdfUtils.EmptyChunkHead | python-service/pdf_utils.py:160-183 | the first two turns of that example build `a.` followed by a space |
| PdfUtils.EmptyChunkTail | python-service/pdf_utils.py:167-193 | the last turns and the flush of that example save `x`, then ``, then `z.` |
| PdfUtils.PackSavesBlank | python-service/pdf_utils.py:167-180 | with overlap 1, a chunk `x + " "` that cannot take an empty sentence is saved as `x`; the new chunk is the carried space, the joining space and the empty sentence |
| PdfUtils.PackSavesEmpty | python-service/pdf_utils.py:167-180 | a chunk of two spaces is saved as the empty string |
| PdfUtils.PackFlush | python-service/pdf_utils.py:186-193 | a padded last chunk is saved stripped |
| PdfUtils.PackWhole | python-service/pdf_utils.py:179-180 | with `overlap == 0`, a chunk that does not fit is saved and then carried over whole |
| PdfUtils.ZeroOverlapRepeats | python-service/pdf_utils.py:179-180 | with `overlap == 0` the second chunk repeats the whole first chunk before the next sentence |
| PdfUtils.PageTexts | python-service/pdf_utils.py:71-87 | a blank page gives no text; a non-blank page of at most `max_chars` characters (unstripped) gives exactly its stripped text |
| PdfUtils.Emit | python-service/pdf_utils.py:79-84 | one record per text |
| PdfUtils.EmitIndex | python-service/pdf_utils.py:97-103 | record `i` holds text `i`, the page number for both page fields, and index `first + i` |
| PdfUtils.AppendChunk | python-service/pdf_utils.py:95-102 | `chunks.append` with the index advanced: the record for the text goes last, with the next index, and the records still match the texts one for one |
| PdfUtils.PageTextLists | python-service/pdf_utils.py:71 | one list of texts per input page, blank pages included |
| PdfUtils.NextPage | python-service/pdf_utils.py:71-110 | one more page extends the records by that page's own records, numbered on from the count so far |
| PdfUtils.LayoutAppend | python-service/pdf_utils.py:68-103 | appending one page's records keeps the numbering and keeps every text traceable to its page |
| PdfUtils.LayoutShape | python-service/pdf_utils.py:68-103 | records are numbered 0, 1, 2, … in order, each lies on one page (`page_start == page_end`, the page's index in the input), pages never decrease, and each text is one of its page's texts |
| PdfUtils.ChunkText | python-service/pdf_utils.py:46-113 | `chunk_text` returns exactly the fixed-window specification `ChunkPages(Fixed, …)` when every page leaves its window loop; it returns `WindowLoopStuck(p)` exactly when some page never would (a non-blank page longer than `max_chars` while `start` cannot advance), naming the first such page, where the source never returns |
| PdfUtils.ChunkPageFixed | python-service/pdf_utils.py:71-110 | the page-loop body emits that page's fixed-window records, numbered from the running index, and reports the page as stuck exactly when its window loop cannot end |
| PdfUtils.WindowChunks | python-service/pdf_utils.py:89-110 | the `while` loop over one long page emits the records of the recursive window loop `WindowLoop`, numbered from the running index |
| PdfUtils.WindowStep | python-service/pdf_utils.py:90-110 | one turn moves `start` strictly forward and keeps the loop's outcome: the window's stripped text, unless blank, becomes the next record |
| PdfUtils.ChunkTextSmart | python-service/pdf_utils.py:116-196 | `chunk_text_smart` returns exactly the sentence-packing specification `ChunkPages(Smart, …)` |
| PdfUtils.ChunkPageSmart | python-service/pdf_utils.py:140-193 | the page-loop body emits that page's records, numbered from the running index |
| PdfUtils.SentenceChunks | python-service/pdf_utils.py:156-193 | the sentence loop and the final flush emit the records of `SmartTexts` |
| PdfUtils.PackSentence | python-service/pdf_utils.py:167-183 | one turn of the sentence loop is the `Pack` step, and the records still match the saved texts |
| PdfUtils.ExtractAndChunkPdf | python-service/pdf_utils.py:199-222 | the page list goes to the smart chunker when `use_smart_chunking`, otherwise to the fixed one; it fails only where the fixed chunker would never return |
| PyStr.LStrip | python-service/pdf_utils.py:73 | `lstrip()` leaves a string that is empty or starts with a non-whitespace character |
| PyStr.RStrip | python-service/pdf_utils.py:73 | `rstrip()` leaves a string that is empty or ends with a non-whitespace character |
| PyStr.Strip | python-service/pdf_utils.py:73 | `strip()` leaves a string with no whitespace at either end |
| PyStr.StripSlice | python-service/pdf_utils.py:80 | `strip()` keeps a contiguous slice and removes only whitespace around it |
| PyStr.StripEmpty | python-service/pdf_utils.py:73 | `not page_text.strip()` holds exactly when every character is whitespace |
| PyStr.StripStripped | python-service/pdf_utils.py:170 | stripping twice is stripping once |
| PyStr.StripPadded | python-service/pdf_utils.py:170 | a stripped string padded with whitespace strips back to itself |
| PyStr.SliceFrom | python-service/pdf_utils.py:179 | Python's `s[i:]` for any integer `i`, with `s[-0:]` the whole string |
| PyStr.SliceIndex | python-service/pdf_utils.py:92 | a slice bound as Python resolves it: kept when inside the string, counted from the end when negative, clamped to `[0, len]` |
| PyStr.Slice | python-service/pdf_utils.py:92 | Python's `s[i:j]` for any integers: the plain slice when `0 <= i <= j <= len`, empty exactly when the resolved end is not after the resolved start, otherwise the part of `s` between them |
| PyStr.SliceFromIsSlice | python-service/pdf_utils.py:179 | `s[i:]` is `s[i:len(s)]` |
| Text.ReplaceChar | python-service/pdf_utils.py:157 | `replace('\n', ' ')` keeps the length and changes exactly the line breaks |
| Text.SplitOn | python-service/pdf_utils.py:157 | `split('. ')` gives at least one piece |
| Text.JoinSplit | python-service/pdf_utils.py:157 | joining the pieces of `split(sep)` with `sep` gives the string back |
| Text.SplitOnFirst | python-service/pdf_utils.py:157 | the first piece of `split(sep)` is a prefix of the string |
| Text.FreeCons | python-service/pdf_utils.py:157 | a character put before a separator-free piece keeps it separator-free unless the separator then starts it |
| Text.SplitOnPieces | python-service/pdf_utils.py:157 | `split(sep)` cuts at every occurrence: no piece contains `sep` |
| Text.RemoveAll | java-service/src/main/java/com/rag/app/model/Chunk.java:90 | deleting `[`, `]` and spaces leaves none of them and never lengthens the string |
| Embeddings.Texts | python-service/embeddings.py:91 | the texts of the chunks, one per chunk, in list order |
| Embeddings.EmbeddingService.constructor | python-service/embeddings.py:15 | the module starts with no model loaded |
| Embeddings.EmbeddingService.GetEmbeddingModel | python-service/embeddings.py:18-33 | the first call constructs the named model; every later call returns the same cached instance; the model is constructed at most once |
| Embeddings.EmbeddingService.GenerateEmbeddingsBatch | python-service/embeddings.py:51-73 | the result is the cached model's encoding of `texts` |
| Embeddings.EmbeddingService.EncodeChunks | python-service/embeddings.py:76-96 | an empty list gives the empty 1-D array without loading the model; otherwise the chunks' texts are encoded in list order |
| Embeddings.VerifyEmbeddingDimension | python-service/embeddings.py:99-120 | true exactly when a 1-D array has 384 values or a 2-D array has rows of width 384; a 0-d array raises `IndexError` |
| Db.MismatchMessage | python-service/db.py:205-208 | the `ValueError` text, with both lengths in decimal; `Db.Session.CreateChunks` proves it is raised exactly on a length mismatch |
| Db.NewRows | python-service/db.py:212-225 | one row per chunk |
| Db.NewRowsFields | python-service/db.py:212-225 | row `i` has the next id, the document id, chunk `i`'s index, pages and text, and embedding `i` |
| Db.Session.constructor | python-service/db.py:71-89 | a new session has nothing pending and is open |
| Db.Session.CreateDocument | python-service/db.py:125-152 | the document row is added with the next id and `total_chunks`; the flush may raise |
| Db.Session.CreateChunks | python-service/db.py:187-229 | mismatched lengths raise `ValueError` with the source's message before anything is added; otherwise the rows of `NewRows` are added in order and returned |
| Db.Session.Commit | python-service/db.py:317 | pending rows are appended to the tables; a failing commit writes nothing |
| Db.Session.Rollback | python-service/db.py:328 | pending rows are discarded and the tables are unchanged |
| Db.Session.Close | python-service/db.py:333 | the session is closed with nothing pending |
| Db.IngestSteps | python-service/db.py:299-325 | the document, with `total_chunks = len(chunks)`, is created before its chunks under its id, then one commit; success exactly when the lengths match and no call raises |
| Db.IngestDocumentWithChunks | python-service/db.py:279-333 | all or nothing: success appends the document and exactly its chunks and returns `success`, the id and `len(chunks)`; any error leaves both tables as they were and is raised again; the session is closed on every path; the new document's listing is its chunks by `chunk_index` |
| Db.ListingOfNewDocument | python-service/db.py:243 | a document id that no stored chunk has lists exactly the rows appended under it, ordered by `chunk_index` |
| Db.GetAllDocuments | python-service/db.py:169-180 | at most `limit` documents, newest upload first, any admissible tie order |
| Rows.ChunksOfDocument | python-service/db.py:232-243 | the rows of one document, all of them and no others, ordered by `chunk_index`; the yolo repository's `findChunksByDocumentId` (`ChunkRepository.java:60-61`) returns the same listing |
| Rows.CountOfDocument | java-service/src/main/java/com/yolo/rag/repository/ChunkRepository.java:66 | the count is the length of the document's listing, at most the table size |
| Ranking.Filter | java-service/src/main/java/com/rag/app/repository/ChunkRepository.java:106 | `WHERE` returns only matching rows, never more than are stored |
| Ranking.FilterHas | java-service/src/main/java/com/rag/app/repository/ChunkRepository.java:106 | a row is in the filtered table exactly when it is stored and matches |
| Ranking.FilterCount | java-service/src/main/java/com/rag/app/repository/ChunkRepository.java:106 | a matching row keeps its multiplicity; any other row drops out |
| Ranking.SortBy | java-service/src/main/java/com/rag/app/repository/ChunkRepository.java:107 | `ORDER BY` is a permutation sorted by the key |
| Ranking.TopKIsTopK | java-service/src/main/java/com/rag/app/repository/ChunkRepository.java:103-109 | sorting the matching rows and taking `min(limit, #matching)` is an admissible answer of the query |
| Ranking.TopKMembers | java-service/src/main/java/com/rag/app/repository/ChunkRepository.java:106 | every row of an admissible answer is stored and matches |
| Ranking.NearestFirst | java-service/src/main/java/com/rag/app/repository/ChunkRepository.java:107-108 | with a positive limit the first row is at least as near as every matching row |
| Ranking.AllWhenLimitLarge | java-service/src/main/java/com/rag/app/repository/ChunkRepository.java:108 | a limit of at least the number of matching rows returns all of them |
| RagChunkRepository.FindByDocumentIdOrderByChunkIndexAsc | java-service/src/main/java/com/rag/app/repository/ChunkRepository.java:21 | exactly the document's rows, by ascending `chunk_index`, as many as `countByDocumentId` |
| RagChunkRepository.CountByDocumentId | java-service/src/main/java/com/rag/app/repository/ChunkRepository.java:26 | the length of the document's listing |
| RagChunkRepository.FindTopKSimilarChunks | java-service/src/main/java/com/rag/app/repository/ChunkRepository.java:38-47 | an admissible top-`limit` of all rows by L2 distance |
| RagChunkRepository.FindTopKSimilarChunksInDocument | java-service/src/main/java/com/rag/app/repository/ChunkRepository.java:57-68 | the same within one document |
| RagChunkRepository.FindSimilarChunksWithinThreshold | java-service/src/main/java/com/rag/app/repository/ChunkRepository.java:79-90 | the same among rows strictly closer than `threshold` |
| RagChunkRepository.FindNearestChunks | java-service/src/main/java/com/rag/app/repository/ChunkRepository.java:103-114 | an admissible top-`limit` by L2 distance of the rows whose document is listed |
| RagChunkRepository.NearestChunksRequested | java-service/src/main/java/com/rag/app/repository/ChunkRepository.java:103-110 | every returned row is stored and belongs to a requested document |
| RagChunkRepository.NearestChunksFirst | java-service/src/main/java/com/rag/app/repository/ChunkRepository.java:107-108 | with a positive limit and a matching row, the answer is non-empty and its first row is at least as near |
| RagChunkRepository.WithinThresholdStrict | java-service/src/main/java/com/rag/app/repository/ChunkRepository.java:82 | every returned row is strictly closer than the threshold |
| RagChunkRepository.ThresholdAboveAll | java-service/src/main/java/com/rag/app/repository/ChunkRepository.java:79-90 | a threshold above every stored distance gives `findTopKSimilarChunks` |
| RagChunkRepository.InDocumentIsNearestOfOne | java-service/src/main/java/com/rag/app/repository/ChunkRepository.java:57-68 | searching one document is `findNearestChunks` on a one-element list |
| RagChunkRepository.InDocumentOfOnlyDocument | java-service/src/main/java/com/rag/app/repository/ChunkRepository.java:57-68 | when every row belongs to the document, the search is the whole-table one |
| RagChunkRepository.TopKSimilarAllRows | java-service/src/main/java/com/rag/app/repository/ChunkRepository.java:38-47 | a limit of at least the table size returns every row |
| YoloChunkRepository.FindByDocumentId | java-service/src/main/java/com/yolo/rag/repository/ChunkRepository.java:14 | the document's rows, as a multiset; no order is promised |
| YoloChunkRepository.ListingsAgree | java-service/src/main/java/com/yolo/rag/repository/ChunkRepository.java:14-16 | the unordered listing has the count's length and sorts into the ordered one |
| YoloChunkRepository.FindNearestChunks | java-service/src/main/java/com/yolo/rag/repository/ChunkRepository.java:27-37 | an admissible top-`limit` by cosine distance of the rows whose document is listed |
| YoloChunkRepository.FindNearestChunksWithScore | java-service/src/main/java/com/yolo/rag/repository/ChunkRepository.java:43-55 | the same rows in the same order, each with `similarity = 1 - distance`, so similarities never increase |
| YoloChunkRepository.SameQueryAsRagApp | java-service/src/main/java/com/yolo/rag/repository/ChunkRepository.java:33-37 | with the same operator, the two repositories' queries agree; only the parameter order differs |
| Floats.FloatToIntBits | java-service/src/main/java/com/rag/app/model/VectorType.java:24 | `floatToIntBits` keeps every non-NaN bit pattern and maps NaNs to NaN |
| Floats.FloatToIntBitsIdempotent | java-service/src/main/java/com/rag/app/model/VectorType.java:24 | canonicalising NaNs twice is canonicalising them once |
| VectorLiteral.Shows | java-service/src/main/java/com/rag/app/client/EmbeddingClient.java:121 | one element text per element |
| VectorLiteral.Format | java-service/src/main/java/com/rag/app/client/EmbeddingClient.java:115-125 | the literal starts with `[` and ends with `]` |
| VectorLiteral.FormatStep | java-service/src/main/java/com/rag/app/client/EmbeddingClient.java:117-122 | one loop turn appends a comma (after the first element) and the element's text |
| VectorLiteral.FormatEmpty | java-service/src/main/java/com/rag/app/client/EmbeddingClient.java:115-125 | an empty array is written `[]` |
| VectorLiteral.FormatCommas | java-service/src/main/java/com/rag/app/client/EmbeddingClient.java:117-123 | `n >= 1` elements give exactly `n - 1` commas |
| VectorLiteral.FormatPieces | java-service/src/main/java/com/rag/app/client/EmbeddingClient.java:117-123 | splitting the comma-joined element texts on `,` gives them back in array order |
| VectorLiteral.ParseAll | java-service/src/main/java/com/rag/app/model/Chunk.java:93-95 | parsing succeeds exactly when every piece parses, giving one float per piece in order |
| VectorLiteral.ParseShows | java-service/src/main/java/com/rag/app/model/Chunk.java:93-95 | parsing the written element texts gives the elements back, NaN payloads made canonical |
| VectorLiteral.ParseEmptyPiece | java-service/src/main/java/com/rag/app/model/Chunk.java:90-95 | the one empty piece left by `[]` does not parse |
| JavaStr.Trim | java-service/src/main/java/com/rag/app/model/VectorType.java:43 | `trim()` is no longer than its input, and is empty or starts and ends with a character above U+0020 |
| JavaStr.TrimIsSlice | java-service/src/main/java/com/rag/app/model/VectorType.java:43 | `trim()` is a slice `s[i..j]` outside which every character is at most U+0020: it removes such characters from both ends and nothing else |
| JavaStr.TrimNothing | java-service/src/main/java/com/rag/app/model/VectorType.java:43 | a string with no such character is left alone |
| JavaStr.DropTrailingEmpty | java-service/src/main/java/com/rag/app/model/Chunk.java:91 | Java's `split` drops the trailing empty pieces and nothing else |
| JavaStr.Split | java-service/src/main/java/com/rag/app/model/Chunk.java:91 | a string without the separator splits into itself; otherwise the result has no trailing empty piece |
| JavaStr.SplitJoinJava | java-service/src/main/java/com/rag/app/model/Chunk.java:91 | joining comma-free pieces with `,` and splitting gives them back when the last one is non-empty |
| JavaStr.SplitEmpty | java-service/src/main/java/com/rag/app/model/Chunk.java:91 | `"".split(",")` is one empty piece |
| JavaStr.SplitOnlySeparators | java-service/src/main/java/com/rag/app/model/Chunk.java:91 | a string of separators only splits into no pieces |
| Entities.EmbeddingText | java-service/src/main/java/com/rag/app/model/Chunk.java:67-80 | null exactly for a null or zero-length array |
| Entities.EmbeddingOf | java-service/src/main/java/com/rag/app/model/Chunk.java:85-97 | null exactly for a null or empty string |
| Entities.EmbeddingRoundTrip | java-service/src/main/java/com/rag/app/model/Chunk.java:67-97 | `stringToEmbedding(embeddingToString(e))` gives the elements of a non-empty `e` back in order |
| Entities.FormatCleaned | java-service/src/main/java/com/rag/app/model/Chunk.java:90 | deleting brackets and spaces from a literal leaves the element texts joined by `,` |
| Entities.EmptyBracketsFail | java-service/src/main/java/com/rag/app/model/Chunk.java:90-95 | `"[]"` raises `NumberFormatException` rather than decoding to an empty array |
| Entities.EmbeddingToString | java-service/src/main/java/com/rag/app/model/Chunk.java:67-80 | the loop builds the literal of `EmbeddingText` |
| Entities.StringToEmbedding | java-service/src/main/java/com/rag/app/model/Chunk.java:85-97 | the loop fills an array whose contents are those of `EmbeddingOf` |
| Entities.Chunk.constructor | java-service/src/main/java/com/rag/app/model/Chunk.java:20-51 | the builder with text, pages and index set leaves id, document, embedding and creation time null |
| Entities.Chunk.OnCreate | java-service/src/main/java/com/rag/app/model/Chunk.java:57-62 | `createdAt` is set only when it was null |
| Entities.Chunk.GetEmbeddingArray | java-service/src/main/java/com/rag/app/model/Chunk.java:102-104 | the stored literal, parsed |
| Entities.Chunk.SetEmbeddingArray | java-service/src/main/java/com/rag/app/model/Chunk.java:109-111 | stores the literal of the array, or null for a null or empty one; a non-empty array reads back equal |
| Entities.Document.constructor | java-service/src/main/java/com/rag/app/model/Document.java:38-40 | a new document has an empty chunk list |
| Entities.Document.OnCreate | java-service/src/main/java/com/rag/app/model/Document.java:45-50 | `createdAt` is set only when it was null |
| Entities.Document.AddChunk | java-service/src/main/java/com/rag/app/model/Document.java:55-58 | the chunk is appended at the end and points back at the document |
| Entities.Document.RemoveChunk | java-service/src/main/java/com/rag/app/model/Document.java:63-66 | the first occurrence is removed, and the chunk's document is cleared whether or not it was listed |
| Entities.RemoveFirst | java-service/src/main/java/com/rag/app/model/Document.java:64 | `List.remove` takes out one occurrence |
| Entities.RemoveFirstAt | java-service/src/main/java/com/rag/app/model/Document.java:64 | it cuts out exactly the first occurrence, the rest in order |
| Entities.RemoveAbsent | java-service/src/main/java/com/rag/app/model/Document.java:64 | removing an unlisted chunk changes nothing |
| Entities.AddThenRemove | java-service/src/main/java/com/rag/app/model/Document.java:55-66 | adding an unlisted chunk and removing it restores the list |
| EmbeddingClient.ToFloatArray | java-service/src/main/java/com/rag/app/client/EmbeddingClient.java:59-64 | a fresh array of the vector's length, element `i` the narrowed element `i` |
| EmbeddingClient.EmbedSingle | java-service/src/main/java/com/rag/app/client/EmbeddingClient.java:42-67 | sends `[text]`; raises exactly when the response, its vectors or their list is missing or empty; otherwise converts the first vector only |
| EmbeddingClient.EmbedBatch | java-service/src/main/java/com/rag/app/client/EmbeddingClient.java:76-107 | sends `texts` unchanged; raises only for a missing response or vectors; converts every vector in order without checking their number |
| EmbeddingClient.ToPgVectorFormat | java-service/src/main/java/com/rag/app/client/EmbeddingClient.java:115-125 | the loop builds the literal `Format`; an empty array gives `[]` |
| VectorType.Equals | java-service/src/main/java/com/rag/app/model/VectorType.java:23-25 | `Arrays.equals`: reflexive, and true only when both arrays or neither are null; `EqualsCanon` shows it is equality of the `floatToIntBits` contents |
| VectorType.HashBits | java-service/src/main/java/com/rag/app/model/VectorType.java:28-30 | the `31 * h + bits` fold of `Arrays.hashCode` in 32-bit wrap-around arithmetic, starting from 1; `EqualsHashCode` proves it agrees with `Equals` |
| VectorType.HashCode | java-service/src/main/java/com/rag/app/model/VectorType.java:28-30 | `Arrays.hashCode` of a possibly null array (0 for null); equal arrays get equal codes (`EqualsHashCode`) |
| VectorType.Bound | java-service/src/main/java/com/rag/app/model/VectorType.java:51-66 | the statement parameter `nullSafeSet` binds: NULL of type `Types.OTHER` (1111), or a `vector` object holding the literal; `WriteThenRead` proves the literal reads back equal |
| VectorType.EqualsHashCode | java-service/src/main/java/com/rag/app/model/VectorType.java:23-30 | arrays equal by `Arrays.equals` have equal `Arrays.hashCode` |
| VectorType.EqualsCanon | java-service/src/main/java/com/rag/app/model/VectorType.java:24 | `Arrays.equals` is equality of the `floatToIntBits` contents |
| VectorType.ColumnValue | java-service/src/main/java/com/rag/app/model/VectorType.java:35-44 | SQL NULL reads as null; otherwise the pieces are trimmed and parsed in order |
| VectorType.WriteThenRead | java-service/src/main/java/com/rag/app/model/VectorType.java:40-60 | a non-empty array written by `nullSafeSet` reads back equal by `Arrays.equals` |
| VectorType.WrittenPieces | java-service/src/main/java/com/rag/app/model/VectorType.java:40 | with its brackets deleted, a written literal splits into the element texts |
| VectorType.EmptyArrayNotReadBack | java-service/src/main/java/com/rag/app/model/VectorType.java:40-66 | an empty array is written as `[]`, which `nullSafeGet` cannot parse |
| VectorType.NullSafeGet | java-service/src/main/java/com/rag/app/model/VectorType.java:33-46 | the loop fills an array whose contents are `ColumnValue` |
| VectorType.NullSafeSet | java-service/src/main/java/com/rag/app/model/VectorType.java:49-68 | binds NULL for a null array, otherwise a `vector` object holding the literal |
| VectorType.DeepCopy | java-service/src/main/java/com/rag/app/model/VectorType.java:71-73 | null stays null; otherwise a fresh array with the same contents |
| VectorType.Disassemble | java-service/src/main/java/com/rag/app/model/VectorType.java:81-83 | a deep copy |
| VectorType.Assemble | java-service/src/main/java/com/rag/app/model/VectorType.java:86-88 | a deep copy |
| Text.NatString | java-service/src/main/java/com/rag/app/service/QaService.java:112-116 | `%d` of a natural number: non-empty decimal digits with no leading zero |
| Text.DecimalString | java-service/src/main/java/com/rag/app/service/QaService.java:112-116 | `%d` of an integer starts with `-` exactly for a negative one |
| Text.NatStringValue | java-service/src/main/java/com/rag/app/service/QaService.java:112-116 | the digits written for `n` read back as `n` |
| QaService.TitleOf | java-service/src/main/java/com/rag/app/service/QaService.java:109-110 | the document's title, or `Unknown Document` for a chunk without one, as both `buildContext` and `buildCitations` (lines 131-132) choose it |
| QaService.SourceHeader | java-service/src/main/java/com/rag/app/service/QaService.java:112-116 | the `--- Source %d: %s (Pages %d-%d) ---` line; `ContextBlockAt` proves block `k` starts with it, holding citation `k`'s title and pages |
| QaService.CitationOf | java-service/src/main/java/com/rag/app/service/QaService.java:134-139 | the citation built for a chunk: its id, `TitleOf` and pages; `BuildCitations` proves citation `k` is that of chunk `k` |
| QaService.UserPrompt | java-service/src/main/java/com/rag/app/service/QaService.java:149-156 | the user message; `ContextBeforeQuestion` proves the context sits right after `Context:` and the question follows it |
| QaService.ReplyText | java-service/src/main/java/com/rag/app/service/QaService.java:168 | the reply, or `Unable to generate an answer.` for a null one; `CallLlm` and `AnswerQuestion` prove it is the answer returned |
| QaService.Blocks | java-service/src/main/java/com/rag/app/service/QaService.java:107-119 | one source block per chunk |
| QaService.BlockAt | java-service/src/main/java/com/rag/app/service/QaService.java:112-118 | block `k` is source `k + 1`: its header, the chunk's text, a blank line |
| QaService.BlocksSnoc | java-service/src/main/java/com/rag/app/service/QaService.java:107-119 | one more chunk appends its block after the earlier ones |
| QaService.ContextBlockAt | java-service/src/main/java/com/rag/app/service/QaService.java:85-89 | block `k` sits in the context after blocks `0..k-1`, and its header carries the title and pages of citation `k` |
| QaService.ContextBeforeQuestion | java-service/src/main/java/com/rag/app/service/QaService.java:149-156 | in the user message the context comes right after `Context:` and the question follows it |
| QaService.QaService.constructor | java-service/src/main/java/com/rag/app/service/QaService.java:42-51 | the service keeps its collaborators and `topK`, and its system prompt is `SYSTEM_PROMPT` |
| QaService.QaService.BuildContext | java-service/src/main/java/com/rag/app/service/QaService.java:104-122 | the context is the numbered source blocks concatenated in ranked order |
| QaService.QaService.BuildCitations | java-service/src/main/java/com/rag/app/service/QaService.java:127-143 | one citation per chunk in the same order, with id, title (or `Unknown Document`) and pages |
| QaService.QaService.CallLlm | java-service/src/main/java/com/rag/app/service/QaService.java:148-173 | sends the system prompt and the user message; fails exactly when the chat model raises, with `Failed to get response from LLM`; otherwise the reply is the answer, and a null reply becomes `Unable to generate an answer.` |
| QaService.QaService.EmbedQuestion | java-service/src/main/java/com/rag/app/service/QaService.java:65-66 | the question's embedding as the search literal, or the embedding error |
| QaService.QaService.AnswerQuestion | java-service/src/main/java/com/rag/app/service/QaService.java:60-99 | an embedding failure fails the answer; the search gets the caller's ids, the literal and `topK`; no chunks gives the fixed answer with no citations and no prompt; otherwise exactly one prompt built from the context, a failure with `Failed to get response from LLM` exactly when the chat model raises, else the reply as the answer (`Unable to generate an answer.` for a null one) and citations parallel to the chunks |
| QaService.QaService.AnswerFromChunks | java-service/src/main/java/com/rag/app/service/QaService.java:84-98 | the non-empty path: the prompt holds the numbered context; the answer fails exactly when the chat model raises, with the LLM error; otherwise it is the reply (or the fixed text for a null reply), and citation `k` describes chunk `k` |

## Left out

- PDF text extraction (`extract_text_from_pdf`) uses a foreign library. The chunkers take its output, the list of page strings, as input.
- Model loading and encoding, the Java embedding HTTP call and the chat model are opaque functions. These are `weights`, `post` and `chat`. `generate_embedding` (the single-text encoder) is not modelled; the ingestion path does not use it. A transport exception from the embedding HTTP call (`retrieve()…block()` in `EmbeddingClient.java`, lines 47-53 and 81-87) is not modelled: `post` always returns, with a response or null.
- Float arithmetic is not modelled. Floats are bit patterns (`bv32`, `bv64`). Narrowing `double` to `float` is the opaque function `narrow`. `Float.toString` and `Float.parseFloat` are the codec parameter, and `ValidCodec` states what the proofs assume about it. Distances are abstract `real`-valued functions, and `1 - distance` is computed on `real`.
- The embedding column's dimension is not modelled: `vector(384)` in rag.app and `vector(768)` in yolo. pgvector's rejection of a literal of the wrong length happens in the database, outside this model. The Python side's `EMBEDDING_DIMENSION` is 384, as in `model_config.py`.
- pgvector's `CAST(… AS vector)` parsing and its handling of rows with a NULL embedding in `ORDER BY` are not modelled. A row's embedding is passed to the metric as an `Option`.
- An empty `IN ()` list and a negative `LIMIT` are not modelled: document lists are `seq<int>` and limits are `nat`.
- SQLAlchemy is not modelled. The engine, connections and autoflush are out of the model. Ids are drawn from counters when rows are added, as a flush would draw them. Which database call raises is the `Fault` parameter. The flush in `create_document` and `create_chunks` may raise; in the model that is the `fails` flag.
- Db.Session.CreateChunks: embeddings are a list of rows (`seq<seq<Float32>>`). A 1-D or 0-d numpy array passed as `embeddings`, where `embeddings[i].tolist()` would not be a list, is not modelled.
- Embeddings.EmbeddingService.GenerateEmbeddingsBatch: the log line reads `embeddings.shape[1]`, which would raise for a result of rank below 2. The model returns the encoding without that check, since the model's batch encoding of a list is two-dimensional.
- PdfUtils.ChunkText returns `WindowLoopStuck` where `chunk_text` never returns. A non-blank page longer than `max_chars` never leaves the window loop when `max_chars <= 0` and `overlap >= max_chars`: `start` never moves ahead. Every other size, negative ones included, is modelled with Python's slice bounds. The model does not capture the hang itself, only the page where it would happen.
- Logging is left out everywhere.
- `search_similar_chunks` and `get_document_by_id` in `db.py` are not modelled.
- Java's `String.format("%d")` of a null `Integer` (a chunk without pages) is not modelled: page numbers are `int`.
- QaService.QaService.AnswerFromChunks states the context and citations as they were read from the chunk objects on entry (`old`). Nothing in the pipeline writes to those objects.
- QaService.QaService.AnswerQuestion: the chat prompt is recorded as the ghost output `prompts`, because the chat model's side effect is not otherwise visible.
- EmbeddingClient.EmbedSingle and EmbeddingClient.EmbedBatch: "raises exactly when" covers the checks on the response only. A `WebClient` exception thrown by the HTTP call itself is outside the model, since `post` is total.
- Entities.RemoveFirst and Entities.Document.RemoveChunk match chunks by reference. The Java list is a list of Lombok `@Data` entities (Chunk.java:17), whose generated `equals` compares fields, so `chunks.remove(chunk)` (Document.java:64) removes the first chunk whose fields all match, which may be a different object.
- EmbeddingClient.ToPgVectorFormat is not modelled for a null array; the source would throw `NullPointerException`, and the parameter is a non-null array.
- YoloChunkRepository.FindByDocumentId is stated only up to order (as a multiset), because the derived query has no `ORDER BY`.
- UTF-16 code units: Java and Python strings are both sequences of Dafny `char`; lengths are counted in those characters.
