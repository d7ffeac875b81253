/** `QaService`, the question-answering pipeline of the Java service: embed
    the question, fetch the nearest chunks of the chosen documents, and, when
    there are any, number them into a context, cite them, and ask the chat
    model.  The embedding endpoint, the chunk search and the chat model are
    opaque functions given to the service when it is built. */
module QaService {
  import opened Wrappers
  import opened Text
  import opened Floats
  import opened VectorLiteral
  import opened Entities
  import opened EmbeddingClient

  const SYSTEM_PROMPT: string :=
    "You are a helpful assistant that answers questions based ONLY on the provided context.\n"
    + "\n"
    + "Important instructions:\n"
    + "- Use ONLY the information from the context below to answer the question.\n"
    + "- If the answer is not in the context, say \"I don't have enough information in the provided documents to answer this question.\"\n"
    + "- Do not make up information or use knowledge outside of the provided context.\n"
    + "- Be concise and direct in your answers.\n"
    + "- If you quote from the context, indicate which source you are using.\n"

  const NO_CONTENT: string := "No relevant content found in the specified documents."
  const UNKNOWN_DOCUMENT: string := "Unknown Document"
  const NO_ANSWER: string := "Unable to generate an answer."
  const LLM_FAILED: string := "Failed to get response from LLM"

  datatype Citation = Citation(chunkId: Option<int>, docTitle: string, pageStart: int, pageEnd: int)

  datatype QaResponse = QaResponse(answer: string, citations: seq<Citation>)

  datatype Message = SystemMessage(text: string) | UserMessage(text: string)

  /** What the chat client's `call().content()` does with a prompt: raise, or
      reply with content that may be null. */
  datatype ChatOutcome = Threw | Replied(content: Option<string>)

  /** The title a chunk is cited under. */
  function TitleOf(c: Chunk): string
    reads c, c.document
  {
    if c.document != null then c.document.title else UNKNOWN_DOCUMENT
  }

  /** `--- Source %d: %s (Pages %d-%d) ---\n`. */
  function SourceHeader(n: int, title: string, pageStart: int, pageEnd: int): string {
    "--- Source " + DecimalString(n) + ": " + title + " (Pages " + DecimalString(pageStart) + "-"
      + DecimalString(pageEnd) + ") ---\n"
  }

  /** The block of the `n`-th source (counting from 1): header, text, blank
      line. */
  function SourceBlock(n: int, c: Chunk): string
    reads c, c.document
  {
    SourceHeader(n, TitleOf(c), c.pageStart, c.pageEnd) + c.text + "\n\n"
  }

  /** The citation of a chunk. */
  function CitationOf(c: Chunk): Citation
    reads c, c.document
  {
    Citation(c.id, TitleOf(c), c.pageStart, c.pageEnd)
  }

  /** The source blocks of the chunks in ranked order, numbered from 1. */
  function Blocks(chunks: seq<Chunk>): (bs: seq<string>)
    reads chunks, set c | c in chunks :: c.document
    ensures |bs| == |chunks|
  {
    if chunks == [] then []
    else Blocks(chunks[..|chunks| - 1]) + [SourceBlock(|chunks|, chunks[|chunks| - 1])]
  }

  /** Block `k` is the `k + 1`-th source's block. */
  lemma {:induction false} BlockAt(chunks: seq<Chunk>, k: nat)
    requires k < |chunks|
    ensures Blocks(chunks)[k] == SourceBlock(k + 1, chunks[k])
    decreases |chunks|
  {
    if k < |chunks| - 1 {
      var init := chunks[..|chunks| - 1];
      BlockAt(init, k);
      assert init[k] == chunks[k];
    }
  }

  /** Extending the chunks by one appends one block, whose text follows the
      text of the blocks before it. */
  lemma BlocksSnoc(chunks: seq<Chunk>, i: nat)
    requires i < |chunks|
    ensures Concat(Blocks(chunks[..i + 1])) == Concat(Blocks(chunks[..i])) + SourceBlock(i + 1, chunks[i])
  {
    var init := chunks[..i + 1];
    assert init[..i] == chunks[..i];
    var bs := Blocks(init);
    assert bs[..i] == Blocks(chunks[..i]);
  }

  /** The `k`-th source block sits in the context after the blocks before
      it, and its header names the `k`-th citation's title and pages. */
  lemma ContextBlockAt(chunks: seq<Chunk>, k: nat)
    requires k < |chunks|
    ensures var bs := Blocks(chunks);
      Concat(bs) == Concat(bs[..k]) + bs[k] + Concat(bs[k + 1..])
    ensures var cite := CitationOf(chunks[k]);
      Blocks(chunks)[k] == SourceHeader(k + 1, cite.docTitle, cite.pageStart, cite.pageEnd) + chunks[k].text + "\n\n"
  {
    BlockAt(chunks, k);
    ConcatAround(Blocks(chunks), k);
  }

  /** The user message: the context first, then the question. */
  function UserPrompt(context: string, question: string): string {
    "Context:\n" + context + "\n\nQuestion: " + question
      + "\n\nPlease answer the question based only on the context provided above.\n"
  }

  /** The two messages sent to the chat model: the system prompt, then the
      user message. */
  function ChatPrompt(systemPrompt: string, context: string, question: string): seq<Message> {
    [SystemMessage(systemPrompt), UserMessage(UserPrompt(context, question))]
  }

  /** In the user message the context comes first, right after its label,
      and the question follows it. */
  lemma ContextBeforeQuestion(context: string, question: string)
    ensures var p := UserPrompt(context, question);
      var q := 9 + |context| + 12;
      && q + |question| <= |p|
      && p[9..9 + |context|] == context
      && p[q..q + |question|] == question
  {
    var p := UserPrompt(context, question);
    assert |"Context:\n"| == 9 && |"\n\nQuestion: "| == 12;
    assert p == "Context:\n" + context + "\n\nQuestion: " + question
      + "\n\nPlease answer the question based only on the context provided above.\n";
  }

  /** The literal the question's embedding is searched with, when the
      embedding service answers with at least one vector. */
  function QueryLiteral(codec: FloatCodec, narrow: Float64 -> Float32, response: EmbedResponse): string
    requires response.vectors.Some? && response.vectors.value != []
  {
    var first := response.vectors.value[0];
    Format(codec, seq(|first|, i requires 0 <= i < |first| => narrow(first[i])))
  }

  /** The answer `callLlm` makes of a reply: the text itself, or a fixed
      sentence when the model returned none. */
  function ReplyText(content: Option<string>): string {
    if content.Some? then content.value else NO_ANSWER
  }

  class QaService {
    const post: EmbedRequest -> Option<EmbedResponse>
    const narrow: Float64 -> Float32
    const codec: FloatCodec
    /** `chunkRepository.findNearestChunks(documentIds, literal, limit)`:
        the search `RagChunkRepository.FindNearestChunks` models, whose result
        is proved there to be the top `limit` chunks by distance (`IsTopK`). */
    const retrieve: (seq<int>, string, int) -> seq<Chunk>
    const chat: seq<Message> -> ChatOutcome
    /** `rag.retrieval.top-k`, injected into the constructor (5 when unset). */
    const topK: int
    /** `SYSTEM_PROMPT`, fixed by the constructor. */
    const systemPrompt: string

    constructor(post: EmbedRequest -> Option<EmbedResponse>, narrow: Float64 -> Float32, codec: FloatCodec,
                retrieve: (seq<int>, string, int) -> seq<Chunk>, chat: seq<Message> -> ChatOutcome, topK: int)
      ensures this.post == post && this.narrow == narrow && this.codec == codec
      ensures this.retrieve == retrieve && this.chat == chat && this.topK == topK
      ensures systemPrompt == SYSTEM_PROMPT
    {
      systemPrompt := SYSTEM_PROMPT;
      this.post := post;
      this.narrow := narrow;
      this.codec := codec;
      this.retrieve := retrieve;
      this.chat := chat;
      this.topK := topK;
    }

    /** `buildContext`: the source blocks appended in ranked order. */
    method BuildContext(chunks: seq<Chunk>) returns (context: string)
      ensures context == Concat(Blocks(chunks))
    {
      context := "";
      for i := 0 to |chunks|
        invariant context == Concat(Blocks(chunks[..i]))
      {
        var chunk := chunks[i];
        var docTitle := if chunk.document != null then chunk.document.title else UNKNOWN_DOCUMENT;
        ghost var before := context;
        ghost var header := SourceHeader(i + 1, docTitle, chunk.pageStart, chunk.pageEnd);
        context := context + SourceHeader(i + 1, docTitle, chunk.pageStart, chunk.pageEnd);
        context := context + chunk.text;
        context := context + "\n\n";
        BlocksSnoc(chunks, i);
        AppendThree(before, header, chunk.text, "\n\n");
        assert SourceBlock(i + 1, chunks[i]) == header + chunk.text + "\n\n";
      }
      assert chunks[..|chunks|] == chunks;
    }

    /** `buildCitations`: one citation per chunk, in the same order. */
    method BuildCitations(chunks: seq<Chunk>) returns (citations: seq<Citation>)
      ensures |citations| == |chunks|
      ensures forall k :: 0 <= k < |chunks| ==> citations[k] == CitationOf(chunks[k])
    {
      citations := [];
      for i := 0 to |chunks|
        invariant |citations| == i
        invariant forall k :: 0 <= k < i ==> citations[k] == CitationOf(chunks[k])
      {
        var chunk := chunks[i];
        var docTitle := if chunk.document != null then chunk.document.title else UNKNOWN_DOCUMENT;
        citations := citations + [Citation(chunk.id, docTitle, chunk.pageStart, chunk.pageEnd)];
      }
    }

    /** `callLlm`: the system prompt and the user message go to the chat
        model; its reply is the answer, a null reply becomes a fixed text, and
        any exception becomes a `RuntimeException`. */
    method CallLlm(context: string, question: string) returns (r: Result<string, ClientError>)
      ensures chat(ChatPrompt(systemPrompt, context, question)).Threw? <==> r.Failure?
      ensures r.Failure? ==> r.error == RuntimeException(LLM_FAILED)
      ensures r.Success? ==> r.value == ReplyText(chat(ChatPrompt(systemPrompt, context, question)).content)
    {
      var userPrompt := UserPrompt(context, question);
      var messages := [SystemMessage(systemPrompt), UserMessage(userPrompt)];
      var response := chat(messages);
      match response
      case Threw =>
        return Failure(RuntimeException(LLM_FAILED));
      case Replied(content) =>
        return Success(if content.Some? then content.value else NO_ANSWER);
    }

    /** The first step of `answerQuestion`: the question's embedding, as the
        literal the search is given. */
    method EmbedQuestion(question: string) returns (r: Result<string, ClientError>)
      ensures var resp := post(EmbedRequest([question]));
        && (r.Failure? <==> resp.None? || resp.value.vectors.None? || resp.value.vectors.value == [])
        && (r.Failure? ==> r.error == RuntimeException(EMBED_FAILED))
        && (r.Success? ==> r.value == QueryLiteral(codec, narrow, resp.value))
    {
      var embedding := EmbedSingle(post, narrow, question);
      if embedding.Failure? {
        return Failure(embedding.error);
      }
      ghost var first := post(EmbedRequest([question])).value.vectors.value[0];
      assert embedding.value[..] == seq(|first|, i requires 0 <= i < |first| => narrow(first[i]));
      var queryEmbedding := ToPgVectorFormat(codec, embedding.value);
      return Success(queryEmbedding);
    }

    /** `answerQuestion`.  A failing embedding call fails the answer.  The
        search gets the caller's documents, the embedding's literal and
        `topK`.  No chunks: the fixed answer, no citations, and no prompt
        sent.  Otherwise exactly one prompt, built from the numbered context,
        and one citation per retrieved chunk in ranked order. */
    method AnswerQuestion(question: string, documentIds: seq<int>)
      returns (r: Result<QaResponse, ClientError>, ghost prompts: seq<seq<Message>>)
      ensures var resp := post(EmbedRequest([question]));
        var embedded := resp.Some? && resp.value.vectors.Some? && resp.value.vectors.value != [];
        && (!embedded ==> r == Failure(RuntimeException(EMBED_FAILED)) && prompts == [])
        && (embedded ==>
             var chunks := retrieve(documentIds, QueryLiteral(codec, narrow, resp.value), topK);
             && (chunks == [] ==> r == Success(QaResponse(NO_CONTENT, [])) && prompts == [])
             && (chunks != [] ==>
                  && prompts == [ChatPrompt(systemPrompt, Concat(Blocks(chunks)), question)]
                  && (r.Failure? <==> chat(prompts[0]).Threw?)
                  && (r.Failure? ==> r.error == RuntimeException(LLM_FAILED))
                  && (r.Success? ==> r.value.answer == ReplyText(chat(prompts[0]).content))
                  && (r.Success? ==>
                       && |r.value.citations| == |chunks|
                       && forall k :: 0 <= k < |chunks| ==> r.value.citations[k] == CitationOf(chunks[k]))))
    {
      prompts := [];
      var literal := EmbedQuestion(question);
      if literal.Failure? {
        return Failure(literal.error), prompts;
      }
      var queryEmbedding := literal.value;
      var relevantChunks := retrieve(documentIds, queryEmbedding, topK);
      if relevantChunks == [] {
        return Success(QaResponse(NO_CONTENT, [])), prompts;
      }
      ghost var expected := Concat(Blocks(relevantChunks));
      r, prompts := AnswerFromChunks(question, relevantChunks);
      assert Concat(Blocks(relevantChunks)) == expected;
    }

    /** The part of `answerQuestion` after a non-empty search: context,
        citations, and one call to the chat model, all read from the chunks
        as they were on entry. */
    method AnswerFromChunks(question: string, relevantChunks: seq<Chunk>)
      returns (r: Result<QaResponse, ClientError>, ghost prompts: seq<seq<Message>>)
      ensures prompts == [ChatPrompt(systemPrompt, old(Concat(Blocks(relevantChunks))), question)]
      ensures r.Failure? <==> chat(prompts[0]).Threw?
      ensures r.Failure? ==> r.error == RuntimeException(LLM_FAILED)
      ensures r.Success? ==> r.value.answer == ReplyText(chat(prompts[0]).content)
      ensures r.Success? ==>
        && |r.value.citations| == |relevantChunks|
        && forall k :: 0 <= k < |relevantChunks| ==> r.value.citations[k] == old(CitationOf(relevantChunks[k]))
    {
      ghost var expected := Concat(Blocks(relevantChunks));
      var context := BuildContext(relevantChunks);
      assert context == expected;
      var citations := BuildCitations(relevantChunks);
      assert forall k :: 0 <= k < |relevantChunks| ==> citations[k] == old(CitationOf(relevantChunks[k]));
      prompts := [ChatPrompt(systemPrompt, context, question)];
      var answer := CallLlm(context, question);
      if answer.Failure? {
        return Failure(answer.error), prompts;
      }
      r := Success(QaResponse(answer.value, citations));
    }
  }
}
