/** The JPA entities of the Java service: a `Document` owns a list of
    `Chunk`s and each chunk points back at its document.  A chunk keeps its
    embedding as the pgvector literal text and converts to and from `float[]`
    on demand.  The clock behind `LocalDateTime.now()` is a parameter. */
module Entities {
  import opened Wrappers
  import opened Text
  import opened Floats
  import opened VectorLiteral
  import opened JavaStr

  /** A `LocalDateTime`, as far as the entities use one. */
  type Timestamp = int

  /** The characters `replaceAll("[\\[\\] ]", "")` deletes. */
  const LITERAL_NOISE: set<char> := {'[', ']', ' '}

  /** `Chunk.embeddingToString` on the contents of a possibly null array:
      null for a null or zero-length array, the literal otherwise. */
  function EmbeddingText(codec: FloatCodec, e: Option<seq<Float32>>): (s: Option<string>)
    ensures s.None? <==> e.None? || e.value == []
  {
    if e.None? || e.value == [] then None else Some(Format(codec, e.value))
  }

  /** `Chunk.stringToEmbedding`: null for a null or empty string; otherwise
      brackets and spaces deleted, the rest split on `,` the way Java does,
      and every piece parsed in order. */
  function EmbeddingOf(codec: FloatCodec, s: Option<string>): (r: Result<Option<seq<Float32>>, ParseError>)
    ensures r == Success(None) <==> s.None? || s.value == ""
  {
    if s.None? || s.value == "" then Success(None)
    else
      var parts := Split(RemoveAll(s.value, LITERAL_NOISE), ',');
      match ParseAll(codec, parts)
      case None => Failure(NumberFormatException)
      case Some(v) =>
        assert parts != [] ==> |v| > 0;
        assert parts == [] ==> v == [];
        Success(Some(v))
  }

  /** Writing a non-empty embedding and reading it back gives the same
      elements, in order, each as `parseFloat` returns it. */
  lemma EmbeddingRoundTrip(codec: FloatCodec, v: seq<Float32>)
    requires ValidCodec(codec) && v != []
    ensures EmbeddingOf(codec, EmbeddingText(codec, Some(v))) == Success(Some(Canon(v)))
  {
    var ts := Shows(codec, v);
    FormatCleaned(codec, v);
    forall i | 0 <= i < |ts|
      ensures ',' !in ts[i]
    {
      ShowHasNoComma(codec, v[i]);
    }
    var last := v[|v| - 1];
    assert ts[|ts| - 1] == codec.show(last) != [];
    SplitJoinJava(ts, ',');
    ParseShows(codec, v);
  }

  /** Deleting brackets and spaces from a literal leaves the joined element
      texts. */
  lemma FormatCleaned(codec: FloatCodec, v: seq<Float32>)
    requires ValidCodec(codec)
    ensures RemoveAll(Format(codec, v), LITERAL_NOISE) == Join(Shows(codec, v), ",")
    ensures forall k :: 0 <= k < |Join(Shows(codec, v), ",")| ==> Join(Shows(codec, v), ",")[k] !in LITERAL_NOISE
  {
    var ts := Shows(codec, v);
    var j := Join(ts, ",");
    forall i, k | 0 <= i < |ts| && 0 <= k < |ts[i]|
      ensures ts[i][k] !in LITERAL_NOISE
    {
      var f := v[i];
      assert ts[i] == codec.show(f);
      assert LiteralChar(codec.show(f)[k]);
    }
    JoinWithout(ts, ",", LITERAL_NOISE);
    RemoveAllNone(j, LITERAL_NOISE);
    RemoveAllAppend("[" + j, "]", LITERAL_NOISE);
    RemoveAllAppend("[", j, LITERAL_NOISE);
  }

  /** A join of strings that avoid `bad`, with a separator that avoids `bad`,
      avoids `bad`. */
  lemma {:induction false} JoinWithout(parts: seq<string>, sep: string, bad: set<char>)
    requires forall i, k :: 0 <= i < |parts| && 0 <= k < |parts[i]| ==> parts[i][k] !in bad
    requires forall k :: 0 <= k < |sep| ==> sep[k] !in bad
    ensures forall k :: 0 <= k < |Join(parts, sep)| ==> Join(parts, sep)[k] !in bad
    decreases |parts|
  {
    if |parts| > 1 {
      JoinWithout(parts[1..], sep, bad);
      var rest := Join(parts[1..], sep);
      assert Join(parts, sep) == parts[0] + sep + rest;
      forall k | 0 <= k < |Join(parts, sep)|
        ensures Join(parts, sep)[k] !in bad
      {
        if k < |parts[0]| {
          assert Join(parts, sep)[k] == parts[0][k];
        } else if k < |parts[0]| + |sep| {
          assert Join(parts, sep)[k] == sep[k - |parts[0]|];
        } else {
          assert Join(parts, sep)[k] == rest[k - |parts[0]| - |sep|];
        }
      }
    }
  }

  /** `"[]"` is not read back as an empty embedding: with the brackets gone
      the string `""` splits into one empty piece, which does not parse. */
  lemma EmptyBracketsFail(codec: FloatCodec)
    requires ValidCodec(codec)
    ensures EmbeddingOf(codec, Some("[]")) == Failure(NumberFormatException)
  {
    assert RemoveAll("[]", LITERAL_NOISE) == "";
    SplitEmpty(',');
    ParseEmptyPiece(codec);
  }

  /** The contents of a possibly null Java array. */
  function Contents(a: array?<Float32>): (c: Option<seq<Float32>>)
    reads a
    ensures c.None? <==> a == null
  {
    if a == null then None else Some(a[..])
  }

  /** `Chunk.embeddingToString`, building the literal in a loop. */
  method EmbeddingToString(codec: FloatCodec, embedding: array?<Float32>) returns (s: Option<string>)
    ensures s == EmbeddingText(codec, Contents(embedding))
  {
    if embedding == null || embedding.Length == 0 {
      return None;
    }
    var sb := "[";
    for i := 0 to embedding.Length
      invariant sb == "[" + Join(Shows(codec, embedding[..i]), ",")
    {
      FormatStep(codec, embedding[..], i);
      assert embedding[..][..i] == embedding[..i] && embedding[..][..i + 1] == embedding[..i + 1];
      if i > 0 {
        sb := sb + ",";
      }
      sb := sb + codec.show(embedding[i]);
    }
    assert embedding[..embedding.Length] == embedding[..];
    sb := sb + "]";
    return Some(sb);
  }

  /** `Chunk.stringToEmbedding`, filling a fresh array piece by piece; the
      array's contents are the result. */
  method StringToEmbedding(codec: FloatCodec, embeddingStr: Option<string>)
    returns (r: Result<Option<seq<Float32>>, ParseError>)
    ensures r == EmbeddingOf(codec, embeddingStr)
  {
    if embeddingStr.None? || embeddingStr.value == "" {
      return Success(None);
    }
    var cleaned := RemoveAll(embeddingStr.value, LITERAL_NOISE);
    var parts := Split(cleaned, ',');
    var result := new Float32[|parts|];
    for i := 0 to |parts|
      invariant forall k :: 0 <= k < i ==> codec.parse(parts[k]) == Some(result[k])
    {
      var parsed := codec.parse(parts[i]);
      if parsed.None? {
        return Failure(NumberFormatException);
      }
      result[i] := parsed.value;
    }
    ghost var p := ParseAll(codec, parts);
    assert p.Some?;
    forall k | 0 <= k < |parts|
      ensures p.value[k] == result[k]
    {
      assert codec.parse(parts[k]) == Some(p.value[k]);
    }
    assert p.value == result[..];
    r := Success(Some(result[..]));
  }

  class Chunk {
    var id: Option<int>
    var document: Document?
    var text: string
    var pageStart: int
    var pageEnd: int
    var chunkIndex: int
    /** The pgvector literal, or null. */
    var embedding: Option<string>
    var createdAt: Option<Timestamp>

    /** The builder with the fields the ingestion sets: no id, document,
        embedding or creation time yet. */
    constructor (text: string, pageStart: int, pageEnd: int, chunkIndex: int)
      ensures this.text == text && this.pageStart == pageStart && this.pageEnd == pageEnd
      ensures this.chunkIndex == chunkIndex
      ensures id.None? && document == null && embedding.None? && createdAt.None?
    {
      this.text := text;
      this.pageStart := pageStart;
      this.pageEnd := pageEnd;
      this.chunkIndex := chunkIndex;
      id := None;
      document := null;
      embedding := None;
      createdAt := None;
    }

    /** `@PrePersist onCreate`: stamps the creation time once. */
    method OnCreate(now: Timestamp)
      modifies this`createdAt
      ensures old(createdAt).Some? ==> createdAt == old(createdAt)
      ensures old(createdAt).None? ==> createdAt == Some(now)
    {
      if createdAt.None? {
        createdAt := Some(now);
      }
    }

    /** `getEmbeddingArray`: the stored literal, parsed. */
    method GetEmbeddingArray(codec: FloatCodec) returns (r: Result<Option<seq<Float32>>, ParseError>)
      ensures r == EmbeddingOf(codec, embedding)
    {
      r := StringToEmbedding(codec, embedding);
    }

    /** `setEmbeddingArray`: stores the literal of the array, or null for a
        null or empty one; reading it back gives the array's elements. */
    method SetEmbeddingArray(codec: FloatCodec, embeddingArray: array?<Float32>)
      modifies this`embedding
      ensures embedding == EmbeddingText(codec, Contents(embeddingArray))
      ensures ValidCodec(codec) && embeddingArray != null && embeddingArray.Length > 0
              ==> EmbeddingOf(codec, embedding) == Success(Some(Canon(embeddingArray[..])))
      ensures embeddingArray == null || embeddingArray.Length == 0 ==> EmbeddingOf(codec, embedding) == Success(None)
    {
      embedding := EmbeddingToString(codec, embeddingArray);
      if ValidCodec(codec) && embeddingArray != null && embeddingArray.Length > 0 {
        EmbeddingRoundTrip(codec, embeddingArray[..]);
      }
    }
  }

  class Document {
    var id: Option<int>
    var title: string
    var filename: string
    var createdAt: Option<Timestamp>
    var chunks: seq<Chunk>

    /** A new document: no id or creation time yet, and an empty chunk list
        (`@Builder.Default`). */
    constructor (title: string, filename: string)
      ensures this.title == title && this.filename == filename
      ensures id.None? && createdAt.None? && chunks == []
    {
      this.title := title;
      this.filename := filename;
      id := None;
      createdAt := None;
      chunks := [];
    }

    /** `@PrePersist onCreate`: stamps the creation time once. */
    method OnCreate(now: Timestamp)
      modifies this`createdAt
      ensures old(createdAt).Some? ==> createdAt == old(createdAt)
      ensures old(createdAt).None? ==> createdAt == Some(now)
    {
      if createdAt.None? {
        createdAt := Some(now);
      }
    }

    /** `addChunk`: appends the chunk and points it at this document. */
    method AddChunk(chunk: Chunk)
      modifies this`chunks, chunk`document
      ensures chunks == old(chunks) + [chunk]
      ensures chunk.document == this
    {
      chunks := chunks + [chunk];
      chunk.document := this;
    }

    /** `removeChunk`: removes the first occurrence of the chunk, if any, and
        clears its back-reference whether or not it was listed. */
    method RemoveChunk(chunk: Chunk)
      modifies this`chunks, chunk`document
      ensures chunks == RemoveFirst(old(chunks), chunk)
      ensures chunk.document == null
    {
      chunks := RemoveFirst(chunks, chunk);
      chunk.document := null;
    }
  }

  /** `List.remove(Object)` with identity as equality: the first occurrence
      of `x` is taken out and the rest keep their order. */
  function RemoveFirst<T(==)>(s: seq<T>, x: T): (r: seq<T>)
    ensures multiset(r) == multiset(s) - multiset{x}
  {
    if s == [] then []
    else if s[0] == x then
      assert s == [s[0]] + s[1..];
      s[1..]
    else
      assert s == [s[0]] + s[1..];
      [s[0]] + RemoveFirst(s[1..], x)
  }

  /** Removal cuts out exactly the first occurrence. */
  lemma {:induction false} RemoveFirstAt<T>(s: seq<T>, x: T, i: nat)
    requires i < |s| && s[i] == x && x !in s[..i]
    ensures RemoveFirst(s, x) == s[..i] + s[i + 1..]
    decreases i
  {
    if i > 0 {
      var tail := s[1..];
      assert s[0] != x by {
        assert s[..i][0] == s[0];
      }
      assert s[..i] == [s[0]] + tail[..i - 1];
      RemoveFirstAt(tail, x, i - 1);
      assert tail[i..] == s[i + 1..];
    }
  }

  /** Removing an element that is not listed changes nothing. */
  lemma {:induction false} RemoveAbsent<T>(s: seq<T>, x: T)
    requires x !in s
    ensures RemoveFirst(s, x) == s
    decreases |s|
  {
    if s != [] {
      RemoveAbsent(s[1..], x);
    }
  }

  /** Adding a chunk the document did not list and removing it again gives
      back the original list. */
  lemma AddThenRemove<T>(s: seq<T>, x: T)
    requires x !in s
    ensures RemoveFirst(s + [x], x) == s
  {
    RemoveFirstAt(s + [x], x, |s|);
    assert (s + [x])[..|s|] == s;
  }
}
