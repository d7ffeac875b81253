/** `EmbeddingClient`, the Java side's client of the Python `/embed`
    endpoint.  The HTTP exchange itself is a parameter, `post`, mapping the
    request body to the decoded response or to null; `narrow` is Java's
    `Double.floatValue`.  What is modelled is the checks made on the
    response and the conversion of its vectors into `float[]`s. */
module EmbeddingClient {
  import opened Wrappers
  import opened Text
  import opened Floats
  import opened VectorLiteral

  /** The JSON body `{texts}` sent to `/embed`. */
  datatype EmbedRequest = EmbedRequest(texts: seq<string>)

  /** The JSON body returned by `/embed`; `vectors` may be missing. */
  datatype EmbedResponse = EmbedResponse(vectors: Option<seq<seq<Float64>>>, dimension: int, numTexts: int)

  datatype ClientError = RuntimeException(message: string)

  const EMBED_FAILED: string := "Failed to get embedding response from Python service"

  /** The element loop `arr[i] = vector.get(i).floatValue()` over one
      returned vector, into a fresh array. */
  method ToFloatArray(narrow: Float64 -> Float32, vector: seq<Float64>) returns (arr: array<Float32>)
    ensures fresh(arr)
    ensures arr.Length == |vector|
    ensures forall i :: 0 <= i < |vector| ==> arr[i] == narrow(vector[i])
  {
    arr := new Float32[|vector|];
    for i := 0 to |vector|
      invariant forall k :: 0 <= k < i ==> arr[k] == narrow(vector[k])
    {
      arr[i] := narrow(vector[i]);
    }
  }

  /** `embedSingle`: posts `[text]`; fails when the response, its vectors,
      or the list of vectors is missing or empty; otherwise converts the
      first vector and ignores any others. */
  method EmbedSingle(post: EmbedRequest -> Option<EmbedResponse>, narrow: Float64 -> Float32, text: string)
    returns (r: Result<array<Float32>, ClientError>)
    ensures var resp := post(EmbedRequest([text]));
      r.Failure? <==> resp.None? || resp.value.vectors.None? || resp.value.vectors.value == []
    ensures r.Failure? ==> r.error == RuntimeException(EMBED_FAILED)
    ensures r.Success? ==> fresh(r.value)
    ensures r.Success? ==> var first := post(EmbedRequest([text])).value.vectors.value[0];
      r.value.Length == |first| && forall i :: 0 <= i < |first| ==> r.value[i] == narrow(first[i])
  {
    var response := post(EmbedRequest([text]));
    if response.None? || response.value.vectors.None? || response.value.vectors.value == [] {
      return Failure(RuntimeException(EMBED_FAILED));
    }
    var embedding := response.value.vectors.value[0];
    var result := ToFloatArray(narrow, embedding);
    return Success(result);
  }

  /** `embedBatch`: posts `texts` unchanged; fails only when the response or
      its vectors are missing; otherwise converts every returned vector, in
      order, without comparing their number with the number of texts. */
  method EmbedBatch(post: EmbedRequest -> Option<EmbedResponse>, narrow: Float64 -> Float32, texts: seq<string>)
    returns (r: Result<seq<array<Float32>>, ClientError>)
    ensures var resp := post(EmbedRequest(texts));
      r.Failure? <==> resp.None? || resp.value.vectors.None?
    ensures r.Failure? ==> r.error == RuntimeException(EMBED_FAILED)
    ensures r.Success? ==> var vectors := post(EmbedRequest(texts)).value.vectors.value;
      && |r.value| == |vectors|
      && (forall i :: 0 <= i < |vectors| ==> fresh(r.value[i]) && r.value[i].Length == |vectors[i]|)
      && (forall i, j :: 0 <= i < |vectors| && 0 <= j < |vectors[i]| ==> r.value[i][j] == narrow(vectors[i][j]))
  {
    var response := post(EmbedRequest(texts));
    if response.None? || response.value.vectors.None? {
      return Failure(RuntimeException(EMBED_FAILED));
    }
    var vectors := response.value.vectors.value;
    var results: seq<array<Float32>> := [];
    for n := 0 to |vectors|
      invariant |results| == n
      invariant forall i :: 0 <= i < n ==> fresh(results[i]) && results[i].Length == |vectors[i]|
      invariant forall i, j :: 0 <= i < n && 0 <= j < |vectors[i]| ==> results[i][j] == narrow(vectors[i][j])
    {
      var arr := ToFloatArray(narrow, vectors[n]);
      results := results + [arr];
    }
    return Success(results);
  }

  /** `toPgVectorFormat`: the literal built in a loop; unlike
      `Chunk.embeddingToString` it writes `[]` for an empty array. */
  method ToPgVectorFormat(codec: FloatCodec, embedding: array<Float32>) returns (s: string)
    ensures s == Format(codec, embedding[..])
    ensures embedding.Length == 0 ==> s == "[]"
  {
    var sb := "[";
    for i := 0 to embedding.Length
      invariant sb == "[" + Join(Shows(codec, embedding[..i]), ",")
    {
      FormatStep(codec, embedding[..], i);
      assert embedding[..][..i] == embedding[..i] && embedding[..][..i + 1] == embedding[..i + 1];
      if i > 0 {
        sb := sb + ",";
      }
      sb := sb + codec.show(embedding[i]);
    }
    assert embedding[..embedding.Length] == embedding[..];
    sb := sb + "]";
    if embedding.Length == 0 {
      FormatEmpty(codec);
    }
    return sb;
  }
}
