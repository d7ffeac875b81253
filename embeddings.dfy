/** The Python embedding service: a lazily loaded sentence-transformer held
    in a module global, the batch encoding of chunk texts, and the check of an
    embedding array's dimension.  What the model computes is opaque: the
    function `weights` stands for the encoding of the named model. */
module Embeddings {
  import opened Wrappers
  import opened Floats
  import PdfUtils

  const EMBEDDING_MODEL_NAME: string := "sentence-transformers/all-MiniLM-L6-v2"
  const EMBEDDING_DIMENSION: nat := 384
  const DEFAULT_BATCH_SIZE: nat := 32

  /** A numpy array of floats of rank 0, 1 or 2; a rank-2 array is a list of
      rows of `width` elements each. */
  datatype NdArray =
    | Scalar(value: Float32)
    | Flat(values: seq<Float32>)
    | Rows(rows: seq<seq<Float32>>, width: nat)

  /** `array.shape`. */
  function Shape(a: NdArray): (s: seq<nat>)
    ensures |s| <= 2
  {
    match a
    case Scalar(_) => []
    case Flat(values) => [|values|]
    case Rows(rows, width) => [|rows|, width]
  }

  /** Indexing past the end of a tuple. */
  datatype PyError = IndexError

  /** A loaded `SentenceTransformer`. */
  class SentenceTransformer {
    const name: string
    const encode: seq<string> -> NdArray

    constructor(name: string, encode: seq<string> -> NdArray)
      ensures this.name == name && this.encode == encode
    {
      this.name := name;
      this.encode := encode;
    }
  }

  /** The `text` of every chunk, in list order. */
  function Texts(chunks: seq<PdfUtils.ChunkDraft>): (texts: seq<string>)
    ensures |texts| == |chunks|
    ensures forall i :: 0 <= i < |chunks| ==> texts[i] == chunks[i].text
  {
    if chunks == [] then [] else [chunks[0].text] + Texts(chunks[1..])
  }

  /** The module's state: the global `_embedding_model`, `None` until the
      first request.  `loads` counts the model constructions. */
  class EmbeddingService {
    const weights: seq<string> -> NdArray
    var model: SentenceTransformer?
    ghost var loads: nat

    /** The cache is empty before the one load and holds the named model
        after it. */
    ghost predicate Valid()
      reads this, model
    {
      && (model == null <==> loads == 0)
      && loads <= 1
      && (model != null ==> model.name == EMBEDDING_MODEL_NAME && model.encode == weights)
    }

    constructor(weights: seq<string> -> NdArray)
      ensures Valid() && this.weights == weights && model == null && loads == 0
    {
      this.weights := weights;
      model := null;
      loads := 0;
    }

    /** `get_embedding_model`: loads the model on the first call and returns
        the cached instance on every later one. */
    method GetEmbeddingModel() returns (m: SentenceTransformer)
      requires Valid()
      modifies this`model, this`loads
      ensures Valid() && model == m && loads == 1
      ensures m.encode == weights
      ensures old(model) != null ==> m == old(model)
      ensures old(model) == null ==> fresh(m)
    {
      if model == null {
        model := new SentenceTransformer(EMBEDDING_MODEL_NAME, weights);
        loads := loads + 1;
      }
      m := model;
    }

    /** `generate_embeddings_batch`: the model's encoding of `texts`; the
        batch size only changes how the work is split. */
    method GenerateEmbeddingsBatch(texts: seq<string>, batchSize: nat) returns (embeddings: NdArray)
      requires Valid()
      modifies this`model, this`loads
      ensures Valid() && model != null && loads == 1
      ensures old(model) != null ==> model == old(model)
      ensures embeddings == weights(texts)
    {
      var m := GetEmbeddingModel();
      embeddings := m.encode(texts);
    }

    /** `encode_chunks`: an empty list gives the empty rank-1 array without
        touching the model; otherwise the chunks' texts, in order, are
        encoded in one batch. */
    method EncodeChunks(chunks: seq<PdfUtils.ChunkDraft>, batchSize: nat) returns (embeddings: NdArray)
      requires Valid()
      modifies this`model, this`loads
      ensures Valid()
      ensures chunks == [] ==> embeddings == Flat([]) && model == old(model) && loads == old(loads)
      ensures chunks == [] ==> VerifyEmbeddingDimension(embeddings) == Success(false)
      ensures chunks != [] ==> embeddings == weights(Texts(chunks)) && loads == 1
    {
      if chunks == [] {
        return Flat([]);
      }
      var texts := Texts(chunks);
      embeddings := GenerateEmbeddingsBatch(texts, batchSize);
    }
  }

  /** `verify_embedding_dimension`: the length of a rank-1 array, or the
      second extent of any other, compared with the configured dimension; a
      rank-0 array has no second extent. */
  function VerifyEmbeddingDimension(embedding: NdArray): (r: Result<bool, PyError>)
    ensures r.Failure? <==> embedding.Scalar?
    ensures r == Success(true) <==>
      || (embedding.Flat? && |embedding.values| == EMBEDDING_DIMENSION)
      || (embedding.Rows? && embedding.width == EMBEDDING_DIMENSION)
  {
    var shape := Shape(embedding);
    if |shape| == 1 then Success(shape[0] == EMBEDDING_DIMENSION)
    else if |shape| < 2 then Failure(IndexError)
    else Success(shape[1] == EMBEDDING_DIMENSION)
  }
}
