/** The pgvector text literal `[a,b,c]` that the Java side writes and reads
    in three places (`Chunk.embeddingToString`, `EmbeddingClient.toPgVectorFormat`,
    `VectorType.nullSafeSet`), and the element-by-element parse that the two
    readers (`Chunk.stringToEmbedding`, `VectorType.nullSafeGet`) share once
    they have cut the literal into pieces. */
module VectorLiteral {
  import opened Wrappers
  import opened Text
  import opened Floats

  /** The exception `Float.parseFloat` throws on a piece that is not a
      number. */
  datatype ParseError = NumberFormatException

  /** `Float.toString` of each element, in order. */
  function Shows(codec: FloatCodec, v: seq<Float32>): (ts: seq<string>)
    ensures |ts| == |v|
  {
    seq(|v|, i requires 0 <= i < |v| => codec.show(v[i]))
  }

  /** `"["`, the elements' texts joined by `","` without spaces, `"]"`. */
  function Format(codec: FloatCodec, v: seq<Float32>): (s: string)
    ensures |s| >= 2 && s[0] == '[' && s[|s| - 1] == ']'
  {
    "[" + Join(Shows(codec, v), ",") + "]"
  }

  /** What the loop `if (i > 0) sb.append(","); sb.append(v[i]);` has built
      after `i` turns, without the opening bracket. */
  lemma FormatStep(codec: FloatCodec, v: seq<Float32>, i: nat)
    requires i < |v|
    ensures Join(Shows(codec, v[..i + 1]), ",")
         == Join(Shows(codec, v[..i]), ",") + (if i > 0 then "," else "") + codec.show(v[i])
  {
    assert Shows(codec, v[..i + 1]) == Shows(codec, v[..i]) + [codec.show(v[i])];
    if i > 0 {
      JoinSnoc(Shows(codec, v[..i]), codec.show(v[i]), ",");
    } else {
      assert Shows(codec, v[..i]) == [];
    }
  }

  /** An empty vector is written as `[]`. */
  lemma FormatEmpty(codec: FloatCodec)
    ensures Format(codec, []) == "[]"
  {
    assert Shows(codec, []) == [];
  }

  /** The literal of `n >= 1` elements holds exactly `n - 1` commas. */
  lemma FormatCommas(codec: FloatCodec, v: seq<Float32>)
    requires ValidCodec(codec) && |v| >= 1
    ensures Count(Format(codec, v), ',') == |v| - 1
  {
    JoinCommas(codec, v);
    var j := Join(Shows(codec, v), ",");
    CountAppend("[" + j, "]", ',');
    CountAppend("[", j, ',');
  }

  lemma {:induction false} JoinCommas(codec: FloatCodec, v: seq<Float32>)
    requires ValidCodec(codec) && |v| >= 1
    ensures Count(Join(Shows(codec, v), ","), ',') == |v| - 1
    decreases |v|
  {
    var ts := Shows(codec, v);
    ShowHasNoComma(codec, v[0]);
    CountAbsent(ts[0], ',');
    if |v| > 1 {
      assert Shows(codec, v[1..]) == ts[1..];
      JoinCommas(codec, v[1..]);
      assert Join(ts, ",") == ts[0] + "," + Join(ts[1..], ",");
      assert Count(",", ',') == 1;
      CountAppend(ts[0] + ",", Join(ts[1..], ","), ',');
      CountAppend(ts[0], ",", ',');
    }
  }

  lemma ShowHasNoComma(codec: FloatCodec, f: Float32)
    requires ValidCodec(codec)
    ensures ',' !in codec.show(f)
  {
    forall i | 0 <= i < |codec.show(f)|
      ensures codec.show(f)[i] != ','
    {
      assert LiteralChar(codec.show(f)[i]);
    }
  }

  /** Between its brackets, the literal of a non-empty vector splits on `,`
      into the elements' texts in array order. */
  lemma FormatPieces(codec: FloatCodec, v: seq<Float32>)
    requires ValidCodec(codec) && |v| >= 1
    ensures SplitOn(Join(Shows(codec, v), ","), ",") == Shows(codec, v)
  {
    forall i | 0 <= i < |v|
      ensures ',' !in Shows(codec, v)[i]
    {
      ShowHasNoComma(codec, v[i]);
    }
    SplitJoin(Shows(codec, v), ',');
  }

  /** `Float.parseFloat` on each piece, in order; `None` when any piece does
      not parse (the loop then throws `NumberFormatException`). */
  function ParseAll(codec: FloatCodec, parts: seq<string>): (r: Option<seq<Float32>>)
    ensures r.Some? <==> forall i :: 0 <= i < |parts| ==> codec.parse(parts[i]).Some?
    ensures r.Some? ==> |r.value| == |parts|
    ensures r.Some? ==> forall i :: 0 <= i < |parts| ==> codec.parse(parts[i]) == Some(r.value[i])
  {
    if parts == [] then Some([])
    else match codec.parse(parts[0])
      case None => None
      case Some(f) =>
        match ParseAll(codec, parts[1..])
        case None =>
          assert !codec.parse(parts[1..][0]).Some? || exists i :: 1 <= i < |parts| && !codec.parse(parts[i]).Some?;
          None
        case Some(fs) => Some([f] + fs)
  }

  /** What parsing gives back for a written vector: the same elements, each
      with its NaN payload made canonical. */
  function Canon(v: seq<Float32>): (c: seq<Float32>)
    ensures |c| == |v|
    ensures forall i :: 0 <= i < |v| ==> c[i] == FloatToIntBits(v[i])
  {
    seq(|v|, i requires 0 <= i < |v| => FloatToIntBits(v[i]))
  }

  /** Parsing the elements' texts gives back the elements. */
  lemma ParseShows(codec: FloatCodec, v: seq<Float32>)
    requires ValidCodec(codec)
    ensures ParseAll(codec, Shows(codec, v)) == Some(Canon(v))
  {
    var ts := Shows(codec, v);
    forall i | 0 <= i < |ts|
      ensures codec.parse(ts[i]) == Some(Canon(v)[i])
    {
      assert ts[i] == codec.show(v[i]);
    }
    var r := ParseAll(codec, ts);
    assert r.Some?;
    forall i | 0 <= i < |v|
      ensures r.value[i] == Canon(v)[i]
    {
      assert codec.parse(ts[i]) == Some(r.value[i]);
    }
    assert r.value == Canon(v);
  }

  /** One empty piece (what `"[]"` leaves once its brackets are removed) does
      not parse. */
  lemma ParseEmptyPiece(codec: FloatCodec)
    requires ValidCodec(codec)
    ensures ParseAll(codec, [""]) == None
  {
  }
}
