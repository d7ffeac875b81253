/** `VectorType`, the Hibernate user type that maps a `float[]` property to a
    pgvector column: it reads the column's text, writes a `vector` object,
    copies arrays, and compares and hashes them the way `java.util.Arrays`
    does.  A possibly null `float[]` is seen through its contents,
    `Option<seq<Float32>>`, except where identity matters (`DeepCopy`). */
module VectorType {
  import opened Wrappers
  import opened Text
  import opened Floats
  import opened VectorLiteral
  import opened JavaStr
  import Entities

  /** `java.sql.Types.OTHER`. */
  const OTHER: int := 1111

  /** What `nullSafeSet` binds to the statement parameter. */
  datatype Binding = SqlNull(sqlType: int) | PgObject(pgType: string, value: string)

  /** `Arrays.equals(float[], float[])`: both null, or the same length and
      the same `floatToIntBits` at every index. */
  predicate Equals(x: Option<seq<Float32>>, y: Option<seq<Float32>>)
    ensures x == y ==> Equals(x, y)
    ensures Equals(x, y) ==> (x.None? <==> y.None?)
  {
    if x.None? || y.None? then x.None? && y.None?
    else
      |x.value| == |y.value|
      && forall i :: 0 <= i < |x.value| ==> FloatToIntBits(x.value[i]) == FloatToIntBits(y.value[i])
  }

  /** The `result = 31 * result + bits` fold of `Arrays.hashCode` over the
      elements' `floatToIntBits`, in 32-bit two's-complement arithmetic. */
  function HashBits(bits: seq<bv32>): bv32
  {
    if bits == [] then 1
    else 31 * HashBits(bits[..|bits| - 1]) + bits[|bits| - 1]
  }

  /** `Arrays.hashCode(float[])`: 0 for null. */
  function HashCode(x: Option<seq<Float32>>): bv32
  {
    if x.None? then 0 else HashBits(Canon(x.value))
  }

  /** Equal arrays have equal hash codes, as the `UserType` contract asks. */
  lemma EqualsHashCode(x: Option<seq<Float32>>, y: Option<seq<Float32>>)
    requires Equals(x, y)
    ensures HashCode(x) == HashCode(y)
  {
    if x.Some? {
      EqualsCanon(x.value, y.value);
    }
  }

  /** Equality by `Arrays.equals` is equality of the canonical contents. */
  lemma EqualsCanon(a: seq<Float32>, b: seq<Float32>)
    ensures Equals(Some(a), Some(b)) <==> Canon(a) == Canon(b)
  {
    if Canon(a) == Canon(b) {
      assert forall i :: 0 <= i < |a| ==> Canon(a)[i] == Canon(b)[i];
    }
  }

  /** `nullSafeGet` on the column text: null for SQL NULL; otherwise `[`
      and `]` deleted, the rest split on `,`, and every piece trimmed and
      parsed in order. */
  function ColumnValue(codec: FloatCodec, column: Option<string>): (r: Result<Option<seq<Float32>>, ParseError>)
    ensures column.None? <==> r == Success(None)
  {
    if column.None? then Success(None)
    else
      var values := Split(RemoveAll(RemoveAll(column.value, {'['}), {']'}), ',');
      var trimmed := seq(|values|, i requires 0 <= i < |values| => Trim(values[i]));
      match ParseAll(codec, trimmed)
      case None => Failure(NumberFormatException)
      case Some(v) => Success(Some(v))
  }

  /** What `nullSafeSet` binds for the contents of a possibly null array. */
  function Bound(codec: FloatCodec, value: Option<seq<Float32>>): Binding
  {
    if value.None? then SqlNull(OTHER) else PgObject("vector", Format(codec, value.value))
  }

  /** A non-null array written by `nullSafeSet` and read back by
      `nullSafeGet` comes back equal to itself by `Arrays.equals`. */
  lemma WriteThenRead(codec: FloatCodec, v: seq<Float32>)
    requires ValidCodec(codec) && v != []
    ensures Bound(codec, Some(v)).PgObject?
    ensures ColumnValue(codec, Some(Bound(codec, Some(v)).value)) == Success(Some(Canon(v)))
    ensures Equals(Some(Canon(v)), Some(v))
  {
    var ts := Shows(codec, v);
    var values := Split(RemoveAll(RemoveAll(Format(codec, v), {'['}), {']'}), ',');
    WrittenPieces(codec, v);
    var trimmed := seq(|values|, i requires 0 <= i < |values| => Trim(values[i]));
    forall i | 0 <= i < |ts|
      ensures trimmed[i] == ts[i]
    {
      var f := v[i];
      assert ts[i] == codec.show(f);
      forall k | 0 <= k < |ts[i]|
        ensures !IsTrimmed(ts[i][k])
      {
        assert LiteralChar(codec.show(f)[k]);
      }
      TrimNothing(ts[i]);
    }
    assert trimmed == ts;
    ParseShows(codec, v);
    forall i | 0 <= i < |v|
      ensures FloatToIntBits(Canon(v)[i]) == FloatToIntBits(v[i])
    {
      FloatToIntBitsIdempotent(v[i]);
    }
  }

  /** With its brackets deleted, a written literal splits into the
      elements' texts. */
  lemma WrittenPieces(codec: FloatCodec, v: seq<Float32>)
    requires ValidCodec(codec) && v != []
    ensures Split(RemoveAll(RemoveAll(Format(codec, v), {'['}), {']'}), ',') == Shows(codec, v)
  {
    var ts := Shows(codec, v);
    Entities.FormatCleaned(codec, v);
    var j := Join(ts, ",");
    assert Format(codec, v) == "[" + j + "]";
    RemoveAllAppend("[" + j, "]", {'['});
    RemoveAllAppend("[", j, {'['});
    RemoveAllNone(j, {'['});
    assert RemoveAll("[", {'['}) == "" && RemoveAll("]", {'['}) == "]";
    assert RemoveAll(Format(codec, v), {'['}) == j + "]";
    RemoveAllAppend(j, "]", {']'});
    RemoveAllNone(j, {']'});
    assert RemoveAll("]", {']'}) == "";
    assert RemoveAll(j + "]", {']'}) == j;
    forall i | 0 <= i < |ts|
      ensures ',' !in ts[i]
    {
      ShowHasNoComma(codec, v[i]);
    }
    var last := v[|v| - 1];
    assert ts[|ts| - 1] == codec.show(last) != [];
    SplitJoinJava(ts, ',');
  }

  /** An empty array is written as `[]`, which `nullSafeGet` cannot read:
      the one empty piece does not parse. */
  lemma EmptyArrayNotReadBack(codec: FloatCodec)
    requires ValidCodec(codec)
    ensures Bound(codec, Some([])) == PgObject("vector", "[]")
    ensures ColumnValue(codec, Some("[]")) == Failure(NumberFormatException)
  {
    FormatEmpty(codec);
    assert RemoveAll(RemoveAll("[]", {'['}), {']'}) == "";
    SplitEmpty(',');
    var trimmed := seq(1, i requires 0 <= i < 1 => Trim([""][i]));
    assert trimmed == [""];
    ParseEmptyPiece(codec);
  }

  /** `nullSafeGet`: reads the column and fills a fresh array piece by
      piece; the array's contents are the result. */
  method NullSafeGet(codec: FloatCodec, pgVector: Option<string>)
    returns (r: Result<Option<seq<Float32>>, ParseError>)
    ensures r == ColumnValue(codec, pgVector)
  {
    if pgVector.None? {
      return Success(None);
    }
    var values := Split(RemoveAll(RemoveAll(pgVector.value, {'['}), {']'}), ',');
    ghost var trimmed := seq(|values|, i requires 0 <= i < |values| => Trim(values[i]));
    var result := new Float32[|values|];
    for i := 0 to |values|
      invariant forall k :: 0 <= k < i ==> codec.parse(trimmed[k]) == Some(result[k])
    {
      var parsed := codec.parse(Trim(values[i]));
      if parsed.None? {
        assert codec.parse(trimmed[i]).None?;
        return Failure(NumberFormatException);
      }
      result[i] := parsed.value;
    }
    ghost var p := ParseAll(codec, trimmed);
    assert p.Some?;
    forall k | 0 <= k < |values|
      ensures p.value[k] == result[k]
    {
      assert codec.parse(trimmed[k]) == Some(p.value[k]);
    }
    assert p.value == result[..];
    r := Success(Some(result[..]));
  }

  /** `nullSafeSet`: binds SQL NULL for a null array, otherwise a `vector`
      object holding the literal built in a loop. */
  method NullSafeSet(codec: FloatCodec, value: array?<Float32>) returns (b: Binding)
    ensures b == Bound(codec, Entities.Contents(value))
  {
    if value == null {
      return SqlNull(OTHER);
    }
    var sb := "[";
    for i := 0 to value.Length
      invariant sb == "[" + Join(Shows(codec, value[..i]), ",")
    {
      FormatStep(codec, value[..], i);
      assert value[..][..i] == value[..i] && value[..][..i + 1] == value[..i + 1];
      if i > 0 {
        sb := sb + ",";
      }
      sb := sb + codec.show(value[i]);
    }
    assert value[..value.Length] == value[..];
    sb := sb + "]";
    return PgObject("vector", sb);
  }

  /** `deepCopy`: null stays null; an array is cloned into a fresh one. */
  method DeepCopy(value: array?<Float32>) returns (r: array?<Float32>)
    ensures value == null <==> r == null
    ensures value != null ==> fresh(r) && r[..] == value[..]
    ensures Equals(Entities.Contents(r), Entities.Contents(value))
  {
    if value == null {
      return null;
    }
    r := new Float32[value.Length](i requires 0 <= i < value.Length reads value => value[i]);
    assert r[..] == value[..];
  }

  /** `disassemble`: the cached form is a deep copy. */
  method Disassemble(value: array?<Float32>) returns (r: array?<Float32>)
    ensures value == null <==> r == null
    ensures value != null ==> fresh(r) && r[..] == value[..]
  {
    r := DeepCopy(value);
  }

  /** `assemble`: the value rebuilt from the cache is a deep copy. */
  method Assemble(cached: array?<Float32>) returns (r: array?<Float32>)
    ensures cached == null <==> r == null
    ensures cached != null ==> fresh(r) && r[..] == cached[..]
  {
    r := DeepCopy(cached);
  }
}
