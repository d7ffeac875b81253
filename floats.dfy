/** IEEE-754 values as the code handles them: by bit pattern, never by
    arithmetic.  Java's `float` and numpy's `float32` are `Float32`; the
    JSON numbers the embedding service sends back are Java `Double`s,
    `Float64`.  The decimal text of a float (Java's `Float.toString` and
    `Float.parseFloat`) is not modelled digit by digit: a `FloatCodec` stands
    for it, and `ValidCodec` states the promises of those two library calls
    that the code relies on. */
module Floats {
  import opened Wrappers

  type Float32 = bv32
  type Float64 = bv64

  const CANONICAL_NAN: Float32 := 0x7fc0_0000

  /** All exponent bits set and a non-zero fraction. */
  predicate IsNaN(f: Float32) {
    f & 0x7f80_0000 == 0x7f80_0000 && f & 0x007f_ffff != 0
  }

  /** Java's `Float.floatToIntBits`: the bit pattern, with every NaN collapsed
      to the one canonical NaN.  `Arrays.equals` and `Arrays.hashCode` on
      `float[]` compare and hash these. */
  function FloatToIntBits(f: Float32): (b: Float32)
    ensures IsNaN(b) <==> IsNaN(f)
    ensures !IsNaN(f) ==> b == f
  {
    if IsNaN(f) then CANONICAL_NAN else f
  }

  /** Collapsing NaNs twice is collapsing them once. */
  lemma FloatToIntBitsIdempotent(f: Float32)
    ensures FloatToIntBits(FloatToIntBits(f)) == FloatToIntBits(f)
  {
    if IsNaN(f) {
      assert IsNaN(CANONICAL_NAN);
    }
  }

  /** `show` is `Float.toString`, `parse` is `Float.parseFloat`, which either
      returns a value or throws `NumberFormatException` (`None`). */
  datatype FloatCodec = FloatCodec(show: Float32 -> string, parse: string -> Option<Float32>)

  /** Characters `Float.toString` never writes: nothing at or below a space
      (so `trim` leaves its output alone), and neither the separator `,` nor
      the brackets of a vector literal. */
  predicate LiteralChar(c: char) {
    c > ' ' && c != ',' && c != '[' && c != ']'
  }

  /** What the library promises about the codec: the text of a float is
      non-empty and made of `LiteralChar`s, parsing it back gives the same
      float up to the NaN payload, and the empty string does not parse. */
  ghost predicate ValidCodec(codec: FloatCodec) {
    && (forall f :: codec.parse(codec.show(f)) == Some(FloatToIntBits(f)))
    && (forall f :: codec.show(f) != [])
    && (forall f, i :: 0 <= i < |codec.show(f)| ==> LiteralChar(codec.show(f)[i]))
    && codec.parse("") == None
  }
}
