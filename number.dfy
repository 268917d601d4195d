/**
 * Fixed-width scalars read from little-endian bytes: the `Number` capability
 * the converter is generic over (`num_bytes` and `from_le_bytes`).
 * Integers decode to their value; floats decode to their IEEE-754 bit
 * pattern, which is what a little-endian reinterpretation of the bytes gives.
 */
module Number {
  import opened Wrappers

  /** One byte of a file. */
  newtype Byte = x: int | 0 <= x < 256

  /** The element types a dataset can be stored in. */
  datatype ElementType = U8 | I8 | U16 | I16 | U32 | I32 | U64 | I64 | F32 | F64

  /** A decoded scalar: an integer by value, a float by its bit pattern. */
  datatype Scalar = Int(value: int) | Float(bits: nat)

  /** `T::num_bytes()`. */
  function NumBytes(t: ElementType): (w: nat)
    ensures w > 0
  {
    match t
    case U8 | I8 => 1
    case U16 | I16 => 2
    case U32 | I32 | F32 => 4
    case U64 | I64 | F64 => 8
  }

  predicate IsSigned(t: ElementType) {
    t == I8 || t == I16 || t == I32 || t == I64
  }

  predicate IsFloat(t: ElementType) {
    t == F32 || t == F64
  }

  /** 256 to the power n: the number of distinct n-byte patterns. */
  function Pow256(n: nat): (p: nat)
    ensures p > 0
  {
    if n == 0 then 1 else 256 * Pow256(n - 1)
  }

  /** The least value above the range of the signed type of width `w` bytes. */
  function SignBound(w: nat): (h: nat)
    requires w > 0
    ensures 2 * h == Pow256(w)
  {
    128 * Pow256(w - 1)
  }

  /** The unsigned number the bytes spell, least significant byte first. */
  function LeValue(bytes: seq<Byte>): (v: nat)
    ensures v < Pow256(|bytes|)
  {
    if |bytes| == 0 then 0 else bytes[0] as nat + 256 * LeValue(bytes[1..])
  }

  /** The `n` little-endian bytes of `v`, least significant first. */
  function LeBytes(v: nat, n: nat): (bytes: seq<Byte>)
    requires v < Pow256(n)
    ensures |bytes| == n && LeValue(bytes) == v
  {
    if n == 0 then []
    else
      var bytes := [(v % 256) as Byte] + LeBytes(v / 256, n - 1);
      assert bytes[1..] == LeBytes(v / 256, n - 1);
      bytes
  }

  /** The low byte and the remaining value of `b + 256 * q`. */
  lemma LowByte(b: nat, q: nat)
    requires b < 256
    ensures (b + 256 * q) % 256 == b && (b + 256 * q) / 256 == q
  {
  }

  /** Every byte sequence is the little-endian spelling of its own value. */
  lemma {:induction false} LeBytesOfValue(bytes: seq<Byte>)
    ensures LeBytes(LeValue(bytes), |bytes|) == bytes
  {
    if |bytes| > 0 {
      LeBytesOfValue(bytes[1..]);
      LowByte(bytes[0] as nat, LeValue(bytes[1..]));
      assert bytes == [bytes[0]] + bytes[1..];
    }
  }

  /** Whether `s` is a value of element type `t`. */
  predicate InRange(t: ElementType, s: Scalar) {
    var w := NumBytes(t);
    if IsFloat(t) then s.Float? && s.bits < Pow256(w)
    else if IsSigned(t) then s.Int? && -(SignBound(w) as int) <= s.value < SignBound(w)
    else s.Int? && 0 <= s.value < Pow256(w)
  }

  /** The scalar that exactly `NumBytes(t)` little-endian bytes encode (two's complement for signed types). */
  function Decode(t: ElementType, bytes: seq<Byte>): (s: Scalar)
    requires |bytes| == NumBytes(t)
    ensures InRange(t, s)
  {
    var u := LeValue(bytes);
    if IsFloat(t) then Float(u)
    else if IsSigned(t) && u >= SignBound(|bytes|) then Int(u - Pow256(|bytes|))
    else Int(u)
  }

  /** The little-endian bytes of a scalar: the inverse of `Decode`. */
  function Encode(t: ElementType, s: Scalar): (bytes: seq<Byte>)
    requires InRange(t, s)
    ensures |bytes| == NumBytes(t)
  {
    var w := NumBytes(t);
    match s
    case Float(b) => LeBytes(b, w)
    case Int(v) => LeBytes(if v < 0 then v + Pow256(w) else v, w)
  }

  /** Encoding a decoded scalar gives back the bytes it was decoded from. */
  lemma EncodeDecode(t: ElementType, bytes: seq<Byte>)
    requires |bytes| == NumBytes(t)
    ensures Encode(t, Decode(t, bytes)) == bytes
  {
    LeBytesOfValue(bytes);
  }

  /** Decoding an encoded scalar gives back the scalar: no value is lost. */
  lemma DecodeEncode(t: ElementType, s: Scalar)
    requires InRange(t, s)
    ensures Decode(t, Encode(t, s)) == s
  {
  }

  /** The error `from_le_bytes` reports for a slice of the wrong length. */
  const WidthMismatch: string := "byte slice length does not match the element width"

  /**
   * `T::from_le_bytes`: decodes one scalar, and fails unless it is given
   * exactly `NumBytes(t)` bytes.
   */
  function FromLeBytes(t: ElementType, bytes: seq<Byte>): (r: Result<Scalar, string>)
    ensures r.Ok? <==> |bytes| == NumBytes(t)
  {
    if |bytes| == NumBytes(t) then Ok(Decode(t, bytes))
    else Err(WidthMismatch)
  }

  /** The scalar `from_le_bytes` returns is a value of the element type, and re-encodes to the bytes it was read from. */
  lemma FromLeBytesValue(t: ElementType, bytes: seq<Byte>)
    requires |bytes| == NumBytes(t)
    ensures InRange(t, FromLeBytes(t, bytes).value) && Encode(t, FromLeBytes(t, bytes).value) == bytes
  {
    EncodeDecode(t, bytes);
  }

  /** `from_le_bytes` reads back the scalar whose bytes it is given. */
  lemma FromLeBytesEncode(t: ElementType, s: Scalar)
    requires InRange(t, s)
    ensures FromLeBytes(t, Encode(t, s)) == Ok(s)
  {
    DecodeEncode(t, s);
  }
}
