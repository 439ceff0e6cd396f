/** The values an inibin map holds. */
module Values {

  import opened LittleEndian

  /** A 32-bit float, kept symbolically: the model does no float arithmetic,
      it records the wire bits and the scaling the reader applies to them. */
  datatype Float32 =
    | Bits(pattern: u32)        // the IEEE 754 single whose bit pattern is `pattern`
    | BitsDivTen(pattern: u32)  // that single divided by 10.0
    | ByteTenth(raw: u8)        // `f32::from(raw) * 0.1`

  /** `Value`: one constructor per variant of the source's enum.  The
      `From<i8>`, `From<i16>`, `From<i32>`, `From<f32>`, `From<bool>` and
      `From<String>` conversions are the constructors themselves. */
  datatype Value =
    | I8(v8: i8)
    | I16(v16: i16)
    | I32(v32: i32)
    | I64(v64: i64)
    | F32(f: Float32)
    | Bool(b: bool)
    | Vec(elems: seq<Float32>)
    | String(utf8: seq<u8>)

  /** `From<[f32; N]>` for N = 2, 3, 4: the array's elements, in order, as a `Vec`. */
  function FromArray(a: seq<Float32>): (v: Value)
    requires 2 <= |a| <= 4
    ensures v.Vec? && |v.elems| == |a|
    ensures forall i | 0 <= i < |a| :: v.elems[i] == a[i]
  {
    Vec(a)
  }
}
