/** Fixed-width integers and their little-endian wire encoding, as the
    `byteorder` reads (`read_u16::<LE>`, `read_u32::<LE>`, `read_i32::<LE>`, ...)
    decode them.  Integers are unbounded in Dafny; each width is a subset type. */
module LittleEndian {

  import opened Arithmetic

  type u8 = x: int | 0 <= x < 0x100
  type u16 = x: int | 0 <= x < 0x1_0000
  type u32 = x: int | 0 <= x < 0x1_0000_0000
  type i8 = x: int | -0x80 <= x < 0x80
  type i16 = x: int | -0x8000 <= x < 0x8000
  type i32 = x: int | -0x8000_0000 <= x < 0x8000_0000
  type i64 = x: int | -0x8000_0000_0000_0000 <= x < 0x8000_0000_0000_0000

  /** The unsigned 16-bit value stored little-endian at `data[pos..pos + 2]`. */
  function U16At(data: seq<u8>, pos: nat): u16
    requires pos + 2 <= |data|
  {
    data[pos] as int + 0x100 * data[pos + 1] as int
  }

  /** The unsigned 32-bit value stored little-endian at `data[pos..pos + 4]`. */
  function U32At(data: seq<u8>, pos: nat): u32
    requires pos + 4 <= |data|
  {
    data[pos] as int + 0x100 * (data[pos + 1] as int + 0x100 * (data[pos + 2] as int + 0x100 * data[pos + 3] as int))
  }

  /** Two's-complement reading of a byte (`read_i8`): the one `i8` congruent to it modulo 2^8. */
  function I8Of(x: u8): (r: i8)
    ensures (x - r) % 0x100 == 0
    ensures r < 0 <==> x >= 0x80
  {
    if x < 0x80 then x else x - 0x100
  }

  /** Two's-complement reading of 16 bits (`read_i16`). */
  function I16Of(x: u16): (r: i16)
    ensures (x - r) % 0x1_0000 == 0
    ensures r < 0 <==> x >= 0x8000
  {
    if x < 0x8000 then x else x - 0x1_0000
  }

  /** Two's-complement reading of 32 bits (`read_i32`). */
  function I32Of(x: u32): (r: i32)
    ensures (x - r) % 0x1_0000_0000 == 0
    ensures r < 0 <==> x >= 0x8000_0000
  {
    if x < 0x8000_0000 then x else x - 0x1_0000_0000
  }

  /** The little-endian encoding of a 16-bit value, the inverse of `U16At`. */
  function U16Le(x: u16): (s: seq<u8>)
    ensures |s| == 2
  {
    [x % 0x100, x / 0x100]
  }

  /** The little-endian encoding of a 32-bit value, the inverse of `U32At`. */
  function U32Le(x: u32): (s: seq<u8>)
    ensures |s| == 4
  {
    [x % 0x100, (x / 0x100) % 0x100, (x / 0x1_0000) % 0x100, x / 0x100_0000]
  }

  lemma U16RoundTrip(x: u16)
    ensures U16At(U16Le(x), 0) == x
  {
  }

  lemma U16Canonical(data: seq<u8>, pos: nat)
    requires pos + 2 <= |data|
    ensures U16Le(U16At(data, pos)) == data[pos..pos + 2]
  {
  }

  lemma U32RoundTrip(x: u32)
    ensures U32At(U32Le(x), 0) == x
  {
    var q1, b0 := x / 0x100, x % 0x100;
    var q2, b1 := q1 / 0x100, q1 % 0x100;
    var b3, b2 := q2 / 0x100, q2 % 0x100;
    assert x == q1 * 0x100 + b0 && q1 == q2 * 0x100 + b1 && q2 == b3 * 0x100 + b2;
    DivModUnique(x, 0x1_0000, q2, b0 + 0x100 * b1);
    DivModUnique(x, 0x100_0000, b3, b0 + 0x100 * b1 + 0x1_0000 * b2);
    assert U32Le(x) == [b0, b1, b2, b3];
  }

  lemma U32Canonical(data: seq<u8>, pos: nat)
    requires pos + 4 <= |data|
    ensures U32Le(U32At(data, pos)) == data[pos..pos + 4]
  {
    var b0: int, b1: int, b2: int, b3: int := data[pos], data[pos + 1], data[pos + 2], data[pos + 3];
    var x := U32At(data, pos);
    var y := b1 + 0x100 * (b2 + 0x100 * b3);
    var z := b2 + 0x100 * b3;
    DivModUnique(x, 0x100, y, b0);
    DivModUnique(y, 0x100, z, b1);
    DivModUnique(z, 0x100, b3, b2);
    DivModUnique(x, 0x1_0000, z, b0 + 0x100 * b1);
    DivModUnique(x, 0x100_0000, b3, b0 + 0x100 * b1 + 0x1_0000 * b2);
  }
}
