/** The byte source the reader pulls from: an `io::Cursor` over the input
    slice, with the `byteorder` little-endian reads used on it. */
module Cursor {

  import opened Results
  import opened LittleEndian
  import opened Values

  class Reader {
    /** The whole input. */
    const data: seq<u8>
    /** The cursor position; a seek may leave it past the end of `data`. */
    var pos: nat

    constructor (data: seq<u8>)
      ensures this.data == data && pos == 0
    {
      this.data := data;
      pos := 0;
    }

    /** `read_exact` into a buffer of `n` bytes: an empty buffer is filled
        without reading, wherever the cursor stands. */
    method ReadExact(n: nat) returns (r: Result<seq<u8>>)
      modifies this
      ensures n == 0 ==> r == Ok([]) && pos == old(pos)
      ensures 0 < n && old(pos) + n <= |data| ==> r == Ok(data[old(pos)..old(pos) + n]) && pos == old(pos) + n
      ensures 0 < n && |data| < old(pos) + n ==> r == Err(UnexpectedEof) && pos == old(pos)
    {
      if n == 0 {
        return Ok([]);
      }
      if |data| < pos + n {
        return Err(UnexpectedEof);
      }
      r := Ok(data[pos..pos + n]);
      pos := pos + n;
    }

    method ReadU8() returns (r: Result<u8>)
      modifies this
      ensures old(pos) + 1 <= |data| ==> r == Ok(data[old(pos)]) && pos == old(pos) + 1
      ensures |data| < old(pos) + 1 ==> r == Err(UnexpectedEof) && pos == old(pos)
    {
      var bytes :- ReadExact(1);
      return Ok(bytes[0]);
    }

    method ReadI8() returns (r: Result<i8>)
      modifies this
      ensures old(pos) + 1 <= |data| ==> r == Ok(I8Of(data[old(pos)])) && pos == old(pos) + 1
      ensures |data| < old(pos) + 1 ==> r == Err(UnexpectedEof) && pos == old(pos)
    {
      var b :- ReadU8();
      return Ok(I8Of(b));
    }

    method ReadU16() returns (r: Result<u16>)
      modifies this
      ensures old(pos) + 2 <= |data| ==> r == Ok(U16At(data, old(pos))) && pos == old(pos) + 2
      ensures |data| < old(pos) + 2 ==> r == Err(UnexpectedEof) && pos == old(pos)
    {
      var bytes :- ReadExact(2);
      return Ok(U16At(bytes, 0));
    }

    method ReadI16() returns (r: Result<i16>)
      modifies this
      ensures old(pos) + 2 <= |data| ==> r == Ok(I16Of(U16At(data, old(pos)))) && pos == old(pos) + 2
      ensures |data| < old(pos) + 2 ==> r == Err(UnexpectedEof) && pos == old(pos)
    {
      var x :- ReadU16();
      return Ok(I16Of(x));
    }

    method ReadU32() returns (r: Result<u32>)
      modifies this
      ensures old(pos) + 4 <= |data| ==> r == Ok(U32At(data, old(pos))) && pos == old(pos) + 4
      ensures |data| < old(pos) + 4 ==> r == Err(UnexpectedEof) && pos == old(pos)
    {
      var bytes :- ReadExact(4);
      return Ok(U32At(bytes, 0));
    }

    method ReadI32() returns (r: Result<i32>)
      modifies this
      ensures old(pos) + 4 <= |data| ==> r == Ok(I32Of(U32At(data, old(pos)))) && pos == old(pos) + 4
      ensures |data| < old(pos) + 4 ==> r == Err(UnexpectedEof) && pos == old(pos)
    {
      var x :- ReadU32();
      return Ok(I32Of(x));
    }

    /** `read_f32::<LE>`: the float is kept as its bit pattern. */
    method ReadF32() returns (r: Result<Float32>)
      modifies this
      ensures old(pos) + 4 <= |data| ==> r == Ok(Bits(U32At(data, old(pos)))) && pos == old(pos) + 4
      ensures |data| < old(pos) + 4 ==> r == Err(UnexpectedEof) && pos == old(pos)
    {
      var x :- ReadU32();
      return Ok(Bits(x));
    }

    /** `seek(SeekFrom::Current(n))`: a cursor may be placed past the end. */
    method Skip(n: nat)
      modifies this
      ensures pos == old(pos) + n
    {
      pos := pos + n;
    }

    /** `read_to_end`: everything from the cursor on. */
    method ReadToEnd() returns (rest: seq<u8>)
      modifies this
      ensures old(pos) <= |data| ==> rest == data[old(pos)..] && pos == |data|
      ensures |data| < old(pos) ==> rest == [] && pos == old(pos)
    {
      if pos <= |data| {
        rest := data[pos..];
        pos := |data|;
      } else {
        rest := [];
      }
    }
  }
}
