/** `IniBin`: the reader that turns an inibin buffer into its insertion-ordered
    map, proved to compute what module Format specifies. */
module Parser {

  import opened Results
  import opened Bits
  import opened LittleEndian
  import opened OrderedMap
  import opened Values
  import opened Format
  import opened Cursor
  import Utf8

  /** The entries an `IndexMap` with key order `keys` and values `values` iterates over. */
  function EntriesOf(keys: seq<u32>, values: map<u32, Value>): (es: Entries)
    requires forall k | k in keys :: k in values
    ensures Keys(es) == keys
  {
    seq(|keys|, i requires 0 <= i < |keys| => Entry(keys[i], values[keys[i]]))
  }

  /** A reader's outcome `res`, with the map `es` and position `pos` it left,
      is the one `spec` describes. */
  ghost predicate Agrees(res: Result<()>, es: Entries, pos: nat, spec: Result<State>) {
    match spec
    case Ok(s) => res == Ok(()) && es == s.entries && pos == s.pos
    case Err(e) => res == Err(e)
  }

  /** A constructor's outcome `res` is the parse `spec` describes. */
  ghost predicate Built(res: Result<IniBin>, spec: Result<Entries>)
    reads if res.Ok? then {res.value} else {}
  {
    match spec
    case Ok(es) => res.Ok? && res.value.Valid() && res.value.Entries() == es
    case Err(e) => res == Err(e)
  }

  /** How far `read_section_numbers` has got after `i` keys: the cursor
      `pos` past their payloads and `es` the map with them inserted. */
  ghost predicate NumbersProgress(kind: NumKind, keys: seq<u32>, data: seq<u8>, start: nat, es0: Entries,
                                  i: nat, pos: nat, es: Entries)
  {
    && i <= |keys|
    && pos == start + i * Width(kind) <= |data|
    && es == InsertAll(es0, Payloads(kind, keys[..i], data, start))
  }

  /** One key of `read_section_numbers`: its payload is the next `Width(kind)` bytes. */
  lemma NumbersProgressStep(kind: NumKind, keys: seq<u32>, data: seq<u8>, start: nat, es0: Entries,
                            i: nat, pos: nat, es: Entries)
    requires i < |keys| && NumbersProgress(kind, keys, data, start, es0, i, pos, es)
    requires pos + Width(kind) <= |data|
    ensures NumbersProgress(kind, keys, data, start, es0, i + 1, pos + Width(kind),
                            OrderedMap.Insert(es, keys[i], Payload(kind, data, pos)))
  {
    PayloadsSnoc(kind, keys, i, data, start);
    InsertAllSnoc(es0, Payloads(kind, keys[..i], data, start), Entry(keys[i], Payload(kind, data, pos)));
  }

  /** How far `read_section_bools` has got after `i` keys: the cursor `pos`
      past the bytes they use, `b` the byte of key `i`'s group when that group
      is already started, and `es` the map with their flags inserted. */
  ghost predicate BoolsProgress(keys: seq<u32>, data: seq<u8>, start: nat, es0: Entries,
                                i: nat, pos: nat, b: u8, es: Entries)
  {
    && i <= |keys|
    && pos == start + PackedBytes(i) <= |data|
    && (i % 8 != 0 ==> b == data[start + i / 8])
    && es == InsertAll(es0, Flags(keys[..i], data, start))
  }

  /** One key of `read_section_bools`: the byte read when a group of 8 starts
      (or the one kept otherwise) supplies the key's flag. */
  lemma BoolsProgressStep(keys: seq<u32>, data: seq<u8>, start: nat, es0: Entries,
                          i: nat, pos: nat, b: u8, es: Entries, b': u8)
    requires i < |keys| && BoolsProgress(keys, data, start, es0, i, pos, b, es)
    requires i % 8 == 0 ==> pos < |data| && b' == data[pos]
    requires i % 8 != 0 ==> b' == b
    ensures BoolsProgress(keys, data, start, es0, i + 1, pos + (if i % 8 == 0 then 1 else 0), b',
                          OrderedMap.Insert(es, keys[i], Bool(BitSet(b', i % 8))))
  {
    PackedBytesStep(i);
    assert b' == data[start + i / 8];
    FlagsSnoc(keys, i, data, start);
    InsertAllSnoc(es0, Flags(keys[..i], data, start), Entry(keys[i], Bool(BitSet(b', i % 8))));
  }

  class IniBin {
    /** The `IndexMap<u32, Value>`: its keys in insertion order and the key-to-value table. */
    var keys: seq<u32>
    var values: map<u32, Value>

    ghost predicate Valid()
      reads this
    {
      && Distinct(keys)
      && forall k :: k in values <==> k in keys
    }

    /** The map as the ordered list of entries it iterates over. */
    ghost function Entries(): Entries
      reads this
      requires Valid()
    {
      EntriesOf(keys, values)
    }

    /** `IniBin { map: IndexMap::with_capacity(..) }`: the capacity is not modelled. */
    constructor ()
      ensures Valid() && Entries() == []
    {
      keys := [];
      values := map[];
    }

    /** `self.map.insert(key, value)`. */
    method Insert(key: u32, value: Value)
      requires Valid()
      modifies this
      ensures Valid()
      ensures Entries() == OrderedMap.Insert(old(Entries()), key, value)
    {
      ghost var es := Entries();
      if key in values {
        ghost var j :| 0 <= j < |keys| && keys[j] == key;
        InsertReplaces(es, j, value);
        values := values[key := value];
        assert Entries() == es[j := Entry(key, value)];
      } else {
        InsertAppends(es, key, value);
        keys := keys + [key];
        values := values[key := value];
        assert Entries() == es + [Entry(key, value)];
      }
    }

    /** `read_keys`: a `u16` count, then that many `u32` keys in wire order. */
    static method ReadKeys(r: Reader) returns (res: Result<seq<u32>>)
      modifies r
      ensures match KeyList(r.data, old(r.pos))
        case Ok((ks, next)) => res == Ok(ks) && r.pos == next
        case Err(e) => res == Err(e)
    {
      var count :- r.ReadU16();
      var ks: seq<u32> := [];
      for i := 0 to count
        invariant r.pos == old(r.pos) + 2 + 4 * i <= |r.data|
        invariant ks == KeysAt(r.data, old(r.pos) + 2, i)
      {
        var key :- r.ReadU32();
        ks := ks + [key];
      }
      return Ok(ks);
    }

    /** One payload of a numeric section: the closure `from_v2` passes to
        `read_section_numbers` for the section of this kind. */
    static method ReadPayload(r: Reader, kind: NumKind) returns (res: Result<Value>)
      modifies r
      ensures old(r.pos) + Width(kind) <= |r.data| ==>
        res == Ok(Payload(kind, r.data, old(r.pos))) && r.pos == old(r.pos) + Width(kind)
      ensures |r.data| < old(r.pos) + Width(kind) ==> res == Err(UnexpectedEof)
    {
      match kind
      case I32Num =>
        var x :- r.ReadI32();
        res := Ok(I32(x));
      case F32Num =>
        var f :- r.ReadF32();
        res := Ok(F32(f));
      case F32Div10 =>
        var f :- r.ReadF32();
        res := Ok(F32(BitsDivTen(f.pattern)));
      case I16Num =>
        var x :- r.ReadI16();
        res := Ok(I16(x));
      case I8Num =>
        var x :- r.ReadI8();
        res := Ok(I8(x));
      case Vec2Tenths => res := ReadTenths(r, kind);
      case Vec3Tenths => res := ReadTenths(r, kind);
      case Vec4Tenths => res := ReadTenths(r, kind);
      case Vec2 => res := ReadFloats(r, kind);
      case Vec3 => res := ReadFloats(r, kind);
      case Vec4 => res := ReadFloats(r, kind);
    }

    /** One payload of a `*_DIV_10` vector section: the closures `from_v2`
        passes for bits 6, 8 and 10, two to four bytes each scaled by 0.1. */
    static method ReadTenths(r: Reader, kind: NumKind) returns (res: Result<Value>)
      requires kind == Vec2Tenths || kind == Vec3Tenths || kind == Vec4Tenths
      modifies r
      ensures old(r.pos) + Width(kind) <= |r.data| ==>
        res == Ok(Payload(kind, r.data, old(r.pos))) && r.pos == old(r.pos) + Width(kind)
      ensures |r.data| < old(r.pos) + Width(kind) ==> res == Err(UnexpectedEof)
    {
      match kind
      case Vec3Tenths =>
        var a :- r.ReadU8();
        var b :- r.ReadU8();
        var c :- r.ReadU8();
        assert [ByteTenth(a), ByteTenth(b), ByteTenth(c)] == Tenths(r.data, old(r.pos), 3);
        res := Ok(FromArray([ByteTenth(a), ByteTenth(b), ByteTenth(c)]));
      case Vec2Tenths =>
        var a :- r.ReadU8();
        var b :- r.ReadU8();
        assert [ByteTenth(a), ByteTenth(b)] == Tenths(r.data, old(r.pos), 2);
        res := Ok(FromArray([ByteTenth(a), ByteTenth(b)]));
      case Vec4Tenths =>
        var a :- r.ReadU8();
        var b :- r.ReadU8();
        var c :- r.ReadU8();
        var d :- r.ReadU8();
        assert [ByteTenth(a), ByteTenth(b), ByteTenth(c), ByteTenth(d)] == Tenths(r.data, old(r.pos), 4);
        res := Ok(FromArray([ByteTenth(a), ByteTenth(b), ByteTenth(c), ByteTenth(d)]));
    }

    /** One payload of a float vector section: the closures `from_v2` passes
        for bits 7, 9 and 11, two to four little-endian floats. */
    static method ReadFloats(r: Reader, kind: NumKind) returns (res: Result<Value>)
      requires kind == Vec2 || kind == Vec3 || kind == Vec4
      modifies r
      ensures old(r.pos) + Width(kind) <= |r.data| ==>
        res == Ok(Payload(kind, r.data, old(r.pos))) && r.pos == old(r.pos) + Width(kind)
      ensures |r.data| < old(r.pos) + Width(kind) ==> res == Err(UnexpectedEof)
    {
      match kind
      case Vec3 =>
        var a :- r.ReadF32();
        var b :- r.ReadF32();
        var c :- r.ReadF32();
        assert [a, b, c] == Floats(r.data, old(r.pos), 3);
        res := Ok(FromArray([a, b, c]));
      case Vec2 =>
        var a :- r.ReadF32();
        var b :- r.ReadF32();
        assert [a, b] == Floats(r.data, old(r.pos), 2);
        res := Ok(FromArray([a, b]));
      case Vec4 =>
        var a :- r.ReadF32();
        var b :- r.ReadF32();
        var c :- r.ReadF32();
        var d :- r.ReadF32();
        assert [a, b, c, d] == Floats(r.data, old(r.pos), 4);
        res := Ok(FromArray([a, b, c, d]));
    }

    /** `read_section_numbers`: the key list, then one payload per key,
        each inserted as it is read. */
    method ReadSectionNumbers(r: Reader, kind: NumKind) returns (res: Result<()>)
      requires Valid()
      modifies this, r
      ensures Valid()
      ensures Agrees(res, Entries(), r.pos, NumbersSection(r.data, old(r.pos), kind, old(Entries())))
    {
      ghost var es0, data := Entries(), r.data;
      var keys :- ReadKeys(r);
      ghost var start := r.pos;
      for i := 0 to |keys|
        invariant Valid()
        invariant NumbersProgress(kind, keys, data, start, es0, i, r.pos, Entries())
      {
        ghost var pos0 := r.pos;
        var read := ReadPayload(r, kind);
        if read.Err? {
          NumbersSectionTruncated(data, old(r.pos), kind, es0, keys, start, i);
          return Err(read.error);
        }
        NumbersProgressStep(kind, keys, data, start, es0, i, pos0, Entries());
        Insert(keys[i], read.value);
      }
      assert keys[..|keys|] == keys;
      NumbersSectionComplete(data, old(r.pos), kind, es0, keys, start);
      return Ok(());
    }

    /** `read_section_bools`: the key list, then the packed bytes, a new one
        read at the start of every group of 8 keys. */
    method ReadSectionBools(r: Reader) returns (res: Result<()>)
      requires Valid()
      modifies this, r
      ensures Valid()
      ensures Agrees(res, Entries(), r.pos, BoolsSection(r.data, old(r.pos), old(Entries())))
    {
      ghost var es0, data := Entries(), r.data;
      var keys :- ReadKeys(r);
      ghost var start := r.pos;
      var b: u8 := 0;
      for i := 0 to |keys|
        invariant Valid()
        invariant BoolsProgress(keys, data, start, es0, i, r.pos, b, Entries())
      {
        ghost var pos0, b0 := r.pos, b;
        var idx := i % 8;
        if idx == 0 {
          var read := r.ReadU8();
          if read.Err? {
            PackedBytesStep(i);
            BoolsSectionTruncated(data, old(r.pos), es0, keys, start, i);
            return Err(read.error);
          }
          b := read.value;
        }
        BoolsProgressStep(keys, data, start, es0, i, pos0, b0, Entries(), b);
        Insert(keys[i], Bool(BitSet(b, idx)));
      }
      assert keys[..|keys|] == keys;
      BoolsSectionComplete(data, old(r.pos), es0, keys, start);
      return Ok(());
    }
    /** `read_string`: the bytes of `buf` before its first NUL (all of them
        when there is none), stored under `key` as a string. Bytes that are
        not UTF-8 end the parse with `InvalidUtf8`, where the source panics. */
    method ReadString(key: u32, buf: seq<u8>) returns (res: Result<()>)
      requires Valid()
      modifies this
      ensures Valid()
      ensures match StoreString(old(Entries()), key, buf)
        case Ok(es) => res == Ok(()) && Entries() == es
        case Err(e) => res == Err(e) && Entries() == old(Entries())
    {
      var end := 0;
      while end < |buf| && buf[end] != 0
        invariant end <= |buf|
        invariant forall j | 0 <= j < end :: buf[j] != 0
      {
        end := end + 1;
      }
      CStrUnique(buf, end);
      var s := buf[..end];
      if !Utf8.Valid(s) {
        return Err(InvalidUtf8);
      }
      Insert(key, String(s));
      return Ok(());
    }

    /** The loop `for (key, offset) in ..` shared by `from_v1` and
        `read_section_strings`: `read_string(key, &buffer[offset..])` for each
        pair in turn; an offset past the end of `buffer` ends the parse with
        `OffsetOutOfRange`, where the source's slice panics. */
    method ReadStrings(pairs: seq<(u32, nat)>, buffer: seq<u8>) returns (res: Result<()>)
      requires Valid()
      modifies this
      ensures Valid()
      ensures match StoreStrings(old(Entries()), pairs, buffer)
        case Ok(es) => res == Ok(()) && Entries() == es
        case Err(e) => res == Err(e)
    {
      ghost var es0 := Entries();
      for i := 0 to |pairs|
        invariant Valid()
        invariant StoreStrings(es0, pairs[..i], buffer) == Ok(Entries())
      {
        StoreStringsSnoc(es0, pairs, i, buffer);
        var (key, offset) := pairs[i];
        if |buffer| < offset {
          StoreStringsStopsAtFailure(es0, pairs, i + 1, buffer);
          return Err(OffsetOutOfRange);
        }
        var stored := ReadString(key, buffer[offset..]);
        if stored.Err? {
          StoreStringsStopsAtFailure(es0, pairs, i + 1, buffer);
          return Err(stored.error);
        }
      }
      assert pairs[..|pairs|] == pairs;
      return Ok(());
    }

    /** `read_section_strings`: the key list, one `u16` offset per key, the
        `str_len` bytes of the string buffer, then one string per key. */
    method ReadSectionStrings(r: Reader, strLen: u16) returns (res: Result<()>)
      requires Valid()
      modifies this, r
      ensures Valid()
      ensures Agrees(res, Entries(), r.pos, StringsSection(r.data, old(r.pos), strLen, old(Entries())))
    {
      ghost var es0, data := Entries(), r.data;
      var keys :- ReadKeys(r);
      ghost var start := r.pos;
      var offsets: seq<u16> := [];
      for i := 0 to |keys|
        modifies r
        invariant r.pos == start + 2 * i <= |data|
        invariant offsets == OffsetsAt(data, start, i)
      {
        var read := r.ReadU16();
        if read.Err? {
          StringsOffsetsTruncated(data, old(r.pos), strLen, es0, keys, start, i);
          return Err(read.error);
        }
        OffsetsAtSnoc(data, start, i);
        offsets := offsets + [read.value];
      }
      var buffer := r.ReadExact(strLen);
      if buffer.Err? {
        StringsBufferTruncated(data, old(r.pos), strLen, es0, keys, start);
        return Err(buffer.error);
      }
      StringsSectionComplete(data, old(r.pos), strLen, es0, keys, start, offsets, buffer.value);
      res := ReadStrings(Zip(keys, offsets), buffer.value);
    }

    /** The reader of the section flag bit `bit` announces: `read_section_numbers`
        with the payload reader of its kind, `read_section_bools` or
        `read_section_strings`. */
    method ReadSection(r: Reader, strLen: u16, bit: nat) returns (res: Result<()>)
      requires Valid() && bit < SectionCount
      modifies this, r
      ensures Valid()
      ensures Agrees(res, Entries(), r.pos, SectionAt(r.data, strLen, bit, State(old(Entries()), old(r.pos))))
    {
      match SectionOf(bit)
      case Numbers(kind) => res := ReadSectionNumbers(r, kind);
      case Bools => res := ReadSectionBools(r);
      case Strings => res := ReadSectionStrings(r, strLen);
    }

    /** One `if is_bit_set(flags, BIT_..) { .. }` step of `from_v2`, from the
        state the sections below `bit` left to the state after `bit`. */
    method ReadFlagged(r: Reader, strLen: u16, flags: u16, bit: nat, ghost init: Result<State>) returns (res: Result<()>)
      requires Valid() && bit < SectionCount
      requires After(r.data, strLen, init, flags, bit) == Ok(State(Entries(), r.pos))
      modifies this, r
      ensures Valid()
      ensures res.Ok? ==> After(r.data, strLen, init, flags, bit + 1) == Ok(State(Entries(), r.pos))
      ensures res.Err? ==> RunSections(r.data, strLen, init, ActiveSections(flags)) == Err(res.error)
    {
      ghost var s := State(Entries(), r.pos);
      AfterStep(r.data, strLen, init, flags, bit);
      if IsBitSet(flags, bit) {
        res := ReadSection(r, strLen, bit);
        if res.Err? {
          AfterStopsAtFailure(r.data, strLen, init, flags, bit + 1);
        }
      } else {
        res := Ok(());
      }
    }

    /** `from_v1`: the entry count, the data count (only a capacity hint),
        the `(key, offset)` table, then the rest of the input as the string
        buffer; every value is a string. */
    static method FromV1(r: Reader) returns (res: Result<IniBin>)
      modifies r
      ensures res.Ok? ==> fresh(res.value)
      ensures Built(res, V1(r.data, old(r.pos)))
    {
      ghost var data := r.data;
      var entryCount :- r.ReadU32();
      var dataCount :- r.ReadU32();
      ghost var start := r.pos;
      var pairs: seq<(u32, nat)> := [];
      for i := 0 to entryCount
        invariant r.pos == start + 8 * i <= |data|
        invariant pairs == PairsAt(data, start, i)
      {
        var key := r.ReadU32();
        if key.Err? {
          V1Truncated(data, old(r.pos), i);
          return Err(key.error);
        }
        var offset := r.ReadU32();
        if offset.Err? {
          V1Truncated(data, old(r.pos), i);
          return Err(offset.error);
        }
        PairsAtSnoc(data, start, i);
        pairs := pairs + [(key.value, offset.value as nat)];
      }
      var buffer := r.ReadToEnd();
      V1Complete(data, old(r.pos), pairs, buffer);
      var inibin := new IniBin();
      var stored := inibin.ReadStrings(pairs, buffer);
      if stored.Err? {
        return Err(stored.error);
      }
      return Ok(inibin);
    }

    /** `from_v2`: the string-buffer length, the section flags, then each
        section whose flag bit is set, in ascending bit order; bits 13 to 15
        are never consulted. */
    static method FromV2(r: Reader) returns (res: Result<IniBin>)
      modifies r
      ensures res.Ok? ==> fresh(res.value)
      ensures Built(res, V2(r.data, old(r.pos)))
    {
      ghost var data := r.data;
      var inibin := new IniBin();
      var strLen :- r.ReadU16();
      var flags :- r.ReadU16();
      var done := inibin.ReadSections(r, strLen, flags, Ok(State([], r.pos)));
      if done.Err? {
        return Err(done.error);
      }
      return Ok(inibin);
    }

    /** The thirteen `if is_bit_set(flags, BIT_..) { .. }` blocks of
        `from_v2`, in ascending bit order, stopping at the first failure. */
    method ReadSections(r: Reader, strLen: u16, flags: u16, ghost init: Result<State>) returns (res: Result<()>)
      requires Valid() && init == Ok(State(Entries(), r.pos))
      modifies this, r
      ensures Valid()
      ensures Agrees(res, Entries(), r.pos, RunSections(r.data, strLen, init, ActiveSections(flags)))
    {
      res := ReadScalarSections(r, strLen, flags, init);
      if res.Err? { return; }
      res := ReadArrayAndStringSections(r, strLen, flags, init);
      if res.Err? { return; }
      assert ActiveSections(flags) == ActiveBelow(flags, SectionCount);
      res := Ok(());
    }

    /** The blocks for bits 0 to 5: the `i32`, `f32`, `f32 / 10`, `i16`, `i8` and boolean sections. */
    method ReadScalarSections(r: Reader, strLen: u16, flags: u16, ghost init: Result<State>) returns (res: Result<()>)
      requires Valid() && After(r.data, strLen, init, flags, BitI32) == Ok(State(Entries(), r.pos))
      modifies this, r
      ensures Valid()
      ensures res.Ok? ==> After(r.data, strLen, init, flags, BitBool + 1) == Ok(State(Entries(), r.pos))
      ensures res.Err? ==> RunSections(r.data, strLen, init, ActiveSections(flags)) == Err(res.error)
    {
      res := ReadFlagged(r, strLen, flags, BitI32, init);
      if res.Err? { return; }
      res := ReadFlagged(r, strLen, flags, BitF32, init);
      if res.Err? { return; }
      res := ReadFlagged(r, strLen, flags, BitF32Div10, init);
      if res.Err? { return; }
      res := ReadFlagged(r, strLen, flags, BitI16, init);
      if res.Err? { return; }
      res := ReadFlagged(r, strLen, flags, BitI8, init);
      if res.Err? { return; }
      res := ReadFlagged(r, strLen, flags, BitBool, init);
    }

    /** The blocks for bits 6 to 12: the six array sections and the string section. */
    method ReadArrayAndStringSections(r: Reader, strLen: u16, flags: u16, ghost init: Result<State>) returns (res: Result<()>)
      requires Valid() && After(r.data, strLen, init, flags, BitF32x3Div10) == Ok(State(Entries(), r.pos))
      modifies this, r
      ensures Valid()
      ensures res.Ok? ==> After(r.data, strLen, init, flags, SectionCount) == Ok(State(Entries(), r.pos))
      ensures res.Err? ==> RunSections(r.data, strLen, init, ActiveSections(flags)) == Err(res.error)
    {
      res := ReadFlagged(r, strLen, flags, BitF32x3Div10, init);
      if res.Err? { return; }
      res := ReadFlagged(r, strLen, flags, BitF32x3, init);
      if res.Err? { return; }
      res := ReadFlagged(r, strLen, flags, BitF32x2Div10, init);
      if res.Err? { return; }
      res := ReadFlagged(r, strLen, flags, BitF32x2, init);
      if res.Err? { return; }
      res := ReadFlagged(r, strLen, flags, BitF32x4Div10, init);
      if res.Err? { return; }
      res := ReadFlagged(r, strLen, flags, BitF32x4, init);
      if res.Err? { return; }
      res := ReadFlagged(r, strLen, flags, BitString, init);
    }

    /** `from_reader`: the version byte selects the layout; version 1 first
        seeks over three bytes. */
    static method FromReader(r: Reader) returns (res: Result<IniBin>)
      modifies r
      ensures res.Ok? ==> fresh(res.value)
      ensures Built(res, ParseAt(r.data, old(r.pos)))
    {
      var version :- r.ReadU8();
      if version == 1 {
        r.Skip(3);
        res := FromV1(r);
      } else if version == 2 {
        res := FromV2(r);
      } else {
        res := Err(InvalidData);
      }
    }

    /** `from_bytes`: `from_reader` over a cursor at the start of `data`. */
    static method FromBytes(data: seq<u8>) returns (res: Result<IniBin>)
      ensures res.Ok? ==> fresh(res.value)
      ensures Built(res, Parse(data))
    {
      var r := new Reader(data);
      res := FromReader(r);
    }
  }
}
