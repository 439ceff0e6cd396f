/** The inibin format as pure functions: what `IniBin::from_bytes` computes
    from a byte buffer, stated one layout and one section at a time.  The
    reader in module Parser is proved to compute exactly this. */
module Format {

  import opened Results
  import opened Arithmetic
  import opened LittleEndian
  import opened Bits
  import opened OrderedMap
  import opened Values
  import Utf8

  type Entries = seq<Entry<u32, Value>>

  /** Where the reader stands: the map built so far and the cursor position. */
  datatype State = State(entries: Entries, pos: nat)

  // Bit positions in the flags word of the typed layout, one per section.
  const BitI32: nat := 0
  const BitF32: nat := 1
  const BitF32Div10: nat := 2
  const BitI16: nat := 3
  const BitI8: nat := 4
  const BitBool: nat := 5
  const BitF32x3Div10: nat := 6
  const BitF32x3: nat := 7
  const BitF32x2Div10: nat := 8
  const BitF32x2: nat := 9
  const BitF32x4Div10: nat := 10
  const BitF32x4: nat := 11
  const BitString: nat := 12

  /** Number of sections the typed layout knows; higher flag bits are never looked at. */
  const SectionCount: nat := 13

  /** `is_bit_set(flags, bit)`: `flags & (1 << bit) != 0`. */
  predicate IsBitSet(flags: u16, bit: nat)
    requires bit < 16
  {
    BitSet(flags, bit)
  }

  /** The payload reader of a numeric or vector section: one of the closures
      passed to `read_section_numbers`. */
  datatype NumKind =
    | I32Num | F32Num | F32Div10 | I16Num | I8Num
    | Vec3Tenths | Vec3 | Vec2Tenths | Vec2 | Vec4Tenths | Vec4

  datatype Section = Numbers(kind: NumKind) | Bools | Strings

  /** The section that flag bit `bit` announces. */
  function SectionOf(bit: nat): Section
    requires bit < SectionCount
  {
    match bit
    case 0 => Numbers(I32Num)
    case 1 => Numbers(F32Num)
    case 2 => Numbers(F32Div10)
    case 3 => Numbers(I16Num)
    case 4 => Numbers(I8Num)
    case 5 => Bools
    case 6 => Numbers(Vec3Tenths)
    case 7 => Numbers(Vec3)
    case 8 => Numbers(Vec2Tenths)
    case 9 => Numbers(Vec2)
    case 10 => Numbers(Vec4Tenths)
    case 11 => Numbers(Vec4)
    case _ => Strings
  }

  /** Bytes one payload of this kind occupies on the wire. */
  function Width(kind: NumKind): nat {
    match kind
    case I32Num => 4
    case F32Num => 4
    case F32Div10 => 4
    case I16Num => 2
    case I8Num => 1
    case Vec3Tenths => 3
    case Vec3 => 12
    case Vec2Tenths => 2
    case Vec2 => 8
    case Vec4Tenths => 4
    case Vec4 => 16
  }

  /** Number of floats in a vector payload, 0 for a scalar one. */
  function VectorLength(kind: NumKind): nat {
    match kind
    case Vec2Tenths => 2
    case Vec2 => 2
    case Vec3Tenths => 3
    case Vec3 => 3
    case Vec4Tenths => 4
    case Vec4 => 4
    case _ => 0
  }

  /** `n` little-endian floats starting at `pos`. */
  function Floats(data: seq<u8>, pos: nat, n: nat): seq<Float32>
    requires pos + 4 * n <= |data|
  {
    seq(n, i requires 0 <= i < n => Bits(U32At(data, pos + 4 * i)))
  }

  /** `n` bytes starting at `pos`, each scaled by 0.1. */
  function Tenths(data: seq<u8>, pos: nat, n: nat): seq<Float32>
    requires pos + n <= |data|
  {
    seq(n, i requires 0 <= i < n => ByteTenth(data[pos + i]))
  }

  /** The constructor a numeric section of this kind produces: the scalar
      kinds their own tag, the vector kinds a vector of their length. */
  ghost predicate Tagged(kind: NumKind, v: Value) {
    match kind
    case I32Num => v.I32?
    case F32Num => v.F32? && v.f.Bits?
    case F32Div10 => v.F32? && v.f.BitsDivTen?
    case I16Num => v.I16?
    case I8Num => v.I8?
    case _ => v.Vec? && |v.elems| == VectorLength(kind)
  }

  /** The value one payload of this kind decodes to. */
  function Payload(kind: NumKind, data: seq<u8>, pos: nat): (v: Value)
    requires pos + Width(kind) <= |data|
    ensures Tagged(kind, v)
  {
    match kind
    case I32Num => I32(I32Of(U32At(data, pos)))
    case F32Num => F32(Bits(U32At(data, pos)))
    case F32Div10 => F32(BitsDivTen(U32At(data, pos)))
    case I16Num => I16(I16Of(U16At(data, pos)))
    case I8Num => I8(I8Of(data[pos]))
    case Vec3Tenths => FromArray(Tenths(data, pos, 3))
    case Vec3 => FromArray(Floats(data, pos, 3))
    case Vec2Tenths => FromArray(Tenths(data, pos, 2))
    case Vec2 => FromArray(Floats(data, pos, 2))
    case Vec4Tenths => FromArray(Tenths(data, pos, 4))
    case Vec4 => FromArray(Floats(data, pos, 4))
  }

  /** `n` little-endian keys starting at `pos`. */
  function KeysAt(data: seq<u8>, pos: nat, n: nat): seq<u32>
    requires pos + 4 * n <= |data|
  {
    seq(n, i requires 0 <= i < n => U32At(data, pos + 4 * i))
  }

  /** `read_keys`: a `u16` count, then that many `u32` keys; the keys and the
      position after them. */
  function KeyList(data: seq<u8>, pos: nat): Result<(seq<u32>, nat)> {
    if |data| < pos + 2 then Err(UnexpectedEof)
    else
      var n := U16At(data, pos);
      if |data| < pos + 2 + 4 * n then Err(UnexpectedEof)
      else Ok((KeysAt(data, pos + 2, n), pos + 2 + 4 * n))
  }

  /** The entries of a numeric section: key `i` paired with payload `i`. */
  function Payloads(kind: NumKind, keys: seq<u32>, data: seq<u8>, pos: nat): Entries
    requires pos + |keys| * Width(kind) <= |data|
  {
    seq(|keys|, i requires 0 <= i < |keys| =>
      StrideWithin(i, |keys|, Width(kind));
      Entry(keys[i], Payload(kind, data, pos + i * Width(kind))))
  }

  /** One more key of a numeric section adds one entry, its payload read `Width(kind)` bytes further on. */
  lemma PayloadsSnoc(kind: NumKind, keys: seq<u32>, i: nat, data: seq<u8>, pos: nat)
    requires i < |keys| && pos + i * Width(kind) + Width(kind) <= |data|
    ensures (i + 1) * Width(kind) == i * Width(kind) + Width(kind)
    ensures Payloads(kind, keys[..i + 1], data, pos)
         == Payloads(kind, keys[..i], data, pos) + [Entry(keys[i], Payload(kind, data, pos + i * Width(kind)))]
  {
    var w := Width(kind);
    assert (i + 1) * w == i * w + w;
    var a := Payloads(kind, keys[..i + 1], data, pos);
    var b := Payloads(kind, keys[..i], data, pos) + [Entry(keys[i], Payload(kind, data, pos + i * w))];
    assert |a| == |b|;
    forall j | 0 <= j < |a| ensures a[j] == b[j] {
    }
  }

  /** `read_section_numbers`. */
  function NumbersSection(data: seq<u8>, pos: nat, kind: NumKind, es: Entries): Result<State> {
    match KeyList(data, pos)
    case Err(e) => Err(e)
    case Ok((keys, p)) =>
      var end := p + |keys| * Width(kind);
      if |data| < end then Err(UnexpectedEof)
      else Ok(State(InsertAll(es, Payloads(kind, keys, data, p)), end))
  }

  /** A numeric section whose payloads run past the end of the input fails. */
  lemma NumbersSectionTruncated(data: seq<u8>, pos: nat, kind: NumKind, es: Entries, keys: seq<u32>, p: nat, i: nat)
    requires KeyList(data, pos) == Ok((keys, p))
    requires i < |keys| && |data| < p + i * Width(kind) + Width(kind)
    ensures NumbersSection(data, pos, kind, es) == Err(UnexpectedEof)
  {
    StrideWithin(i, |keys|, Width(kind));
  }

  /** A numeric section that fits in the input: all its keys inserted, its payloads consumed. */
  lemma NumbersSectionComplete(data: seq<u8>, pos: nat, kind: NumKind, es: Entries, keys: seq<u32>, p: nat)
    requires KeyList(data, pos) == Ok((keys, p)) && p + |keys| * Width(kind) <= |data|
    ensures NumbersSection(data, pos, kind, es)
         == Ok(State(InsertAll(es, Payloads(kind, keys, data, p)), p + |keys| * Width(kind)))
  {
  }

  /** Bytes of packed booleans `n` keys take: one per started group of 8. */
  function PackedBytes(n: nat): (b: nat)
    ensures n <= 8 * b < n + 8
  {
    (n + 7) / 8
  }

  /** How the packed byte count grows key by key: a key that starts a group of 8 needs a new byte. */
  lemma PackedBytesStep(i: nat)
    ensures i % 8 == 0 ==> PackedBytes(i) == i / 8 && PackedBytes(i + 1) == i / 8 + 1
    ensures i % 8 != 0 ==> PackedBytes(i) == i / 8 + 1 && PackedBytes(i + 1) == PackedBytes(i)
    ensures (i + 1) % 8 != 0 ==> (i + 1) / 8 == i / 8
  {
  }

  /** The entries of a boolean section: key `i` is bit `i % 8` of byte `i / 8`. */
  function Flags(keys: seq<u32>, data: seq<u8>, pos: nat): Entries
    requires pos + PackedBytes(|keys|) <= |data|
  {
    seq(|keys|, i requires 0 <= i < |keys| =>
      Entry(keys[i], Bool(BitSet(data[pos + i / 8], i % 8))))
  }

  /** One more key of a boolean section adds one entry, read from the byte of its group of 8. */
  lemma FlagsSnoc(keys: seq<u32>, i: nat, data: seq<u8>, pos: nat)
    requires i < |keys| && pos + PackedBytes(i + 1) <= |data|
    ensures Flags(keys[..i + 1], data, pos)
         == Flags(keys[..i], data, pos) + [Entry(keys[i], Bool(BitSet(data[pos + i / 8], i % 8)))]
  {
    var a := Flags(keys[..i + 1], data, pos);
    var b := Flags(keys[..i], data, pos) + [Entry(keys[i], Bool(BitSet(data[pos + i / 8], i % 8)))];
    assert |a| == |b|;
    forall j | 0 <= j < |a| ensures a[j] == b[j] {
    }
  }

  /** A boolean section whose packed bytes run past the end of the input fails. */
  lemma BoolsSectionTruncated(data: seq<u8>, pos: nat, es: Entries, keys: seq<u32>, p: nat, i: nat)
    requires KeyList(data, pos) == Ok((keys, p))
    requires i < |keys| && |data| < p + i / 8 + 1
    ensures BoolsSection(data, pos, es) == Err(UnexpectedEof)
  {
  }

  /** `read_section_bools`. */
  function BoolsSection(data: seq<u8>, pos: nat, es: Entries): Result<State> {
    match KeyList(data, pos)
    case Err(e) => Err(e)
    case Ok((keys, p)) =>
      var end := p + PackedBytes(|keys|);
      if |data| < end then Err(UnexpectedEof)
      else Ok(State(InsertAll(es, Flags(keys, data, p)), end))
  }

  /** A boolean section that fits in the input: all its keys inserted, its packed bytes consumed. */
  lemma BoolsSectionComplete(data: seq<u8>, pos: nat, es: Entries, keys: seq<u32>, p: nat)
    requires KeyList(data, pos) == Ok((keys, p)) && p + PackedBytes(|keys|) <= |data|
    ensures BoolsSection(data, pos, es) == Ok(State(InsertAll(es, Flags(keys, data, p)), p + PackedBytes(|keys|)))
  {
  }

  /** The bytes before the first NUL of `buf`, or all of it when it has none. */
  function CStr(buf: seq<u8>): (s: seq<u8>)
    ensures |s| <= |buf| && s == buf[..|s|]
    ensures forall i | 0 <= i < |s| :: s[i] != 0
    ensures |s| < |buf| ==> buf[|s|] == 0
  {
    if buf == [] || buf[0] == 0 then [] else [buf[0]] + CStr(buf[1..])
  }

  /** `read_string`: store under `key` the string that starts `buf`. */
  function StoreString(es: Entries, key: u32, buf: seq<u8>): Result<Entries> {
    var s := CStr(buf);
    if !Utf8.Valid(s) then Err(InvalidUtf8) else Ok(Insert(es, key, String(s)))
  }

  /** `read_string(key, &buffer[offset..])`, slice included. */
  function StoreAt(es: Entries, pair: (u32, nat), buffer: seq<u8>): Result<Entries> {
    if |buffer| < pair.1 then Err(OffsetOutOfRange)
    else StoreString(es, pair.0, buffer[pair.1..])
  }

  /** The `(key, offset)` pairs stored one after the other, stopping at the first failure. */
  function StoreStrings(es: Entries, pairs: seq<(u32, nat)>, buffer: seq<u8>): Result<Entries> {
    if pairs == [] then Ok(es)
    else
      match StoreStrings(es, pairs[..|pairs| - 1], buffer)
      case Err(e) => Err(e)
      case Ok(es') => StoreAt(es', pairs[|pairs| - 1], buffer)
  }

  /** The NUL-terminated prefix is the only prefix free of NUL that ends at a NUL or at the end. */
  lemma CStrUnique(buf: seq<u8>, n: nat)
    requires n <= |buf| && (n == |buf| || buf[n] == 0)
    requires forall j | 0 <= j < n :: buf[j] != 0
    ensures CStr(buf) == buf[..n]
  {
  }

  /** Storing one more pair after a run of stores. */
  lemma StoreStringsSnoc(es: Entries, pairs: seq<(u32, nat)>, i: nat, buffer: seq<u8>)
    requires i < |pairs|
    ensures StoreStrings(es, pairs[..i + 1], buffer)
         == match StoreStrings(es, pairs[..i], buffer)
            case Err(e) => Err(e)
            case Ok(es') => StoreAt(es', pairs[i], buffer)
  {
    assert pairs[..i + 1][..i] == pairs[..i];
  }

  /** Once a store fails, the run of stores fails with that error. */
  lemma {:induction false} StoreStringsStopsAtFailure(es: Entries, pairs: seq<(u32, nat)>, i: nat, buffer: seq<u8>)
    requires i <= |pairs| && StoreStrings(es, pairs[..i], buffer).Err?
    ensures StoreStrings(es, pairs, buffer) == StoreStrings(es, pairs[..i], buffer)
    decreases |pairs|
  {
    if i < |pairs| {
      var init := pairs[..|pairs| - 1];
      assert init[..i] == pairs[..i];
      StoreStringsStopsAtFailure(es, init, i, buffer);
    } else {
      assert pairs[..i] == pairs;
    }
  }

  /** `n` little-endian `u16` offsets starting at `pos`. */
  function OffsetsAt(data: seq<u8>, pos: nat, n: nat): seq<u16>
    requires pos + 2 * n <= |data|
  {
    seq(n, i requires 0 <= i < n => U16At(data, pos + 2 * i))
  }

  /** One more offset: the `u16` that follows the ones before it. */
  lemma OffsetsAtSnoc(data: seq<u8>, pos: nat, i: nat)
    requires pos + 2 * i + 2 <= |data|
    ensures OffsetsAt(data, pos, i + 1) == OffsetsAt(data, pos, i) + [U16At(data, pos + 2 * i)]
  {
  }

  /** `keys.into_iter().zip(offsets)`, for lists of equal length. */
  function Zip(keys: seq<u32>, offsets: seq<u16>): (pairs: seq<(u32, nat)>)
    requires |keys| == |offsets|
    ensures |pairs| == |keys|
    ensures forall i | 0 <= i < |keys| :: pairs[i] == (keys[i], offsets[i] as nat)
  {
    seq(|keys|, i requires 0 <= i < |keys| => (keys[i], offsets[i] as nat))
  }

  /** `read_section_strings`: keys, one `u16` offset per key, then `strLen`
      bytes of shared string buffer. */
  function StringsSection(data: seq<u8>, pos: nat, strLen: u16, es: Entries): Result<State> {
    match KeyList(data, pos)
    case Err(e) => Err(e)
    case Ok((keys, p)) =>
      var q := p + 2 * |keys|;
      if |data| < q then Err(UnexpectedEof)
      else if |data| < q + strLen then Err(UnexpectedEof)
      else
        match StoreStrings(es, Zip(keys, OffsetsAt(data, p, |keys|)), data[q..q + strLen])
        case Err(e) => Err(e)
        case Ok(es') => Ok(State(es', q + strLen))
  }

  /** A string section whose offsets run past the end of the input fails. */
  lemma StringsOffsetsTruncated(data: seq<u8>, pos: nat, strLen: u16, es: Entries, keys: seq<u32>, p: nat, i: nat)
    requires KeyList(data, pos) == Ok((keys, p))
    requires i < |keys| && |data| < p + 2 * i + 2
    ensures StringsSection(data, pos, strLen, es) == Err(UnexpectedEof)
  {
  }

  /** A string section whose buffer runs past the end of the input fails. */
  lemma StringsBufferTruncated(data: seq<u8>, pos: nat, strLen: u16, es: Entries, keys: seq<u32>, p: nat)
    requires KeyList(data, pos) == Ok((keys, p)) && |data| < p + 2 * |keys| + strLen
    ensures StringsSection(data, pos, strLen, es) == Err(UnexpectedEof)
  {
  }

  /** A string section that has its offsets and its buffer: the stores, over that buffer. */
  lemma StringsSectionComplete(data: seq<u8>, pos: nat, strLen: u16, es: Entries, keys: seq<u32>, p: nat,
                               offsets: seq<u16>, buffer: seq<u8>)
    requires KeyList(data, pos) == Ok((keys, p)) && p + 2 * |keys| + strLen <= |data|
    requires offsets == OffsetsAt(data, p, |keys|)
    requires buffer == data[p + 2 * |keys|..p + 2 * |keys| + strLen]
    ensures StringsSection(data, pos, strLen, es)
         == match StoreStrings(es, Zip(keys, offsets), buffer)
            case Err(e) => Err(e)
            case Ok(es') => Ok(State(es', p + 2 * |keys| + strLen))
  {
  }

  /** The section flag bit `bit` announces, read from state `s`. */
  function SectionAt(data: seq<u8>, strLen: u16, bit: nat, s: State): Result<State>
    requires bit < SectionCount
  {
    match SectionOf(bit)
    case Numbers(kind) => NumbersSection(data, s.pos, kind, s.entries)
    case Bools => BoolsSection(data, s.pos, s.entries)
    case Strings => StringsSection(data, s.pos, strLen, s.entries)
  }

  /** The set flag bits below `k`, in ascending order. */
  function ActiveBelow(flags: u16, k: nat): (bits: seq<nat>)
    requires k <= 16
    ensures forall i | 0 <= i < |bits| :: bits[i] < k
    ensures forall i, j | 0 <= i < j < |bits| :: bits[i] < bits[j]
    ensures forall b: nat :: b in bits <==> b < k && IsBitSet(flags, b)
  {
    if k == 0 then [] else ActiveBelow(flags, k - 1) + (if IsBitSet(flags, k - 1) then [k - 1] else [])
  }

  /** The sections present, in the order `from_v2` reads them. */
  function ActiveSections(flags: u16): seq<nat> {
    ActiveBelow(flags, SectionCount)
  }

  /** The sections `bits` read one after the other from `init`, stopping at the first failure. */
  function RunSections(data: seq<u8>, strLen: u16, init: Result<State>, bits: seq<nat>): Result<State>
    requires forall i | 0 <= i < |bits| :: bits[i] < SectionCount
  {
    if bits == [] then init
    else
      match RunSections(data, strLen, init, bits[..|bits| - 1])
      case Err(e) => Err(e)
      case Ok(s) => SectionAt(data, strLen, bits[|bits| - 1], s)
  }

  /** The state after the sections announced below bit `k`. */
  function After(data: seq<u8>, strLen: u16, init: Result<State>, flags: u16, k: nat): Result<State>
    requires k <= SectionCount
  {
    RunSections(data, strLen, init, ActiveBelow(flags, k))
  }

  /** Bit `k` adds its section when it is set and nothing when it is clear. */
  lemma AfterStep(data: seq<u8>, strLen: u16, init: Result<State>, flags: u16, k: nat)
    requires k < SectionCount
    ensures After(data, strLen, init, flags, k + 1)
         == if !IsBitSet(flags, k) then After(data, strLen, init, flags, k)
            else match After(data, strLen, init, flags, k)
                 case Err(e) => Err(e)
                 case Ok(s) => SectionAt(data, strLen, k, s)
  {
    var bits := ActiveBelow(flags, k);
    if IsBitSet(flags, k) {
      assert ActiveBelow(flags, k + 1) == bits + [k];
      assert (bits + [k])[..|bits|] == bits;
    } else {
      assert ActiveBelow(flags, k + 1) == bits;
    }
  }

  /** Once a section fails, reading the remaining sections keeps that error. */
  lemma {:induction false} AfterStopsAtFailure(data: seq<u8>, strLen: u16, init: Result<State>, flags: u16, k: nat)
    requires k <= SectionCount && After(data, strLen, init, flags, k).Err?
    ensures RunSections(data, strLen, init, ActiveSections(flags)) == After(data, strLen, init, flags, k)
    decreases SectionCount - k
  {
    if k < SectionCount {
      AfterStep(data, strLen, init, flags, k);
      AfterStopsAtFailure(data, strLen, init, flags, k + 1);
    }
  }

  /** A legacy input whose `(key, offset)` table runs past the end of the input fails. */
  lemma V1Truncated(data: seq<u8>, pos: nat, i: nat)
    requires pos + 8 <= |data| && i < U32At(data, pos) && |data| < pos + 8 + 8 * i + 8
    ensures V1(data, pos) == Err(UnexpectedEof)
  {
  }

  /** A legacy input with its whole table: the stores of its pairs over the rest of the input. */
  lemma V1Complete(data: seq<u8>, pos: nat, pairs: seq<(u32, nat)>, buffer: seq<u8>)
    requires pos + 8 <= |data| && pos + 8 + 8 * U32At(data, pos) <= |data|
    requires pairs == PairsAt(data, pos + 8, U32At(data, pos))
    requires buffer == data[pos + 8 + 8 * U32At(data, pos)..]
    ensures V1(data, pos) == StoreStrings([], pairs, buffer)
  {
  }

  /** The `(key, offset)` table of the legacy layout. */
  function PairsAt(data: seq<u8>, pos: nat, n: nat): seq<(u32, nat)>
    requires pos + 8 * n <= |data|
  {
    seq(n, i requires 0 <= i < n => (U32At(data, pos + 8 * i), U32At(data, pos + 8 * i + 4) as nat))
  }

  /** One more row of the table: the key and the offset that follow the rows before it. */
  lemma PairsAtSnoc(data: seq<u8>, pos: nat, i: nat)
    requires pos + 8 * i + 8 <= |data|
    ensures PairsAt(data, pos, i + 1)
         == PairsAt(data, pos, i) + [(U32At(data, pos + 8 * i), U32At(data, pos + 8 * i + 4) as nat)]
  {
  }

  /** `from_v1`, `pos` being where the entry count starts: the entry count,
      the data count (a capacity hint only), the pairs, and the rest of the
      input as the string buffer. */
  function V1(data: seq<u8>, pos: nat): Result<Entries> {
    if |data| < pos + 4 then Err(UnexpectedEof)
    else
      var entryCount := U32At(data, pos);
      if |data| < pos + 8 then Err(UnexpectedEof)
      else
        var p := pos + 8;
        if |data| < p + 8 * entryCount then Err(UnexpectedEof)
        else StoreStrings([], PairsAt(data, p, entryCount), data[p + 8 * entryCount..])
  }

  /** `from_v2`, `pos` being where the string-buffer length starts. */
  function V2(data: seq<u8>, pos: nat): Result<Entries> {
    if |data| < pos + 2 then Err(UnexpectedEof)
    else
      var strLen := U16At(data, pos);
      if |data| < pos + 4 then Err(UnexpectedEof)
      else
        var flags := U16At(data, pos + 2);
        match RunSections(data, strLen, Ok(State([], pos + 4)), ActiveSections(flags))
        case Err(e) => Err(e)
        case Ok(s) => Ok(s.entries)
  }

  /** `from_reader` on a cursor at `pos`: version 1 skips three bytes and
      reads the legacy layout, version 2 the typed layout. */
  function ParseAt(data: seq<u8>, pos: nat): Result<Entries> {
    if |data| < pos + 1 then Err(UnexpectedEof)
    else if data[pos] == 1 then V1(data, pos + 4)
    else if data[pos] == 2 then V2(data, pos + 1)
    else Err(InvalidData)
  }

  /** `from_bytes`. */
  function Parse(data: seq<u8>): Result<Entries> {
    ParseAt(data, 0)
  }
}
