# inibin reader, modelled in Dafny

This project models `IniBin`, the reader of the inibin binary format. It turns a
byte buffer into an insertion-ordered map from `u32` keys to typed values
(`Value`: `I8`, `I16`, `I32`, `I64`, `F32`, `Bool`, `Vec` of two to four floats,
`String`). The input starts with a version byte.

- **Version 1 (legacy layout).** Three padding bytes follow the version byte.
  Then come an entry count and a data count, then a table of `(key, offset)`
  pairs, then a string buffer that runs to the end of the input.
- **Version 2 (typed layout).** A string-buffer length and a 16-bit flags word
  follow the version byte. Each of the flag bits 0 to 12 announces one section,
  and the sections are read in ascending bit order:
  - five numeric sections (`i32`, `f32`, `f32 / 10`, `i16`, `i8`);
  - one boolean section, eight keys per byte;
  - six vector sections (three, two or four floats, either raw or as bytes
    scaled by 0.1);
  - one string section (`u16` offsets into a buffer of `str_len` bytes).
- **Any other version** is rejected with `InvalidData`.

Every section starts with a key list: a `u16` count followed by that many `u32`
keys. Strings run from their offset up to the first NUL or to the end of the
buffer, and must be valid UTF-8.

The model has two layers.

- **Module `Format`** states the format as pure functions of the input bytes:
  `KeyList`, `NumbersSection`, `BoolsSection`, `StringsSection`, `V1`, `V2` and
  `Parse`.
- **Module `Parser`** holds the reader itself. It is the class `IniBin`, whose
  state is the key order `keys` and the map `values` of an `IndexMap`. It reads
  from a `Cursor.Reader`, a byte cursor with the little-endian reads the source
  uses. Each method of `IniBin` is proved to leave the map, the cursor position
  and its result exactly as the matching `Format` function says. The
  constructors `FromBytes`, `FromReader`, `FromV1` and `FromV2` are proved to
  build exactly the map that `Parse`, `ParseAt`, `V1` and `V2` describe.

Supporting modules:

- `OrderedMap`: `IndexMap` insertion semantics. A new key is appended, and an
  existing key keeps its place and gets the new value.
- `LittleEndian`: the byte-order reads and their inverses.
- `Bits`: `x & (1 << k)` on naturals.
- `Utf8`: the well-formed UTF-8 byte sequences.
- `Values`: the value type.
- `Results`: errors and results.

How the source maps onto `IniBin`:

- The thirteen `if is_bit_set(...)` blocks of `from_v2` are `ReadFlagged` calls. They are split between `ReadScalarSections` (bits 0 to 5) and `ReadArrayAndStringSections` (bits 6 to 12). The closure each block passes to `read_section_numbers` is chosen by `Format.SectionOf` and read by `ReadPayload`.
- `ReadStrings` is the store loop shared by `from_v1` (`src/inibin.rs:103-105`) and `read_section_strings` (`src/inibin.rs:236-238`).

Module `Properties` proves what the format promises. It covers:

- the version dispatch;
- round trips and canonical encodings of key lists;
- what each section inserts and how many bytes it consumes;
- the bit-per-key layout of booleans;
- NUL termination of strings, offsets out of range and invalid UTF-8;
- the ascending order of sections;
- that flag bits 13 to 15 are ignored;
- that the data count of the legacy layout is never used for anything but
  capacity;
- that every parsed value is well formed.

The two conditions under which the source panics are modelled as error results.
`OffsetOutOfRange` is a string offset beyond its buffer (the slice
`&buffer[offset..]`). `InvalidUtf8` is the `unwrap` of `String::from_utf8`.
`Results.Error.IsPanic` tells them apart from the `io::Error`s the source returns
(`UnexpectedEof`, `InvalidData`); `Properties.V1PanicsExactlyOnUnstorablePairs`
states when a legacy parse panics.

## Model

| member | source | states |
|---|---|---|
| Format.IsBitSet | src/inibin.rs:254-257 | `is_bit_set(flags, bit)` is the mask test `flags & (1 << bit) != 0` |
| Bits.BitSetIsDigit | src/inibin.rs:254-257 | the mask test `x & (1 << k) != 0` holds exactly when binary digit `k` of `x` is 1 |
| Bits.AndPow2 | src/inibin.rs:256 | masking with `1 << k` keeps binary digit `k` of `x` and clears all the others |
| Bits.And | src/inibin.rs:221 | bitwise AND of two naturals is no larger than either operand |
| Bits.DigitBelowModulus | src/inibin.rs:255-257 | reducing the flags modulo 2^k leaves every bit below `k` unchanged |
| LittleEndian.I8Of | src/inibin.rs:132 | `read_i8` reinterprets the byte as two's complement: same residue mod 2^8, negative iff the top bit is set |
| LittleEndian.I16Of | src/inibin.rs:129 | `read_i16` reinterprets the `u16` as two's complement: same residue mod 2^16, negative iff the top bit is set |
| LittleEndian.I32Of | src/inibin.rs:120 | `read_i32` reinterprets the `u32` as two's complement: same residue mod 2^32, negative iff the top bit is set |
| LittleEndian.U16At | src/inibin.rs:192 | definition of `read_u16::<LE>` on the bytes at a position: the low byte first |
| LittleEndian.U32At | src/inibin.rs:195 | definition of `read_u32::<LE>` on the bytes at a position: the lowest byte first |
| LittleEndian.U16RoundTrip | src/inibin.rs:192 | reading a little-endian `u16` back from its two bytes gives the number |
| LittleEndian.U16Canonical | src/inibin.rs:231 | the two bytes a `u16` is read from are exactly its little-endian encoding |
| LittleEndian.U32RoundTrip | src/inibin.rs:195 | reading a little-endian `u32` back from its four bytes gives the number |
| LittleEndian.U32Canonical | src/inibin.rs:89-90 | the four bytes a `u32` is read from are exactly its little-endian encoding |
| OrderedMap.Lookup | src/inibin.rs:65 | a key has a value exactly when it is among the map's keys |
| OrderedMap.Insert | src/inibin.rs:208 | definition of `IndexMap::insert` as used at lines 208, 221 and 247-250: a present key keeps its place and gets the new value, a new key is appended |
| OrderedMap.InsertLookup | src/inibin.rs:208 | after `map.insert(k, v)`, `k` maps to `v` and every other key keeps its value |
| OrderedMap.InsertKeys | src/inibin.rs:208 | `insert` appends a new key at the end and keeps the order when the key is already present |
| OrderedMap.InsertKeepsUnique | src/inibin.rs:208 | `insert` never makes a key appear twice |
| OrderedMap.InsertReplaces | src/inibin.rs:221 | inserting an existing key replaces its value in place |
| OrderedMap.InsertAppends | src/inibin.rs:247-250 | inserting a new key appends one entry at the end |
| OrderedMap.InsertAllSnoc | src/inibin.rs:207-209 | inserting a list of entries one after the other is the inserts done in list order |
| OrderedMap.InsertAllLookup | src/inibin.rs:207-209 | after a run of inserts, a listed key holds its last listed value and an unlisted key keeps its old one |
| OrderedMap.InsertAllKeys | src/inibin.rs:207-209 | after a run of inserts, the keys are the old keys plus the listed ones, old keys first |
| OrderedMap.InsertAllKeepsUnique | src/inibin.rs:207-209 | a run of inserts keeps keys unique |
| OrderedMap.InsertAllUnlisted | src/inibin.rs:207-209 | a run of inserts leaves unlisted keys unchanged |
| OrderedMap.LastIndexOf | src/inibin.rs:207-209 | every listed key has a last occurrence in the list |
| OrderedMap.LastValueAt | src/inibin.rs:207-209 | the value a run of inserts leaves for a key is the one at its last occurrence |
| OrderedMap.InsertEntries | src/inibin.rs:208 | `insert` adds no entry other than the inserted one |
| OrderedMap.InsertAllEntries | src/inibin.rs:207-209 | a run of inserts adds no entries other than the listed ones |
| Cursor.Reader.ReadExact | src/inibin.rs:235 | `read_exact` of `n` bytes returns the next `n` bytes and advances by `n`, or fails with `UnexpectedEof` when fewer remain; a read of zero bytes succeeds with nothing wherever the cursor stands |
| Cursor.Reader.ReadU8 | src/inibin.rs:77 | `read_u8` returns the byte at the cursor and advances by one, or fails with `UnexpectedEof` |
| Cursor.Reader.ReadU16 | src/inibin.rs:116-117 | `read_u16::<LE>` returns the little-endian `u16` at the cursor and advances by two, or fails with `UnexpectedEof` |
| Cursor.Reader.ReadU32 | src/inibin.rs:89-90 | `read_u32::<LE>` returns the little-endian `u32` at the cursor and advances by four, or fails with `UnexpectedEof` |
| Cursor.Reader.ReadI8 | src/inibin.rs:132 | `read_i8` is `read_u8` reinterpreted as signed |
| Cursor.Reader.ReadI16 | src/inibin.rs:129 | `read_i16::<LE>` is `read_u16` reinterpreted as signed |
| Cursor.Reader.ReadI32 | src/inibin.rs:120 | `read_i32::<LE>` is `read_u32` reinterpreted as signed |
| Cursor.Reader.ReadF32 | src/inibin.rs:123 | `read_f32::<LE>` gives the float whose bit pattern is the `u32` at the cursor |
| Cursor.Reader.Skip | src/inibin.rs:79 | `seek(Current(n))` moves the cursor forward by `n`, past the end if need be |
| Cursor.Reader.ReadToEnd | src/inibin.rs:97-98 | `read_to_end` returns every byte from the cursor on and leaves the cursor at the end |
| Cursor.Reader.constructor | src/inibin.rs:70 | `io::Cursor::new(b)`: a cursor over the input at position 0 |
| Utf8.Valid | src/inibin.rs:249 | definition of the check `String::from_utf8` makes: the input is a concatenation of well-formed UTF-8 sequences (no overlong forms, surrogates or code points above U+10FFFF) |
| Format.Payload | src/inibin.rs:119-183 | each section's closure gives its own `Value` constructor: `I32`, `F32` (raw or divided by ten), `I16` and `I8` for the scalar kinds, and through `From<[f32; N]>` (line 55) a `Vec` of length 2, 3 or 4 for the vector kinds |
| Format.SectionOf | src/inibin.rs:119-186 | definition of which section each flag bit announces, with the closure passed for it |
| Format.Payloads | src/inibin.rs:207-208 | definition of the entries a numeric section inserts: key `i` with the payload `i*Width` bytes after the keys |
| Format.Flags | src/inibin.rs:216-221 | definition of the entries a boolean section inserts: key `i` with bit `i % 8` of byte `i / 8` |
| Format.OffsetsAt | src/inibin.rs:230-232 | definition of the `u16` offsets of a string section, in wire order |
| Format.PairsAt | src/inibin.rs:92-95 | definition of the legacy `(key, offset)` table, in wire order |
| Format.KeyList | src/inibin.rs:191-198 | definition of `read_keys`: the keys and the position after them, or `UnexpectedEof` |
| Format.NumbersSection | src/inibin.rs:200-211 | definition of `read_section_numbers`: the map with every key inserted with its payload and the position after them, or `UnexpectedEof` |
| Format.BoolsSection | src/inibin.rs:213-224 | definition of `read_section_bools`: the map with every key inserted with its bit and the position after the packed bytes, or `UnexpectedEof` |
| Format.StringsSection | src/inibin.rs:226-240 | definition of `read_section_strings`: keys, offsets, the `str_len`-byte buffer, then the stores, or the first error |
| Format.StoreString | src/inibin.rs:242-251 | definition of `read_string`: insert the prefix before the first NUL, or `InvalidUtf8` where `unwrap` panics |
| Format.StoreAt | src/inibin.rs:237 | definition of `read_string(key, &buffer[offset..])`: `OffsetOutOfRange` where the slice panics, otherwise the store |
| Format.StoreStrings | src/inibin.rs:236-238 | definition of the store loop: the pairs stored in order, stopping at the first failure |
| Format.RunSections | src/inibin.rs:119-188 | definition of the chain of flagged blocks: the sections run in order, each on the state the previous one left, and the first error ends the chain |
| Format.V1 | src/inibin.rs:88-107 | definition of `from_v1`: entry count, data count, the table, then the stores over the rest of the input |
| Format.V2 | src/inibin.rs:109-189 | definition of `from_v2`: string-buffer length, flags, then the sections of the set bits in ascending order |
| Format.ParseAt | src/inibin.rs:73-86 | definition of `from_reader`: version 1 skips three bytes and reads the legacy layout, version 2 the typed layout, any other version is `InvalidData` |
| Format.Parse | src/inibin.rs:69-71 | definition of `from_bytes`: `from_reader` on a cursor at the start of the input |
| Format.PackedBytes | src/inibin.rs:215-220 | `n` boolean keys take ⌈n/8⌉ bytes: `n <= 8*b < n + 8` |
| Format.PackedBytesStep | src/inibin.rs:217-220 | a key whose index is a multiple of 8 starts a new byte; every other key reuses the current byte |
| Format.PayloadsSnoc | src/inibin.rs:207-208 | each further key of a numeric section adds one entry, whose payload starts `Width` bytes after the previous one |
| Format.FlagsSnoc | src/inibin.rs:216-221 | each further boolean key adds one entry, read from bit `i % 8` of byte `i / 8` |
| Format.CStr | src/inibin.rs:243-246 | the string is the prefix of the buffer before the first NUL (all of it when there is none); it holds no NUL, and a NUL follows it when it is shorter than the buffer |
| Format.CStrUnique | src/inibin.rs:243-246 | any NUL-free prefix that ends at a NUL or at the end of the buffer is the one `CStr` returns |
| Format.StoreStringsSnoc | src/inibin.rs:236-238 | the store loop handles the pairs in order and stops at the first failure |
| Format.StoreStringsStopsAtFailure | src/inibin.rs:236-238 | once a store fails, the remaining pairs do not change the result |
| Format.OffsetsAtSnoc | src/inibin.rs:230-232 | each further offset is the `u16` after the previous ones |
| Format.PairsAtSnoc | src/inibin.rs:93-95 | each further row of the legacy table is a `u32` key and a `u32` offset after the previous rows |
| Format.NumbersSectionTruncated | src/inibin.rs:207-209 | a numeric section whose payload `i` runs past the input fails with `UnexpectedEof` |
| Format.NumbersSectionComplete | src/inibin.rs:206-210 | a numeric section that fits inserts every key with its payload and consumes `count * Width` bytes after the keys |
| Format.BoolsSectionTruncated | src/inibin.rs:218-220 | a boolean section whose byte for key `i` is missing fails with `UnexpectedEof` |
| Format.BoolsSectionComplete | src/inibin.rs:214-223 | a boolean section that fits inserts every key with its bit and consumes ⌈count/8⌉ bytes |
| Format.StringsOffsetsTruncated | src/inibin.rs:230-232 | a string section whose offset `i` runs past the input fails with `UnexpectedEof` |
| Format.StringsBufferTruncated | src/inibin.rs:233-235 | a string section whose `str_len`-byte buffer runs past the input fails with `UnexpectedEof` |
| Format.StringsSectionComplete | src/inibin.rs:226-240 | a string section with its offsets and its buffer is the run of stores over that buffer, ending `2*count + str_len` bytes after the keys |
| Format.ActiveBelow | src/inibin.rs:119-186 | the sections read are the set flag bits, each below the limit, in strictly ascending order, and a bit is listed iff it is set |
| Format.AfterStep | src/inibin.rs:119-186 | a set bit runs its section on the state the lower bits left; a clear bit changes nothing |
| Format.AfterStopsAtFailure | src/inibin.rs:119-186 | the `?` after a section: once a section fails, the whole typed parse fails with that error |
| Format.V1Truncated | src/inibin.rs:93-95 | a legacy table that runs past the input fails with `UnexpectedEof` |
| Format.V1Complete | src/inibin.rs:88-107 | a legacy input with its whole table is the run of stores of its pairs, in table order, over the rest of the input |
| Parser.EntriesOf | src/inibin.rs:65 | the entries of an `IndexMap` follow its key order |
| Parser.NumbersProgressStep | src/inibin.rs:207-209 | one iteration of the numeric loop advances the cursor by `Width` and inserts key `i` with payload `i` |
| Parser.BoolsProgressStep | src/inibin.rs:216-222 | one iteration of the boolean loop reads a byte only when `idx % 8 == 0` and inserts key `i` with bit `i % 8` |
| Parser.IniBin.constructor | src/inibin.rs:100-102 | a new `IniBin` has an empty map |
| Parser.IniBin.Insert | src/inibin.rs:208 | `map.insert` updates the map as `IndexMap` insertion does |
| Parser.IniBin.ReadKeys | src/inibin.rs:191-198 | `read_keys` returns `count` keys and consumes `2 + 4*count` bytes, or fails as `KeyList` says |
| Parser.IniBin.ReadPayload | src/inibin.rs:119-183 | the closure of a section reads one payload of `Width(kind)` bytes, or fails with `UnexpectedEof` |
| Parser.IniBin.ReadTenths | src/inibin.rs:137-144 | the byte-vector closures read N bytes, each scaled by 0.1 |
| Parser.IniBin.ReadFloats | src/inibin.rs:146-153 | the float-vector closures read N little-endian floats |
| Parser.IniBin.ReadSectionNumbers | src/inibin.rs:200-211 | `read_section_numbers` leaves the map, cursor and result that `NumbersSection` describes |
| Parser.IniBin.ReadSectionBools | src/inibin.rs:213-224 | `read_section_bools` leaves the map, cursor and result that `BoolsSection` describes |
| Parser.IniBin.ReadString | src/inibin.rs:242-251 | `read_string` stores the NUL-terminated prefix when it is valid UTF-8, and fails with `InvalidUtf8` otherwise |
| Parser.IniBin.ReadStrings | src/inibin.rs:236-238 | the store loop leaves the map and result that `StoreStrings` describes, failing with `OffsetOutOfRange` at an offset past the buffer |
| Parser.IniBin.ReadSectionStrings | src/inibin.rs:226-240 | `read_section_strings` leaves the map, cursor and result that `StringsSection` describes |
| Parser.IniBin.ReadSection | src/inibin.rs:119-186 | the section a flag bit announces, with its closure, is read as `SectionAt` describes |
| Parser.IniBin.ReadFlagged | src/inibin.rs:119-186 | one `if is_bit_set(flags, bit) { ... }?` block extends the state after the lower bits by bit `bit`'s section, or fails with the error of the whole parse |
| Parser.IniBin.ReadScalarSections | src/inibin.rs:119-136 | the blocks for bits 0 to 5 |
| Parser.IniBin.ReadArrayAndStringSections | src/inibin.rs:137-186 | the blocks for bits 6 to 12 |
| Parser.IniBin.ReadSections | src/inibin.rs:119-188 | the thirteen blocks read exactly the sections of the set bits, in ascending order, as `RunSections` describes |
| Parser.IniBin.FromV1 | src/inibin.rs:88-107 | `from_v1` builds the map that `V1` describes, or fails with its error |
| Parser.IniBin.FromV2 | src/inibin.rs:109-189 | `from_v2` builds the map that `V2` describes, or fails with its error |
| Parser.IniBin.FromReader | src/inibin.rs:73-86 | `from_reader` builds the map that `ParseAt` describes: version 1 skips three bytes and reads the legacy layout, version 2 reads the typed layout, and any other version fails with `InvalidData` |
| Parser.IniBin.FromBytes | src/inibin.rs:69-71 | `from_bytes` builds the map that `Parse` describes |
| Properties.StringEntriesSnoc | src/inibin.rs:103-105 | each further pair stores the string at its offset |
| Properties.StoreStringsSucceeds | src/inibin.rs:236-238 | the store loop succeeds iff every offset lies within the buffer and every string is valid UTF-8 |
| Properties.AllStorableSnoc | src/inibin.rs:236-238 | all pairs can be stored iff all but the last can be and the last can be |
| Properties.StoreStringsInRange | src/inibin.rs:237 | a store loop that succeeds had every offset within the buffer (`offset <= len`) |
| Properties.StoreStringsInserts | src/inibin.rs:236-238 | a store loop that succeeds inserts, in pair order, each key with the string at its offset cut at the first NUL |
| Properties.StoreStringsFirstFailure | src/inibin.rs:236-238 | a store loop that fails reports the error of the first pair that cannot be stored: `OffsetOutOfRange` when the offset exceeds the buffer length, `InvalidUtf8` otherwise |
| Properties.KeysLe | src/inibin.rs:194-196 | `n` keys encode to `4n` bytes |
| Properties.KeyListLe | src/inibin.rs:191-198 | a key list encodes to `2 + 4n` bytes |
| Properties.KeysLeAt | src/inibin.rs:195 | key `i` is read back from bytes `4i..4i+4` of the encoding |
| Properties.KeyListRoundTrip | src/inibin.rs:191-198 | reading an encoded key list gives back the keys and consumes exactly `2 + 4*count` bytes, whatever follows |
| Properties.KeyListCanonical | src/inibin.rs:191-198 | a key list that is read has fewer than 2^16 keys, ends `2 + 4*count` bytes later, and those bytes are exactly its encoding |
| Properties.KeysAtCanonical | src/inibin.rs:194-196 | the keys that are read re-encode to the bytes they were read from |
| Properties.SectionNeverInvalidData | src/inibin.rs:200-240 | no section fails with `InvalidData` |
| Properties.RunSectionsNeverInvalidData | src/inibin.rs:119-186 | the typed sections never fail with `InvalidData` |
| Properties.ParseRejectsExactlyUnknownVersions | src/inibin.rs:77-85 | the parse fails with `InvalidData` iff the input has a version byte that is neither 1 nor 2 |
| Properties.V1PanicsExactlyOnUnstorablePairs | src/inibin.rs:88-107 | a legacy parse ends in one of the two panics (slice out of range, `unwrap` on invalid UTF-8) iff its whole table is present and some pair cannot be stored |
| Properties.NumbersSectionContents | src/inibin.rs:200-211 | a numeric section that is read consumes `2 + 4*count + count*Width` bytes and inserts key `i` with payload `i` |
| Properties.NumbersSectionKeys | src/inibin.rs:206-209 | after a numeric section the map holds the old keys and the listed ones, and unlisted keys keep their values |
| Properties.NumbersSectionValues | src/inibin.rs:207-209 | after a numeric section a listed key holds the payload of its last occurrence |
| Properties.PayloadsKeys | src/inibin.rs:207 | the entries of a numeric section carry the listed keys, in order |
| Properties.PayloadsAt | src/inibin.rs:208 | entry `i` of a numeric section is key `i` with the payload `i*Width` bytes after the keys |
| Properties.NumbersSectionTags | src/inibin.rs:119-183 | after a numeric section every listed key holds a value with the section's tag |
| Properties.BoolsSectionContents | src/inibin.rs:213-224 | a boolean section that is read consumes ⌈count/8⌉ bytes after the keys; key `i` (at its last occurrence) is `Bool(digit i%8 of byte i/8 == 1)`; unlisted keys are unchanged |
| Properties.StringsSectionContents | src/inibin.rs:226-240 | a string section that is read consumes one `u16` offset per key plus `str_len` bytes, and inserts each key with the string at its offset |
| Properties.StringsSectionOffsets | src/inibin.rs:236-238 | in a string section that is read, every offset is at most `str_len` |
| Properties.ZipOffsetAt | src/inibin.rs:230-236 | the pair of key `i` carries the `u16` offset read at position `i` |
| Properties.InsertAllWellFormed | src/inibin.rs:207-209 | inserting well-formed values into a well-formed map keeps it well formed |
| Properties.SectionWellFormed | src/inibin.rs:200-240 | a section that is read keeps keys unique, vectors of length 2 to 4 and strings valid UTF-8 |
| Properties.StringEntriesWellFormed | src/inibin.rs:242-251 | a stored string is valid UTF-8 and holds no NUL |
| Properties.RunSectionsWellFormed | src/inibin.rs:119-186 | the typed sections keep the map well formed |
| Properties.ParseWellFormed | src/inibin.rs:69-189 | every parsed map has unique keys, vectors of length 2 to 4, and NUL-free valid UTF-8 strings |
| Properties.V1AllStrings | src/inibin.rs:88-107 | a legacy parse yields only strings, for exactly the keys of the table, inserted in table order, each the string at its offset in the rest of the input |
| Properties.V1SkipsDataCount | src/inibin.rs:90-98 | two legacy inputs that differ only in the data count parse alike |
| Properties.U32AtAgree | src/inibin.rs:89-94 | a `u32` depends only on its four bytes |
| Properties.PairsAtAgree | src/inibin.rs:93-95 | the legacy table depends only on the bytes it is read from |
| Properties.V1IgnoresDataCount | src/inibin.rs:90-97 | replacing the data count with any other `u32` does not change the legacy parse (it is a capacity hint only) |
| Properties.HighFlagBitsIgnored | src/inibin.rs:119-186 | flag bits 13 to 15 select no section: the flags and the flags modulo 2^13 read the same sections |
| Properties.SameBitsBelow | src/inibin.rs:119-186 | flags that agree on the bits below `k` read the same sections below `k` |

## Left out

- Floating point: `f / 10.0` and `f32::from(b) * 0.1` are not computed. `Values.Float32` records the wire bit pattern and the scaling applied to it, so two modelled floats are equal exactly when their bit patterns and scalings are. This is not `f32` equality: `0.0` and `-0.0` compare equal as `f32`, a NaN is unequal to itself, and `f32::from(0) * 0.1` equals `0.0`. The contracts compare modelled values structurally and never rely on `f32` equality.
- `Value::I64` and `From<i8>`, `From<i16>`, `From<i32>`, `From<f32>`, `From<bool>` and `From<String>`: the datatype has the `I64` variant, but the reader never produces it. The conversions are the datatype constructors themselves, with no member of their own.
- Panics: a string offset beyond its buffer and invalid UTF-8 abort the thread in the source. Here they are the error results `OffsetOutOfRange` and `InvalidUtf8`, and the parse stops at them. Nothing of the partially built map is observable, as with a panic.
- Cursor position after a failure: a failed `Cursor.Reader` read leaves the position where it was, while `io::Cursor` may have consumed part of the bytes. The `IniBin` methods state the position only on success, so nothing depends on this.
- Allocation: `with_capacity`, `resize` and an allocation failure for a huge count are not modelled. The capacity hint (the legacy data count) is read and discarded.
- Readers other than a byte cursor: `from_reader` is generic over `io::Read + io::Seek`. The model fixes it to `Cursor.Reader` over an in-memory buffer, which is what `from_bytes` passes. I/O errors other than end of input and a seek that fails cannot arise there and are not modelled.
- UTF-8 validity is the predicate `Utf8.Valid`, the well-formed byte sequences of the Unicode Standard. Decoding into code points is not modelled; a `String` value holds its UTF-8 bytes.
- `src/de.rs` (serde deserialisation), `src/error.rs` and `src/lib.rs` are not part of this model.
