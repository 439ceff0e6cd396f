/** What the inibin reader guarantees, stated over the format's pure
    definitions: which inputs it rejects and why, what each section adds to
    the map, and the shape of every map it returns. */
module Properties {

  import opened Results
  import opened Arithmetic
  import opened LittleEndian
  import opened Bits
  import opened OrderedMap
  import opened Values
  import opened Format
  import Utf8

  // Storing strings

  /** A `(key, offset)` pair whose string can be stored: the offset lies
      within the buffer and the bytes up to the NUL are UTF-8. */
  ghost predicate Storable(pair: (u32, nat), buffer: seq<u8>) {
    pair.1 <= |buffer| && Utf8.Valid(CStr(buffer[pair.1..]))
  }

  /** Every pair of `pairs` can be stored. */
  ghost predicate AllStorable(pairs: seq<(u32, nat)>, buffer: seq<u8>) {
    forall i | 0 <= i < |pairs| :: Storable(pairs[i], buffer)
  }

  /** Why a pair cannot be stored: the slice panics first, then the UTF-8 check. */
  function StoreError(pair: (u32, nat), buffer: seq<u8>): Error {
    if |buffer| < pair.1 then OffsetOutOfRange else InvalidUtf8
  }

  /** The entries a run of stores inserts when every offset is in range. */
  function StringEntries(pairs: seq<(u32, nat)>, buffer: seq<u8>): Entries
    requires forall i | 0 <= i < |pairs| :: pairs[i].1 <= |buffer|
  {
    seq(|pairs|, i requires 0 <= i < |pairs| => Entry(pairs[i].0, String(CStr(buffer[pairs[i].1..]))))
  }

  /** One more pair adds the entry for its string. */
  lemma StringEntriesSnoc(pairs: seq<(u32, nat)>, buffer: seq<u8>)
    requires pairs != [] && forall i | 0 <= i < |pairs| :: pairs[i].1 <= |buffer|
    ensures var n := |pairs| - 1;
      StringEntries(pairs, buffer)
      == StringEntries(pairs[..n], buffer) + [Entry(pairs[n].0, String(CStr(buffer[pairs[n].1..])))]
  {
  }

  /** A run of stores succeeds exactly when every pair is storable. */
  lemma {:induction false} StoreStringsSucceeds(es: Entries, pairs: seq<(u32, nat)>, buffer: seq<u8>)
    ensures StoreStrings(es, pairs, buffer).Ok? <==> forall i | 0 <= i < |pairs| :: Storable(pairs[i], buffer)
    decreases |pairs|
  {
    if pairs != [] {
      var n := |pairs| - 1;
      var init := pairs[..n];
      StoreStringsSucceeds(es, init, buffer);
      AllStorableSnoc(pairs, buffer);
      match StoreStrings(es, init, buffer)
      case Err(_) =>
      case Ok(mid) =>
        assert StoreStrings(es, pairs, buffer) == StoreAt(mid, pairs[n], buffer);
    }
  }

  /** Every pair is storable exactly when those before the last are and the last is. */
  lemma AllStorableSnoc(pairs: seq<(u32, nat)>, buffer: seq<u8>)
    requires pairs != []
    ensures var n := |pairs| - 1;
      (forall i | 0 <= i < |pairs| :: Storable(pairs[i], buffer))
      <==> (forall i | 0 <= i < n :: Storable(pairs[..n][i], buffer)) && Storable(pairs[n], buffer)
  {
    var n := |pairs| - 1;
    assert forall i | 0 <= i < n :: pairs[..n][i] == pairs[i];
  }

  /** A run of stores that succeeds had every offset within the buffer. */
  lemma StoreStringsInRange(es: Entries, pairs: seq<(u32, nat)>, buffer: seq<u8>)
    requires StoreStrings(es, pairs, buffer).Ok?
    ensures forall i | 0 <= i < |pairs| :: pairs[i].1 <= |buffer|
  {
    StoreStringsSucceeds(es, pairs, buffer);
    forall i | 0 <= i < |pairs| ensures pairs[i].1 <= |buffer| {
      assert Storable(pairs[i], buffer);
    }
  }

  /** A run of stores that succeeds inserts each key with the string at its offset. */
  lemma {:induction false} StoreStringsInserts(es: Entries, pairs: seq<(u32, nat)>, buffer: seq<u8>)
    requires StoreStrings(es, pairs, buffer).Ok?
    ensures forall i | 0 <= i < |pairs| :: pairs[i].1 <= |buffer|
    ensures StoreStrings(es, pairs, buffer).value == InsertAll(es, StringEntries(pairs, buffer))
    decreases |pairs|
  {
    StoreStringsInRange(es, pairs, buffer);
    if pairs != [] {
      var n := |pairs| - 1;
      var init := pairs[..n];
      var mid := StoreStrings(es, init, buffer);
      assert mid.Ok?;
      StoreStringsInserts(es, init, buffer);
      var last := Entry(pairs[n].0, String(CStr(buffer[pairs[n].1..])));
      assert StoreStrings(es, pairs, buffer).value == Insert(mid.value, last.key, last.value);
      StringEntriesSnoc(pairs, buffer);
      InsertAllSnoc(es, StringEntries(init, buffer), last);
    }
  }

  /** A run of stores that fails reports the error of the first pair that cannot be stored. */
  lemma {:induction false} StoreStringsFirstFailure(es: Entries, pairs: seq<(u32, nat)>, buffer: seq<u8>)
    requires StoreStrings(es, pairs, buffer).Err?
    ensures exists i | 0 <= i < |pairs| ::
      && !Storable(pairs[i], buffer)
      && (forall j | 0 <= j < i :: Storable(pairs[j], buffer))
      && StoreStrings(es, pairs, buffer).error == StoreError(pairs[i], buffer)
    decreases |pairs|
  {
    var n := |pairs| - 1;
    var init := pairs[..n];
    assert forall i | 0 <= i < n :: init[i] == pairs[i];
    if StoreStrings(es, init, buffer).Err? {
      StoreStringsFirstFailure(es, init, buffer);
      var i :| 0 <= i < n && !Storable(init[i], buffer)
        && (forall j | 0 <= j < i :: Storable(init[j], buffer))
        && StoreStrings(es, init, buffer).error == StoreError(init[i], buffer);
      assert !Storable(pairs[i], buffer);
    } else {
      StoreStringsSucceeds(es, init, buffer);
      assert !Storable(pairs[n], buffer);
    }
  }

  // Key lists

  /** The keys written one after the other, four little-endian bytes each. */
  function KeysLe(keys: seq<u32>): (s: seq<u8>)
    ensures |s| == 4 * |keys|
  {
    if keys == [] then [] else KeysLe(keys[..|keys| - 1]) + U32Le(keys[|keys| - 1])
  }

  /** A key list as `read_keys` expects it: the `u16` count, then the keys. */
  function KeyListLe(keys: seq<u32>): (s: seq<u8>)
    requires |keys| < 0x1_0000
    ensures |s| == 2 + 4 * |keys|
  {
    U16Le(|keys|) + KeysLe(keys)
  }

  /** Key `i` of an encoded run of keys is read back from offset `4 * i`, whatever follows. */
  lemma {:induction false} KeysLeAt(keys: seq<u32>, rest: seq<u8>, i: nat)
    requires i < |keys|
    ensures U32At(KeysLe(keys) + rest, 4 * i) == keys[i]
    decreases |keys|
  {
    var n := |keys| - 1;
    var init := keys[..n];
    assert KeysLe(keys) + rest == KeysLe(init) + (U32Le(keys[n]) + rest);
    if i < n {
      KeysLeAt(init, U32Le(keys[n]) + rest, i);
    } else {
      U32RoundTrip(keys[n]);
    }
  }

  /** `read_keys` reads back an encoded key list, consuming exactly its bytes. */
  lemma KeyListRoundTrip(keys: seq<u32>, rest: seq<u8>)
    requires |keys| < 0x1_0000
    ensures KeyList(KeyListLe(keys) + rest, 0) == Ok((keys, 2 + 4 * |keys|))
  {
    var data := KeyListLe(keys) + rest;
    var tail := KeysLe(keys) + rest;
    assert data == U16Le(|keys|) + tail;
    U16RoundTrip(|keys|);
    assert U16At(data, 0) == |keys|;
    forall i | 0 <= i < |keys| ensures U32At(data, 2 + 4 * i) == keys[i] {
      KeysLeAt(keys, rest, i);
      assert U32At(data, 2 + 4 * i) == U32At(tail, 4 * i);
    }
    assert KeysAt(data, 2, |keys|) == keys;
  }

  /** What `read_keys` accepts is exactly the encoding of the keys it returns. */
  lemma KeyListCanonical(data: seq<u8>, pos: nat, keys: seq<u32>, p: nat)
    requires KeyList(data, pos) == Ok((keys, p))
    ensures |keys| < 0x1_0000 && p == pos + 2 + 4 * |keys|
    ensures data[pos..p] == KeyListLe(keys)
  {
    U16Canonical(data, pos);
    KeysAtCanonical(data, pos + 2, |keys|);
    assert data[pos..p] == data[pos..pos + 2] + data[pos + 2..p];
  }

  /** A run of keys read from the input re-encodes to the bytes it was read from. */
  lemma {:induction false} KeysAtCanonical(data: seq<u8>, pos: nat, n: nat)
    requires pos + 4 * n <= |data|
    ensures KeysLe(KeysAt(data, pos, n)) == data[pos..pos + 4 * n]
    decreases n
  {
    if n > 0 {
      var m := n - 1;
      KeysAtCanonical(data, pos, m);
      assert KeysAt(data, pos, n)[..m] == KeysAt(data, pos, m);
      U32Canonical(data, pos + 4 * m);
      assert data[pos..pos + 4 * n] == data[pos..pos + 4 * m] + data[pos + 4 * m..pos + 4 * n];
    }
  }

  // Rejected inputs

  /** A section fails only at the end of the input or where the source panics. */
  lemma SectionNeverInvalidData(data: seq<u8>, strLen: u16, bit: nat, s: State)
    requires bit < SectionCount
    ensures SectionAt(data, strLen, bit, s) != Err(InvalidData)
  {
    if SectionOf(bit).Strings? && SectionAt(data, strLen, bit, s).Err? {
      match KeyList(data, s.pos)
      case Err(_) =>
      case Ok((keys, p)) =>
        var q := p + 2 * |keys|;
        if q + strLen <= |data| {
          var offsets := OffsetsAt(data, p, |keys|);
          var pairs, buffer := Zip(keys, offsets), data[q..q + strLen];
          StringsSectionComplete(data, s.pos, strLen, s.entries, keys, p, offsets, buffer);
          if StoreStrings(s.entries, pairs, buffer).Err? {
            StoreStringsFirstFailure(s.entries, pairs, buffer);
          }
        }
    }
  }

  /** Reading a run of sections never reports `InvalidData`. */
  lemma {:induction false} RunSectionsNeverInvalidData(data: seq<u8>, strLen: u16, init: Result<State>, bits: seq<nat>)
    requires forall i | 0 <= i < |bits| :: bits[i] < SectionCount
    requires init != Err(InvalidData)
    ensures RunSections(data, strLen, init, bits) != Err(InvalidData)
    decreases |bits|
  {
    if bits != [] {
      var n := |bits| - 1;
      RunSectionsNeverInvalidData(data, strLen, init, bits[..n]);
      match RunSections(data, strLen, init, bits[..n])
      case Err(_) =>
      case Ok(s) => SectionNeverInvalidData(data, strLen, bits[n], s);
    }
  }

  /** `from_bytes` reports `InvalidData` exactly when the first byte is a
      version other than 1 and 2: every other failure is the end of the input
      or a panic of the source. */
  lemma ParseRejectsExactlyUnknownVersions(data: seq<u8>)
    ensures Parse(data) == Err(InvalidData) <==> 0 < |data| && data[0] != 1 && data[0] != 2
  {
    if 0 < |data| && data[0] == 1 && 12 <= |data| {
      var n: nat := U32At(data, 4);
      if 12 + 8 * n <= |data| {
        var pairs, buffer := PairsAt(data, 12, n), data[12 + 8 * n..];
        if StoreStrings([], pairs, buffer).Err? {
          StoreStringsFirstFailure([], pairs, buffer);
        }
      }
    } else if 0 < |data| && data[0] == 2 && 5 <= |data| {
      RunSectionsNeverInvalidData(data, U16At(data, 1), Ok(State([], 5)), ActiveSections(U16At(data, 3)));
    }
  }

  /** A legacy parse ends in one of the source's panics exactly when its whole
      table is present and some pair of it cannot be stored; a short input is
      an `UnexpectedEof` instead. */
  lemma V1PanicsExactlyOnUnstorablePairs(data: seq<u8>, pos: nat)
    ensures V1(data, pos).Err? && V1(data, pos).error.IsPanic()
        <==> && pos + 8 <= |data|
             && pos + 8 + 8 * U32At(data, pos) <= |data|
             && !AllStorable(PairsAt(data, pos + 8, U32At(data, pos)), data[pos + 8 + 8 * U32At(data, pos)..])
  {
    if pos + 8 <= |data| && pos + 8 + 8 * U32At(data, pos) <= |data| {
      var n: nat := U32At(data, pos);
      var pairs, buffer := PairsAt(data, pos + 8, n), data[pos + 8 + 8 * n..];
      V1Complete(data, pos, pairs, buffer);
      StoreStringsSucceeds([], pairs, buffer);
      if StoreStrings([], pairs, buffer).Err? {
        StoreStringsFirstFailure([], pairs, buffer);
      }
    }
  }

  // What a section adds to the map

  /** A numeric section that is read whole consumes the key list and one
      payload per key, and inserts key `i` with payload `i`. */
  lemma NumbersSectionContents(data: seq<u8>, pos: nat, kind: NumKind, es: Entries, keys: seq<u32>, p: nat)
    requires KeyList(data, pos) == Ok((keys, p)) && NumbersSection(data, pos, kind, es).Ok?
    ensures p + |keys| * Width(kind) <= |data|
    ensures forall i | 0 <= i < |keys| :: p + i * Width(kind) + Width(kind) <= |data|
    ensures NumbersSection(data, pos, kind, es).value
         == State(InsertAll(es, Payloads(kind, keys, data, p)), p + |keys| * Width(kind))
  {
    var w := Width(kind);
    if |data| < p + |keys| * w {
      assert false;
    }
    forall i | 0 <= i < |keys| ensures p + i * w + w <= |data| {
      PayloadsAt(kind, keys, data, p, i);
    }
  }

  /** After a numeric section the map holds the old keys and the listed ones;
      keys not listed keep their values. */
  lemma NumbersSectionKeys(kind: NumKind, keys: seq<u32>, data: seq<u8>, p: nat, es: Entries)
    requires p + |keys| * Width(kind) <= |data|
    ensures var es' := InsertAll(es, Payloads(kind, keys, data, p));
      && (forall k :: k in Keys(es') <==> k in Keys(es) || k in keys)
      && (forall k | k !in keys :: Lookup(es', k) == Lookup(es, k))
  {
    var kvs := Payloads(kind, keys, data, p);
    PayloadsKeys(kind, keys, data, p);
    InsertAllKeys(es, kvs);
    InsertAllUnlisted(es, kvs);
  }

  /** After a numeric section each listed key holds the payload of its last occurrence. */
  lemma NumbersSectionValues(kind: NumKind, keys: seq<u32>, data: seq<u8>, p: nat, es: Entries, i: nat)
    requires p + |keys| * Width(kind) <= |data| && LastIndex(keys, i)
    ensures p + i * Width(kind) + Width(kind) <= |data|
    ensures Lookup(InsertAll(es, Payloads(kind, keys, data, p)), keys[i]) == Some(Payload(kind, data, p + i * Width(kind)))
  {
    var kvs := Payloads(kind, keys, data, p);
    PayloadsKeys(kind, keys, data, p);
    PayloadsAt(kind, keys, data, p, i);
    InsertAllLookup(es, kvs, keys[i]);
    LastValueAt(kvs, i);
  }

  /** The entries of a numeric section carry the listed keys, in order. */
  lemma PayloadsKeys(kind: NumKind, keys: seq<u32>, data: seq<u8>, p: nat)
    requires p + |keys| * Width(kind) <= |data|
    ensures Keys(Payloads(kind, keys, data, p)) == keys
  {
    assert forall i | 0 <= i < |keys| :: Payloads(kind, keys, data, p)[i].key == keys[i];
  }

  /** Entry `i` of a numeric section is key `i` with the payload `i` strides in. */
  lemma PayloadsAt(kind: NumKind, keys: seq<u32>, data: seq<u8>, p: nat, i: nat)
    requires p + |keys| * Width(kind) <= |data| && i < |keys|
    ensures p + i * Width(kind) + Width(kind) <= |data|
    ensures Payloads(kind, keys, data, p)[i] == Entry(keys[i], Payload(kind, data, p + i * Width(kind)))
  {
    StrideWithin(i, |keys|, Width(kind));
  }

  /** Every key a numeric section lists ends up holding a value with the section's tag. */
  lemma NumbersSectionTags(kind: NumKind, keys: seq<u32>, data: seq<u8>, p: nat, es: Entries, k: u32)
    requires p + |keys| * Width(kind) <= |data| && k in keys
    ensures var v := Lookup(InsertAll(es, Payloads(kind, keys, data, p)), k);
      v.Some? && Tagged(kind, v.value)
  {
    var i := LastIndexOf(keys, k);
    NumbersSectionValues(kind, keys, data, p, es, i);
  }

  /** A boolean section that is read whole consumes the key list and
      ceil(n / 8) bytes; key `i` (at its last occurrence) gets binary digit
      `i % 8` of byte `i / 8`; keys not listed keep their values. */
  lemma BoolsSectionContents(data: seq<u8>, pos: nat, es: Entries, keys: seq<u32>, p: nat)
    requires KeyList(data, pos) == Ok((keys, p)) && BoolsSection(data, pos, es).Ok?
    ensures p + PackedBytes(|keys|) <= |data|
    ensures var s := BoolsSection(data, pos, es).value;
      && s.pos == p + PackedBytes(|keys|)
      && s.entries == InsertAll(es, Flags(keys, data, p))
    ensures var es' := InsertAll(es, Flags(keys, data, p));
      && (forall k :: k in Keys(es') <==> k in Keys(es) || k in keys)
      && (forall k | k !in keys :: Lookup(es', k) == Lookup(es, k))
      && (forall i: nat | LastIndex(keys, i) :: Lookup(es', keys[i]) == Some(Bool(Digit(data[p + i / 8], i % 8) == 1)))
  {
    var kvs := Flags(keys, data, p);
    assert Keys(kvs) == keys;
    InsertAllKeys(es, kvs);
    InsertAllUnlisted(es, kvs);
    forall i: nat | LastIndex(keys, i)
      ensures Lookup(InsertAll(es, kvs), keys[i]) == Some(Bool(Digit(data[p + i / 8], i % 8) == 1))
    {
      assert kvs[i] == Entry(keys[i], Bool(BitSet(data[p + i / 8], i % 8)));
      BitSetIsDigit(data[p + i / 8], i % 8);
      InsertAllLookup(es, kvs, keys[i]);
      LastValueAt(kvs, i);
    }
  }

  /** A string section that is read whole consumes the key list, two bytes
      per offset and the `str_len` bytes of the buffer; each key gets the
      string at its offset in that buffer, cut at the first NUL. */
  lemma StringsSectionContents(data: seq<u8>, pos: nat, strLen: u16, es: Entries, keys: seq<u32>, p: nat)
    requires KeyList(data, pos) == Ok((keys, p)) && StringsSection(data, pos, strLen, es).Ok?
    ensures p + 2 * |keys| + strLen <= |data|
    ensures var q := p + 2 * |keys|;
      var pairs, buffer := Zip(keys, OffsetsAt(data, p, |keys|)), data[q..q + strLen];
      var s := StringsSection(data, pos, strLen, es).value;
      && (forall i | 0 <= i < |pairs| :: pairs[i].1 <= |buffer|)
      && s.pos == q + strLen
      && s.entries == InsertAll(es, StringEntries(pairs, buffer))
  {
    var q := p + 2 * |keys|;
    if |data| < q + strLen {
      StringsBufferTruncated(data, pos, strLen, es, keys, p);
      assert false;
    }
    var offsets := OffsetsAt(data, p, |keys|);
    var pairs, buffer := Zip(keys, offsets), data[q..q + strLen];
    StringsSectionComplete(data, pos, strLen, es, keys, p, offsets, buffer);
    StoreStringsInserts(es, pairs, buffer);
  }

  /** In a string section that is read whole, every offset lies within the buffer. */
  lemma StringsSectionOffsets(data: seq<u8>, pos: nat, strLen: u16, es: Entries, keys: seq<u32>, p: nat)
    requires KeyList(data, pos) == Ok((keys, p)) && StringsSection(data, pos, strLen, es).Ok?
    ensures p + 2 * |keys| <= |data|
    ensures forall i | 0 <= i < |keys| :: U16At(data, p + 2 * i) <= strLen
  {
    var q := p + 2 * |keys|;
    if |data| < q + strLen {
      StringsBufferTruncated(data, pos, strLen, es, keys, p);
      assert false;
    }
    var offsets := OffsetsAt(data, p, |keys|);
    var pairs, buffer := Zip(keys, offsets), data[q..q + strLen];
    StringsSectionComplete(data, pos, strLen, es, keys, p, offsets, buffer);
    StoreStringsInRange(es, pairs, buffer);
    assert |buffer| == strLen;
    forall i | 0 <= i < |keys| ensures U16At(data, p + 2 * i) <= strLen {
      ZipOffsetAt(keys, data, p, i);
    }
  }

  /** Pair `i` of a string section carries offset `i` of the input. */
  lemma ZipOffsetAt(keys: seq<u32>, data: seq<u8>, p: nat, i: nat)
    requires p + 2 * |keys| <= |data| && i < |keys|
    ensures Zip(keys, OffsetsAt(data, p, |keys|))[i].1 == U16At(data, p + 2 * i)
  {
  }

  // The shape of every map the reader returns

  /** A value as the reader stores it: a string is UTF-8 without NUL, a vector has 2 to 4 elements. */
  ghost predicate WellFormedValue(v: Value) {
    && (v.String? ==> Utf8.Valid(v.utf8) && forall i | 0 <= i < |v.utf8| :: v.utf8[i] != 0)
    && (v.Vec? ==> 2 <= |v.elems| <= 4)
  }

  /** No key twice, every value well formed. */
  ghost predicate WellFormed(es: Entries) {
    UniqueKeys(es) && forall e | e in es :: WellFormedValue(e.value)
  }

  /** Inserting well-formed values keeps a map well formed. */
  lemma InsertAllWellFormed(es: Entries, kvs: Entries)
    requires WellFormed(es) && forall e | e in kvs :: WellFormedValue(e.value)
    ensures WellFormed(InsertAll(es, kvs))
  {
    InsertAllKeepsUnique(es, kvs);
    InsertAllEntries(es, kvs);
  }

  /** Each section keeps the map well formed. */
  lemma SectionWellFormed(data: seq<u8>, strLen: u16, bit: nat, s: State)
    requires bit < SectionCount && WellFormed(s.entries) && SectionAt(data, strLen, bit, s).Ok?
    ensures WellFormed(SectionAt(data, strLen, bit, s).value.entries)
  {
    match KeyList(data, s.pos)
    case Err(_) =>
    case Ok((keys, p)) =>
      match SectionOf(bit)
      case Numbers(kind) =>
        var w := Width(kind);
        if |data| < p + |keys| * w {
          assert false;
        }
        var kvs := Payloads(kind, keys, data, p);
        forall j | 0 <= j < |kvs| ensures WellFormedValue(kvs[j].value) {
          StrideWithin(j, |keys|, w);
        }
        InsertAllWellFormed(s.entries, kvs);
      case Bools =>
        if |data| < p + PackedBytes(|keys|) {
          assert false;
        }
        InsertAllWellFormed(s.entries, Flags(keys, data, p));
      case Strings =>
        var q := p + 2 * |keys|;
        if |data| < q + strLen {
          StringsBufferTruncated(data, s.pos, strLen, s.entries, keys, p);
          assert false;
        }
        var offsets := OffsetsAt(data, p, |keys|);
        var pairs, buffer := Zip(keys, offsets), data[q..q + strLen];
        StringsSectionComplete(data, s.pos, strLen, s.entries, keys, p, offsets, buffer);
        StoreStringsInserts(s.entries, pairs, buffer);
        StoreStringsSucceeds(s.entries, pairs, buffer);
        StringEntriesWellFormed(pairs, buffer);
        InsertAllWellFormed(s.entries, StringEntries(pairs, buffer));
  }

  /** The strings a successful run of stores inserts are well formed. */
  lemma StringEntriesWellFormed(pairs: seq<(u32, nat)>, buffer: seq<u8>)
    requires forall i | 0 <= i < |pairs| :: Storable(pairs[i], buffer)
    ensures forall i | 0 <= i < |pairs| :: pairs[i].1 <= |buffer|
    ensures forall e | e in StringEntries(pairs, buffer) :: WellFormedValue(e.value)
  {
    forall i | 0 <= i < |pairs| ensures pairs[i].1 <= |buffer| {
      assert Storable(pairs[i], buffer);
    }
  }

  /** Reading a run of sections keeps the map well formed. */
  lemma {:induction false} RunSectionsWellFormed(data: seq<u8>, strLen: u16, init: Result<State>, bits: seq<nat>)
    requires forall i | 0 <= i < |bits| :: bits[i] < SectionCount
    requires init.Ok? ==> WellFormed(init.value.entries)
    ensures RunSections(data, strLen, init, bits).Ok? ==> WellFormed(RunSections(data, strLen, init, bits).value.entries)
    decreases |bits|
  {
    if bits != [] {
      var n := |bits| - 1;
      RunSectionsWellFormed(data, strLen, init, bits[..n]);
      match RunSections(data, strLen, init, bits[..n])
      case Err(_) =>
      case Ok(s) =>
        if SectionAt(data, strLen, bits[n], s).Ok? {
          SectionWellFormed(data, strLen, bits[n], s);
        }
    }
  }

  /** Every map `from_bytes` returns has unique keys, strings that are UTF-8
      without NUL, and vectors of 2 to 4 elements. */
  lemma ParseWellFormed(data: seq<u8>)
    requires Parse(data).Ok?
    ensures WellFormed(Parse(data).value)
  {
    if data[0] == 1 {
      var n: nat := U32At(data, 4);
      var pairs, buffer := PairsAt(data, 12, n), data[12 + 8 * n..];
      StoreStringsInserts([], pairs, buffer);
      StoreStringsSucceeds([], pairs, buffer);
      StringEntriesWellFormed(pairs, buffer);
      InsertAllWellFormed([], StringEntries(pairs, buffer));
    } else {
      RunSectionsWellFormed(data, U16At(data, 1), Ok(State([], 5)), ActiveSections(U16At(data, 3)));
    }
  }

  // The legacy layout

  /** The keys of a legacy table, in order. */
  function TableKeys(pairs: seq<(u32, nat)>): (ks: seq<u32>)
    ensures |ks| == |pairs|
    ensures forall i | 0 <= i < |pairs| :: ks[i] == pairs[i].0
  {
    seq(|pairs|, i requires 0 <= i < |pairs| => pairs[i].0)
  }

  /** A legacy input yields only strings: the map is the table's keys, in
      order, each with the string at its offset in the buffer that follows
      the table. */
  lemma V1AllStrings(data: seq<u8>, pos: nat)
    requires V1(data, pos).Ok?
    ensures pos + 8 + 8 * U32At(data, pos) <= |data|
    ensures var n: nat := U32At(data, pos);
      var pairs, buffer := PairsAt(data, pos + 8, n), data[pos + 8 + 8 * n..];
      var es := V1(data, pos).value;
      && (forall i | 0 <= i < n :: pairs[i].1 <= |buffer|)
      && es == InsertAll([], StringEntries(pairs, buffer))
      && (forall e | e in es :: e.value.String?)
      && (forall k :: k in Keys(es) <==> k in TableKeys(pairs))
  {
    var n: nat := U32At(data, pos);
    var pairs, buffer := PairsAt(data, pos + 8, n), data[pos + 8 + 8 * n..];
    StoreStringsInserts([], pairs, buffer);
    var kvs := StringEntries(pairs, buffer);
    InsertAllEntries([], kvs);
    assert Keys(kvs) == TableKeys(pairs);
    InsertAllKeys([], kvs);
  }

  /** `V1` reads nothing of the four bytes after the entry count. */
  lemma V1SkipsDataCount(data: seq<u8>, data': seq<u8>, pos: nat)
    requires |data'| == |data| && pos + 8 <= |data|
    requires forall i | pos <= i < |data| && (i < pos + 4 || pos + 8 <= i) :: data'[i] == data[i]
    ensures V1(data', pos) == V1(data, pos)
  {
    var n: nat := U32At(data, pos);
    U32AtAgree(data, data', pos);
    var p := pos + 8;
    if p + 8 * n <= |data| {
      PairsAtAgree(data, data', p, n);
      assert data'[p + 8 * n..] == data[p + 8 * n..];
    }
  }

  /** A `u32` depends on its four bytes only. */
  lemma U32AtAgree(data: seq<u8>, data': seq<u8>, x: nat)
    requires x + 4 <= |data| && x + 4 <= |data'|
    requires forall i | x <= i < x + 4 :: data'[i] == data[i]
    ensures U32At(data', x) == U32At(data, x)
  {
  }

  /** A legacy table depends on its own bytes only. */
  lemma PairsAtAgree(data: seq<u8>, data': seq<u8>, p: nat, n: nat)
    requires |data'| == |data| && p + 8 * n <= |data|
    requires forall i | p <= i < |data| :: data'[i] == data[i]
    ensures PairsAt(data', p, n) == PairsAt(data, p, n)
  {
    forall j | 0 <= j < n ensures PairsAt(data', p, n)[j] == PairsAt(data, p, n)[j] {
      U32AtAgree(data, data', p + 8 * j);
      U32AtAgree(data, data', p + 8 * j + 4);
    }
  }

  /** The data count of the legacy header is only a capacity hint: any value there gives the same parse. */
  lemma V1IgnoresDataCount(data: seq<u8>, pos: nat, count: u32)
    requires pos + 8 <= |data|
    ensures V1(data[..pos + 4] + U32Le(count) + data[pos + 8..], pos) == V1(data, pos)
  {
    var data' := data[..pos + 4] + U32Le(count) + data[pos + 8..];
    forall i | pos <= i < |data| && (i < pos + 4 || pos + 8 <= i) ensures data'[i] == data[i] {
    }
    V1SkipsDataCount(data, data', pos);
  }

  // Section flags

  /** Flag bits 13 to 15 name no section: the sections read depend only on the low 13 bits. */
  lemma HighFlagBitsIgnored(flags: u16)
    ensures ActiveSections(flags) == ActiveSections(flags % 0x2000)
  {
    assert Pow2(13) == 0x2000;
    forall b: nat | b < SectionCount ensures IsBitSet(flags, b) <==> IsBitSet(flags % 0x2000, b) {
      BitSetIsDigit(flags, b);
      BitSetIsDigit(flags % 0x2000, b);
      DigitBelowModulus(flags, b, 13);
    }
    SameBitsBelow(flags, flags % 0x2000, SectionCount);
  }

  /** Two flag words that agree on the bits below `k` announce the same sections below `k`. */
  lemma {:induction false} SameBitsBelow(f: u16, g: u16, k: nat)
    requires k <= 16 && forall b: nat | b < k :: IsBitSet(f, b) <==> IsBitSet(g, b)
    ensures ActiveBelow(f, k) == ActiveBelow(g, k)
  {
    if k > 0 {
      SameBitsBelow(f, g, k - 1);
    }
  }
}
