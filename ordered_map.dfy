/** An insertion-ordered map, the part of `IndexMap` the reader uses, as a
    list of entries: `Insert` overwrites the value of a key already present
    in place and appends a new key at the end. */
module OrderedMap {

  import opened Results

  datatype Entry<K, V> = Entry(key: K, value: V)

  /** The keys in iteration order. */
  function Keys<K, V>(es: seq<Entry<K, V>>): (ks: seq<K>)
    ensures |ks| == |es|
    ensures forall i | 0 <= i < |es| :: ks[i] == es[i].key
  {
    seq(|es|, i requires 0 <= i < |es| => es[i].key)
  }

  ghost predicate Distinct<K>(ks: seq<K>) {
    forall i, j | 0 <= i < j < |ks| :: ks[i] != ks[j]
  }

  /** No key occurs twice: the invariant of every map the reader builds. */
  ghost predicate UniqueKeys<K, V>(es: seq<Entry<K, V>>) {
    Distinct(Keys(es))
  }

  /** The value of the first entry with key `k`. */
  function Lookup<K(==), V>(es: seq<Entry<K, V>>, k: K): (r: Option<V>)
    ensures r.Some? <==> k in Keys(es)
  {
    if es == [] then None
    else if es[0].key == k then Some(es[0].value)
    else Lookup(es[1..], k)
  }

  /** `IndexMap::insert`. */
  function Insert<K(==), V>(es: seq<Entry<K, V>>, k: K, v: V): seq<Entry<K, V>> {
    if es == [] then [Entry(k, v)]
    else if es[0].key == k then [Entry(k, v)] + es[1..]
    else [es[0]] + Insert(es[1..], k, v)
  }

  /** The entries `kvs` inserted one after the other, first to last. */
  function InsertAll<K(==), V>(es: seq<Entry<K, V>>, kvs: seq<Entry<K, V>>): seq<Entry<K, V>> {
    if kvs == [] then es
    else
      var last := kvs[|kvs| - 1];
      Insert(InsertAll(es, kvs[..|kvs| - 1]), last.key, last.value)
  }

  /** Inserting one more entry after a run of inserts. */
  lemma InsertAllSnoc<K, V>(es: seq<Entry<K, V>>, kvs: seq<Entry<K, V>>, e: Entry<K, V>)
    ensures InsertAll(es, kvs + [e]) == Insert(InsertAll(es, kvs), e.key, e.value)
  {
    assert (kvs + [e])[..|kvs|] == kvs;
  }

  /** The value of the last entry of `kvs` with key `k`. */
  function LastValue<K(==), V>(kvs: seq<Entry<K, V>>, k: K): (r: Option<V>)
    ensures r.Some? <==> k in Keys(kvs)
  {
    if kvs == [] then None
    else if kvs[|kvs| - 1].key == k then Some(kvs[|kvs| - 1].value)
    else
      assert Keys(kvs) == Keys(kvs[..|kvs| - 1]) + [kvs[|kvs| - 1].key];
      LastValue(kvs[..|kvs| - 1], k)
  }

  /** After inserting `k |-> v`, `k` maps to `v` and every other key to what it mapped to before. */
  lemma {:induction false} InsertLookup<K, V>(es: seq<Entry<K, V>>, k: K, v: V, k': K)
    ensures Lookup(Insert(es, k, v), k') == if k' == k then Some(v) else Lookup(es, k')
  {
    if es != [] && es[0].key != k {
      InsertLookup(es[1..], k, v, k');
      assert Insert(es, k, v)[1..] == Insert(es[1..], k, v);
    } else if es != [] {
      assert Insert(es, k, v)[1..] == es[1..];
    }
  }

  lemma KeysCons<K, V>(e: Entry<K, V>, es: seq<Entry<K, V>>)
    ensures Keys([e] + es) == [e.key] + Keys(es)
  {
  }

  /** A key already present keeps its place; a new key goes last. */
  lemma {:induction false} InsertKeys<K, V>(es: seq<Entry<K, V>>, k: K, v: V)
    ensures Keys(Insert(es, k, v)) == if k in Keys(es) then Keys(es) else Keys(es) + [k]
  {
    if es != [] {
      var rest := es[1..];
      assert es == [es[0]] + rest;
      KeysCons(es[0], rest);
      if es[0].key != k {
        InsertKeys(rest, k, v);
        KeysCons(es[0], Insert(rest, k, v));
      } else {
        KeysCons(Entry(k, v), rest);
      }
    }
  }

  lemma InsertKeepsUnique<K, V>(es: seq<Entry<K, V>>, k: K, v: V)
    requires UniqueKeys(es)
    ensures UniqueKeys(Insert(es, k, v))
  {
    InsertKeys(es, k, v);
  }

  /** With unique keys, inserting a key present at index `j` replaces entry `j`. */
  lemma {:induction false} InsertReplaces<K, V>(es: seq<Entry<K, V>>, j: nat, v: V)
    requires UniqueKeys(es) && j < |es|
    ensures Insert(es, es[j].key, v) == es[j := Entry(es[j].key, v)]
  {
    if j > 0 {
      assert Keys(es)[0] != Keys(es)[j];
      assert UniqueKeys(es[1..]) by {
        assert forall i | 0 <= i < |es| - 1 :: Keys(es[1..])[i] == Keys(es)[i + 1];
      }
      InsertReplaces(es[1..], j - 1, v);
      assert es[1..][j - 1 := Entry(es[j].key, v)] == es[j := Entry(es[j].key, v)][1..];
    }
  }

  /** Inserting an absent key appends it. */
  lemma {:induction false} InsertAppends<K, V>(es: seq<Entry<K, V>>, k: K, v: V)
    requires k !in Keys(es)
    ensures Insert(es, k, v) == es + [Entry(k, v)]
  {
    if es != [] {
      assert Keys(es) == [es[0].key] + Keys(es[1..]);
      InsertAppends(es[1..], k, v);
      assert [es[0]] + (es[1..] + [Entry(k, v)]) == es + [Entry(k, v)];
    }
  }

  /** After a run of inserts each listed key holds the value of its last
      occurrence; every other key keeps the value it had. */
  lemma {:induction false} InsertAllLookup<K, V>(es: seq<Entry<K, V>>, kvs: seq<Entry<K, V>>, k: K)
    ensures Lookup(InsertAll(es, kvs), k) == if k in Keys(kvs) then LastValue(kvs, k) else Lookup(es, k)
    decreases |kvs|
  {
    if kvs != [] {
      var init, last := kvs[..|kvs| - 1], kvs[|kvs| - 1];
      assert Keys(kvs) == Keys(init) + [last.key];
      InsertAllLookup(es, init, k);
      InsertLookup(InsertAll(es, init), last.key, last.value, k);
    }
  }

  /** A run of inserts keeps the old keys in their order and adds exactly the
      listed keys that were not there yet. */
  lemma {:induction false} InsertAllKeys<K, V>(es: seq<Entry<K, V>>, kvs: seq<Entry<K, V>>)
    ensures Keys(es) <= Keys(InsertAll(es, kvs))
    ensures forall k :: k in Keys(InsertAll(es, kvs)) <==> k in Keys(es) || k in Keys(kvs)
    decreases |kvs|
  {
    if kvs != [] {
      var init, last := kvs[..|kvs| - 1], kvs[|kvs| - 1];
      assert Keys(kvs) == Keys(init) + [last.key];
      InsertAllKeys(es, init);
      InsertKeys(InsertAll(es, init), last.key, last.value);
    }
  }

  lemma {:induction false} InsertAllKeepsUnique<K, V>(es: seq<Entry<K, V>>, kvs: seq<Entry<K, V>>)
    requires UniqueKeys(es)
    ensures UniqueKeys(InsertAll(es, kvs))
    decreases |kvs|
  {
    if kvs != [] {
      InsertAllKeepsUnique(es, kvs[..|kvs| - 1]);
      InsertKeepsUnique(InsertAll(es, kvs[..|kvs| - 1]), kvs[|kvs| - 1].key, kvs[|kvs| - 1].value);
    }
  }

  /** `i` is the last position of its key in `ks`. */
  ghost predicate LastIndex<K>(ks: seq<K>, i: nat) {
    i < |ks| && forall j | i < j < |ks| :: ks[j] != ks[i]
  }

  /** Every key of a list has a last occurrence. */
  lemma {:induction false} LastIndexOf<K>(ks: seq<K>, k: K) returns (i: nat)
    requires k in ks
    ensures LastIndex(ks, i) && ks[i] == k
    decreases |ks|
  {
    var n := |ks| - 1;
    if ks[n] == k {
      i := n;
    } else {
      assert k in ks[..n] by {
        var j :| 0 <= j < |ks| && ks[j] == k;
        assert ks[..n][j] == k;
      }
      i := LastIndexOf(ks[..n], k);
      assert forall j | i < j < n :: ks[..n][j] == ks[j];
    }
  }

  /** The last occurrence of a key supplies its value. */
  lemma {:induction false} LastValueAt<K, V>(kvs: seq<Entry<K, V>>, i: nat)
    requires LastIndex(Keys(kvs), i)
    ensures LastValue(kvs, kvs[i].key) == Some(kvs[i].value)
    decreases |kvs|
  {
    var n := |kvs| - 1;
    if i < n {
      assert kvs[n].key != kvs[i].key;
      LastValueAt(kvs[..n], i);
    }
  }

  /** Every entry after an insert is an old entry or the inserted one. */
  lemma {:induction false} InsertEntries<K, V>(es: seq<Entry<K, V>>, k: K, v: V)
    ensures forall e | e in Insert(es, k, v) :: e in es || e == Entry(k, v)
  {
    if es != [] && es[0].key != k {
      InsertEntries(es[1..], k, v);
      assert forall e | e in es[1..] :: e in es;
    } else if es != [] {
      assert forall e | e in es[1..] :: e in es;
    }
  }

  /** Every entry after a run of inserts is an old entry or one of the inserted ones. */
  lemma {:induction false} InsertAllEntries<K, V>(es: seq<Entry<K, V>>, kvs: seq<Entry<K, V>>)
    ensures forall e | e in InsertAll(es, kvs) :: e in es || e in kvs
    decreases |kvs|
  {
    if kvs != [] {
      var init, last := kvs[..|kvs| - 1], kvs[|kvs| - 1];
      InsertAllEntries(es, init);
      InsertEntries(InsertAll(es, init), last.key, last.value);
      assert forall e | e in init :: e in kvs;
    }
  }

  /** After a run of inserts keys not inserted keep their values. */
  lemma InsertAllUnlisted<K, V>(es: seq<Entry<K, V>>, kvs: seq<Entry<K, V>>)
    ensures forall k | k !in Keys(kvs) :: Lookup(InsertAll(es, kvs), k) == Lookup(es, k)
  {
    forall k | k !in Keys(kvs) ensures Lookup(InsertAll(es, kvs), k) == Lookup(es, k) {
      InsertAllLookup(es, kvs, k);
    }
  }
}
