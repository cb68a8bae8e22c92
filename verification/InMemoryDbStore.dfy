/** Key/value entries kept in insertion order: what an in-memory store holds. */
module OrderedEntries {
  import opened Wrappers

  datatype Entry<K, V> = Entry(key: K, value: V)

  /** The position of key `k`, or the number of entries when it is absent. */
  function IndexOf<K(==), V>(es: seq<Entry<K, V>>, k: K): (i: nat)
    ensures i <= |es|
    ensures i < |es| ==> es[i].key == k
    ensures forall j :: 0 <= j < i ==> es[j].key != k
  {
    if es == [] || es[0].key == k then 0 else 1 + IndexOf(es[1..], k)
  }

  function Lookup<K(==), V>(es: seq<Entry<K, V>>, k: K): Option<V> {
    var i := IndexOf(es, k);
    if i < |es| then Some(es[i].value) else None
  }

  /** A new key goes last; a key that is present keeps its position. */
  function Put<K(==), V>(es: seq<Entry<K, V>>, k: K, v: V): seq<Entry<K, V>> {
    var i := IndexOf(es, k);
    if i < |es| then es[i := Entry(k, v)] else es + [Entry(k, v)]
  }

  function Remove<K(==), V>(es: seq<Entry<K, V>>, k: K): seq<Entry<K, V>> {
    var i := IndexOf(es, k);
    if i < |es| then es[..i] + es[i + 1..] else es
  }

  ghost predicate Distinct<K, V>(es: seq<Entry<K, V>>) {
    forall i, j :: 0 <= i < j < |es| ==> es[i].key != es[j].key
  }

  lemma IndexOfIsUnique<K, V>(es: seq<Entry<K, V>>, k: K, i: nat)
    requires i < |es| ==> es[i].key == k
    requires i <= |es| && forall j :: 0 <= j < i ==> es[j].key != k
    ensures IndexOf(es, k) == i
  {
  }

  /** Entries with distinct keys are a dictionary: what `Put` leaves under every key. */
  lemma PutActsOnOneKey<K, V>(es: seq<Entry<K, V>>, k: K, v: V, other: K)
    requires Distinct(es)
    ensures Distinct(Put(es, k, v))
    ensures Lookup(Put(es, k, v), other) == if other == k then Some(v) else Lookup(es, other)
  {
    var put := Put(es, k, v);
    var o := IndexOf(es, other);
    IndexOfIsUnique(put, other, if other == k then IndexOf(es, k) else if o < |es| then o else |put|);
  }

  /** A known key keeps its position, and the others theirs; a new key goes last. */
  lemma PutKeepsOrder<K, V>(es: seq<Entry<K, V>>, k: K, v: V)
    requires Distinct(es)
    ensures forall i :: 0 <= i < |es| && es[i].key == k ==> Put(es, k, v) == es[i := Entry(k, v)]
    ensures (forall i :: 0 <= i < |es| ==> es[i].key != k) ==> Put(es, k, v) == es + [Entry(k, v)]
  {
    assert forall i :: 0 <= i < |es| && es[i].key == k ==> i == IndexOf(es, k);
  }

  /** The entry of the key goes, and the others stay in order. */
  lemma RemoveKeepsOrder<K, V>(es: seq<Entry<K, V>>, k: K)
    requires Distinct(es)
    ensures forall i :: 0 <= i < |es| && es[i].key == k ==> Remove(es, k) == es[..i] + es[i + 1..]
    ensures (forall i :: 0 <= i < |es| ==> es[i].key != k) ==> Remove(es, k) == es
  {
    assert forall i :: 0 <= i < |es| && es[i].key == k ==> i == IndexOf(es, k);
  }

  /** What `Remove` leaves under every key. */
  lemma RemoveActsOnOneKey<K, V>(es: seq<Entry<K, V>>, k: K, other: K)
    requires Distinct(es)
    ensures Distinct(Remove(es, k))
    ensures Lookup(Remove(es, k), other) == if other == k then None else Lookup(es, other)
  {
    var removed := Remove(es, k);
    var i, o := IndexOf(es, k), IndexOf(es, other);
    IndexOfIsUnique(removed, other, if other == k || o == |es| then |removed| else if o < i then o else o - 1);
  }
}

/** The in-memory store, and the mapper that gives it typed values. */
module InMemoryDbStore {
  import opened Wrappers
  import opened StoreUtils
  import opened OrderedEntries
  import opened Bytes

  type Value = seq<byte>

  const INT_MAX: int := 0x7FFF_FFFF
  const INT_MIN: int := -0x8000_0000

  type int32 = x: int | INT_MIN <= x <= INT_MAX

  /** The 32-bit value that wrap-around leaves of `x`. */
  function WrapInt(x: int): int32 {
    if INT_MIN <= x <= INT_MAX then x else (x - INT_MIN) % 0x1_0000_0000 + INT_MIN
  }

  /** The entries that one batch visits: from `index` up to a bound computed in 32 bits. */
  function Batch<K, V>(es: seq<Entry<K, V>>, index: nat, batchSize: int32): seq<Entry<K, V>>
    requires index <= |es|
  {
    var stop := WrapInt(index + batchSize);
    if stop <= index then [] else es[index..if stop < |es| then stop else |es|]
  }

  /** At most `batchSize` entries from `index` on, unless the bound overflows; then none. */
  lemma BatchIsSliceUnlessOverflow<K, V>(es: seq<Entry<K, V>>, index: nat, batchSize: int32)
    requires index <= |es| <= INT_MAX && 1 <= batchSize
    ensures Batch(es, index, batchSize) ==
            if index + batchSize > INT_MAX then []
            else es[index..if index + batchSize < |es| then index + batchSize else |es|]
  {
  }

  class InMemoryDbStore {
    var items: seq<Entry<Key, Value>>

    constructor ()
      ensures items == []
    {
      items := [];
    }

    method Get(key: Key) returns (r: Option<Value>)
      ensures r == Lookup(items, key)
    {
      var i := IndexOf(items, key);
      r := if i < |items| then Some(items[i].value) else None;
    }

    method Put(key: Key, value: Value)
      modifies this
      ensures items == OrderedEntries.Put(old(items), key, value)
    {
      var i := IndexOf(items, key);
      if i == |items| {
        items := items + [Entry(key, value)];
      } else {
        items := items[i := Entry(items[i].key, value)];
      }
    }

    method Remove(key: Key)
      modifies this
      ensures items == OrderedEntries.Remove(old(items), key)
    {
      var i := IndexOf(items, key);
      if i < |items| {
        items := items[..i] + items[i + 1..];
      }
    }

    method GetFirstEntry() returns (r: Option<Entry<Key, Value>>)
      ensures r == if items == [] then None else Some(items[0])
    {
      r := if |items| > 0 then Some(items[0]) else None;
    }

    method GetLastEntry() returns (r: Option<Entry<Key, Value>>)
      ensures r == if items == [] then None else Some(items[|items| - 1])
    {
      r := if |items| > 0 then Some(items[|items| - 1]) else None;
    }

    /** The entries handed to the callback, in order, when iteration starts at the front. */
    method IterateBatch(batchSize: int32) returns (batch: seq<Entry<Key, Value>>)
      ensures batch == Batch(items, 0, batchSize)
    {
      batch := IterateSnapshot(items, 0, batchSize);
    }

    /** Iteration from a key that is absent starts past the end. */
    method IterateBatchFrom(startKey: Key, batchSize: int32) returns (batch: seq<Entry<Key, Value>>)
      ensures batch == Batch(items, IndexOf(items, startKey), batchSize)
    {
      var snapshot := items;
      var i := 0;
      while i < |snapshot| && snapshot[i].key != startKey
        invariant 0 <= i <= |snapshot|
        invariant forall j :: 0 <= j < i ==> snapshot[j].key != startKey
      {
        i := i + 1;
      }
      IndexOfIsUnique(snapshot, startKey, i);
      batch := IterateSnapshot(snapshot, i, batchSize);
    }

    static method IterateSnapshot(snapshot: seq<Entry<Key, Value>>, index: nat, batchSize: int32)
      returns (batch: seq<Entry<Key, Value>>)
      requires index <= |snapshot|
      ensures batch == Batch(snapshot, index, batchSize)
    {
      batch := [];
      var i := index;
      while i < WrapInt(index + batchSize) && i < |snapshot|
        invariant index <= i <= |snapshot|
        invariant i > index ==> i <= WrapInt(index + batchSize)
        invariant batch == snapshot[index..i]
      {
        batch := batch + [snapshot[i]];
        i := i + 1;
      }
    }
  }

  /** Typed values over byte values; keys are bytes already. */
  class KeyValueStoreMapper<T(!new)> {
    const db: InMemoryDbStore
    const from: T -> Value
    const to: Value -> T

    ghost predicate Faithful() {
      forall v: T :: to(from(v)) == v
    }

    constructor (db: InMemoryDbStore, from: T -> Value, to: Value -> T)
      ensures this.db == db && this.from == from && this.to == to
    {
      this.db, this.from, this.to := db, from, to;
    }

    ghost function Entries(): seq<Entry<Key, T>>
      reads db
    {
      ValuesMapped(db.items, to)
    }

    method Get(key: Key) returns (r: Option<T>)
      ensures r == Lookup(Entries(), key)
    {
      var value := db.Get(key);
      ValuesMappedIndex(db.items, to, key);
      r := match value case Some(v) => Some(to(v)) case None => None;
    }

    method Put(key: Key, value: T)
      requires Faithful()
      modifies db
      ensures Entries() == OrderedEntries.Put(old(Entries()), key, value)
    {
      ValuesMappedIndex(db.items, to, key);
      db.Put(key, from(value));
    }

    method Remove(key: Key)
      modifies db
      ensures Entries() == OrderedEntries.Remove(old(Entries()), key)
    {
      ValuesMappedIndex(db.items, to, key);
      db.Remove(key);
    }

    method GetFirstEntry() returns (r: Option<Entry<Key, T>>)
      ensures r == if Entries() == [] then None else Some(Entries()[0])
    {
      var e := db.GetFirstEntry();
      r := match e case Some(Entry(k, v)) => Some(Entry(k, to(v))) case None => None;
    }

    method GetLastEntry() returns (r: Option<Entry<Key, T>>)
      ensures r == if Entries() == [] then None else Some(Entries()[|Entries()| - 1])
    {
      var e := db.GetLastEntry();
      r := match e case Some(Entry(k, v)) => Some(Entry(k, to(v))) case None => None;
    }

    /** The typed entries handed to the callback; an empty batch size is refused. */
    method IterateBatchFrom(startKey: Key, batchSize: int32) returns (r: Option<seq<Entry<Key, T>>>)
      ensures r == if batchSize < 1 then None
                   else Some(Batch(Entries(), IndexOf(Entries(), startKey), batchSize))
    {
      if batchSize < 1 {
        return None;
      }
      ValuesMappedIndex(db.items, to, startKey);
      var raw := db.IterateBatchFrom(startKey, batchSize);
      ValuesMappedBatch(db.items, to, IndexOf(db.items, startKey), batchSize);
      r := Some(ValuesMapped(raw, to));
    }
  }

  function ValuesMapped<K, V, W>(es: seq<Entry<K, V>>, to: V -> W): (r: seq<Entry<K, W>>)
    ensures |r| == |es|
    ensures forall i :: 0 <= i < |es| ==> r[i] == Entry(es[i].key, to(es[i].value))
  {
    seq(|es|, i requires 0 <= i < |es| => Entry(es[i].key, to(es[i].value)))
  }

  lemma ValuesMappedIndex<K, V, W>(es: seq<Entry<K, V>>, to: V -> W, k: K)
    ensures IndexOf(ValuesMapped(es, to), k) == IndexOf(es, k)
  {
    IndexOfIsUnique(ValuesMapped(es, to), k, IndexOf(es, k));
  }

  lemma ValuesMappedBatch<K, V, W>(es: seq<Entry<K, V>>, to: V -> W, index: nat, batchSize: int32)
    requires index <= |es|
    ensures ValuesMapped(Batch(es, index, batchSize), to) == Batch(ValuesMapped(es, to), index, batchSize)
  {
  }
}
