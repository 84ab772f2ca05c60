/**
 The in-memory write buffer (metastore/memtable.go), with its running size estimate.
 */
module MemTable {
  import opened BigEndian
  import opened VectorClock
  import opened StatKey
  import opened KeyOrder
  import opened LsmMachine

  /** Bytes one key accounts for; proto.Size is the length of the encoding. */
  function Weight(c: Codec, k: Key, e: StatEntry): nat {
    |k| + |c.enc(e)|
  }

  /** What the size counter should read: the total weight of the table. */
  ghost function TotalOn(c: Codec, m: map<Key, StatEntry>, keys: set<Key>): int
    requires keys <= m.Keys
  {
    if keys == {} then 0
    else
      var k :| k in keys;
      Weight(c, k, m[k]) + TotalOn(c, m, keys - {k})
  }

  ghost function Total(c: Codec, m: map<Key, StatEntry>): int {
    TotalOn(c, m, m.Keys)
  }

  lemma {:induction false} TotalOnSplit(c: Codec, m: map<Key, StatEntry>, keys: set<Key>, k: Key)
    requires keys <= m.Keys && k in keys
    ensures TotalOn(c, m, keys) == Weight(c, k, m[k]) + TotalOn(c, m, keys - {k})
    decreases |keys|
  {
    hide Weight;
    var first :| first in keys && TotalOn(c, m, keys) == Weight(c, first, m[first]) + TotalOn(c, m, keys - {first});
    if first != k {
      TotalOnSplit(c, m, keys - {first}, k);
      TotalOnSplit(c, m, keys - {k}, first);
      assert keys - {first} - {k} == keys - {k} - {first};
    }
  }

  lemma {:induction false} TotalOnSame(c: Codec, m: map<Key, StatEntry>, n: map<Key, StatEntry>, keys: set<Key>)
    requires keys <= m.Keys && keys <= n.Keys && forall k <- keys :: m[k] == n[k]
    ensures TotalOn(c, m, keys) == TotalOn(c, n, keys)
    decreases |keys|
  {
    hide Weight;
    if keys != {} {
      var k :| k in keys;
      TotalOnSplit(c, m, keys, k);
      TotalOnSplit(c, n, keys, k);
      TotalOnSame(c, m, n, keys - {k});
    }
  }

  /** Replacing or adding one key changes the total by that key's weight alone. */
  lemma {:induction false} TotalUpdate(c: Codec, m: map<Key, StatEntry>, k: Key, e: StatEntry)
    ensures Total(c, m[k := e]) == Total(c, m) + Weight(c, k, e) - (if k in m then Weight(c, k, m[k]) else 0)
  {
    hide Weight;
    var n := m[k := e];
    TotalOnSplit(c, n, n.Keys, k);
    assert n.Keys - {k} == m.Keys - {k};
    TotalOnSame(c, m, n, m.Keys - {k});
    if k in m {
      TotalOnSplit(c, m, m.Keys, k);
    } else {
      assert m.Keys - {k} == m.Keys;
    }
  }

  class Table {
    const c: Codec
    var data: map<Key, StatEntry>
    var size: int

    ghost predicate Valid()
      reads this
    {
      size == Total(c, data)
    }

    constructor (c: Codec)
      ensures Valid() && data == map[] && this.c == c
    {
      this.c := c;
      data := map[];
      size := 0;
    }

    /** Put keeps the newer version of a key and the exact size of what it holds. */
    method Put(k: Key, e: StatEntry)
      requires Valid()
      modifies this
      ensures Valid() && data == PutMem(old(data), k, e)
      ensures k !in old(data) ==> size == old(size) + |k| + |c.enc(e)|
      ensures k in old(data) ==> size == old(size) + |c.enc(data[k])| - |c.enc(old(data)[k])|
    {
      TotalUpdate(c, data, k, if k in data then Newer(data[k], e) else e);
      if k in data {
        var winner := ComputeNewer(Some(data[k]), Some(e));
        size := size + (|c.enc(winner.value)| - |c.enc(data[k])|);
        data := data[k := winner.value];
        return;
      }
      data := data[k := e];
      size := size + |k| + |c.enc(e)|;
    }

    /** SortedEntries: every entry once, in key order. */
    method SortedEntries() returns (es: seq<StatEntry>)
      requires forall k <- data.Keys :: EntryKey(data[k]) == k
      ensures Ordered(es) && ToMap(es) == data && |es| == |data|
    {
      es := Entries(data);
      SortedByKey(es);
      ToMapOfSorted(es);
      SameMembers(SortByKey(es), es);
      es := SortByKey(es);
    }
  }

  lemma {:induction false} AppendEntry(es: seq<StatEntry>, e: StatEntry)
    requires DistinctKeys(es) && EntryKey(e) !in ToMap(es)
    ensures DistinctKeys(es + [e]) && ToMap(es + [e]) == ToMap(es)[EntryKey(e) := e]
  {
    hide EntryKey;
    ToMapMembers(es);
    assert (es + [e])[..|es|] == es;
  }

  /** Ranging over a map: its entries in an unspecified order. */
  method Entries(m: map<Key, StatEntry>) returns (es: seq<StatEntry>)
    requires forall k <- m.Keys :: EntryKey(m[k]) == k
    ensures DistinctKeys(es) && ToMap(es) == m && |es| == |m|
    ensures forall e :: e in es <==> EntryKey(e) in m && m[EntryKey(e)] == e
  {
    hide EntryKey, DistinctKeys, ToMap;
    es := [];
    assert DistinctKeys([]) && ToMap([]) == map[] by { NothingDistinct(); }
    var left := m.Keys;
    while left != {}
      invariant left <= m.Keys && DistinctKeys(es)
      invariant ToMap(es) == map k | k in m.Keys - left :: m[k]
      decreases |left|
    {
      var k :| k in left;
      AppendEntry(es, m[k]);
      es := es + [m[k]];
      left := left - {k};
    }
    ToMapMembers(es);
    assert ToMap(es) == m;
  }

  lemma {:induction false} NothingDistinct()
    ensures DistinctKeys([]) && ToMap([]) == map[]
  {}
}
