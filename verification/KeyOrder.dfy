/**
 Go's string order on keys and the sort that puts entries in key order before they are
 written to a table (metastore/sstable.go:38, metastore/memtable.go:62-75).
 */
module KeyOrder {
  import opened BigEndian
  import opened VectorClock
  import opened StatKey

  /** Lexicographic byte order. */
  predicate Less(a: Bytes, b: Bytes) {
    if b == [] then false
    else if a == [] then true
    else a[0] < b[0] || (a[0] == b[0] && Less(a[1..], b[1..]))
  }

  /** The order Go's string comparison defines: at the first difference the smaller byte comes
      first, and a proper prefix comes before its extensions. */
  lemma {:induction false} LessIsLexicographic(common: Bytes, a: Bytes, b: Bytes)
    requires a == [] || b == [] || a[0] != b[0]
    ensures Less(common + a, common + b) <==> b != [] && (a == [] || a[0] < b[0])
  {
    if common == [] {
      assert common + a == a && common + b == b;
    } else {
      assert (common + a)[1..] == common[1..] + a && (common + b)[1..] == common[1..] + b;
      LessIsLexicographic(common[1..], a, b);
    }
  }

  lemma {:induction false} LessTotal(a: Bytes, b: Bytes)
    ensures a == b || Less(a, b) || Less(b, a)
    ensures !(Less(a, b) && Less(b, a)) && (a == b ==> !Less(a, b))
  {
    if a != [] && b != [] {
      LessTotal(a[1..], b[1..]);
      assert a == [a[0]] + a[1..] && b == [b[0]] + b[1..];
    }
  }

  lemma {:induction false} LessTransitive(a: Bytes, b: Bytes, c: Bytes)
    requires Less(a, b) && Less(b, c)
    ensures Less(a, c)
  {
    if a != [] && a[0] == b[0] == c[0] { LessTransitive(a[1..], b[1..], c[1..]); }
  }

  ghost predicate DistinctKeys(es: seq<StatEntry>) {
    forall i, j :: 0 <= i < j < |es| ==> EntryKey(es[i]) != EntryKey(es[j])
  }

  ghost predicate Ordered(es: seq<StatEntry>) {
    forall i, j :: 0 <= i < j < |es| ==> Less(EntryKey(es[i]), EntryKey(es[j]))
  }

  function Insert(e: StatEntry, es: seq<StatEntry>): seq<StatEntry> {
    if es == [] then [e]
    else if Less(EntryKey(e), EntryKey(es[0])) then [e] + es
    else [es[0]] + Insert(e, es[1..])
  }

  /** sort.Slice by key: for distinct keys there is only one sorted arrangement. */
  function SortByKey(es: seq<StatEntry>): seq<StatEntry> {
    if es == [] then [] else Insert(es[0], SortByKey(es[1..]))
  }

  lemma {:induction false} InsertSorted(e: StatEntry, es: seq<StatEntry>)
    requires Ordered(es) && forall x <- es :: EntryKey(x) != EntryKey(e)
    ensures Ordered(Insert(e, es)) && multiset(Insert(e, es)) == multiset(es) + multiset{e}
  {
    hide Less, EntryKey;
    if es != [] {
      var k := EntryKey(e);
      if Less(k, EntryKey(es[0])) {
        forall i | 0 <= i < |es| ensures Less(k, EntryKey(es[i])) {
          if i > 0 { LessTransitive(k, EntryKey(es[0]), EntryKey(es[i])); }
        }
      } else {
        assert es[0] in es;
        LessTotal(k, EntryKey(es[0]));
        InsertSorted(e, es[1..]);
        var rest := Insert(e, es[1..]);
        forall x | x in rest ensures Less(EntryKey(es[0]), EntryKey(x)) {
          assert x in multiset(rest);
          if x != e {
            assert x in es[1..];
            var i :| 0 <= i < |es[1..]| && es[1..][i] == x;
            assert es[i + 1] == x;
          }
        }
        assert es == [es[0]] + es[1..];
      }
    }
  }

  lemma {:induction false} SameMembers(xs: seq<StatEntry>, ys: seq<StatEntry>)
    requires multiset(xs) == multiset(ys)
    ensures |xs| == |ys| && forall e :: e in xs <==> e in ys
  {
    assert |multiset(xs)| == |multiset(ys)|;
    assert forall e :: e in xs <==> e in multiset(xs);
    assert forall e :: e in ys <==> e in multiset(ys);
  }

  lemma {:induction false} TailDistinct(es: seq<StatEntry>)
    requires es != [] && DistinctKeys(es)
    ensures DistinctKeys(es[1..]) && forall x <- es[1..] :: EntryKey(x) != EntryKey(es[0])
    ensures multiset(es) == multiset(es[1..]) + multiset{es[0]}
  {
    hide EntryKey;
    forall x | x in es[1..] ensures EntryKey(x) != EntryKey(es[0]) {
      var i :| 0 <= i < |es[1..]| && es[1..][i] == x;
      assert es[i + 1] == x;
    }
    assert es == [es[0]] + es[1..];
  }

  /** Sorting keeps the entries and puts their keys in strictly increasing order. */
  lemma {:induction false} SortedByKey(es: seq<StatEntry>)
    requires DistinctKeys(es)
    ensures Ordered(SortByKey(es)) && multiset(SortByKey(es)) == multiset(es)
  {
    hide EntryKey, DistinctKeys, Ordered, Insert;
    if es == [] {
      NothingOrdered();
    } else {
      TailDistinct(es);
      SortedByKey(es[1..]);
      SameMembers(SortByKey(es[1..]), es[1..]);
      InsertSorted(es[0], SortByKey(es[1..]));
    }
  }

  lemma {:induction false} NothingOrdered()
    ensures Ordered([])
  {}

  lemma {:induction false} OrderedDistinct(es: seq<StatEntry>)
    requires Ordered(es)
    ensures DistinctKeys(es)
  {
    hide Less, EntryKey;
    forall i, j | 0 <= i < j < |es| ensures EntryKey(es[i]) != EntryKey(es[j]) {
      LessTotal(EntryKey(es[i]), EntryKey(es[j]));
    }
  }

  // ----- entries as a map --------------------------------------------------------------

  function ToMap(es: seq<StatEntry>): map<Key, StatEntry> {
    if es == [] then map[] else ToMap(es[..|es| - 1])[EntryKey(es[|es| - 1]) := es[|es| - 1]]
  }

  lemma {:induction false} ToMapMembers(es: seq<StatEntry>)
    requires DistinctKeys(es)
    ensures forall e <- es :: EntryKey(e) in ToMap(es) && ToMap(es)[EntryKey(e)] == e
    ensures forall k <- ToMap(es).Keys :: ToMap(es)[k] in es && EntryKey(ToMap(es)[k]) == k
    ensures |ToMap(es)| == |es|
  {
    hide EntryKey;
    if es != [] {
      var n := |es| - 1;
      var init, last := es[..n], es[n];
      ToMapMembers(init);
    }
  }

  /** The map does not depend on the arrangement of the entries. */
  lemma {:induction false} ToMapOfSorted(es: seq<StatEntry>)
    requires DistinctKeys(es)
    ensures ToMap(SortByKey(es)) == ToMap(es)
  {
    hide EntryKey, ToMap, SortByKey, Less;
    var sorted := SortByKey(es);
    SortedByKey(es);
    OrderedDistinct(sorted);
    ToMapMembers(es);
    ToMapMembers(sorted);
    SameMembers(sorted, es);
    hide DistinctKeys, Ordered;
    SameMap(ToMap(sorted), ToMap(es), sorted, es);
  }

  lemma {:induction false} SameMap(m: map<Key, StatEntry>, n: map<Key, StatEntry>, xs: seq<StatEntry>, ys: seq<StatEntry>)
    requires forall e :: e in xs <==> e in ys
    requires forall e <- xs :: EntryKey(e) in m && m[EntryKey(e)] == e
    requires forall k <- m.Keys :: m[k] in xs && EntryKey(m[k]) == k
    requires forall e <- ys :: EntryKey(e) in n && n[EntryKey(e)] == e
    requires forall k <- n.Keys :: n[k] in ys && EntryKey(n[k]) == k
    ensures m == n
  {
    hide EntryKey;
    forall k ensures k in m <==> k in n {
      if k in m { assert m[k] in ys; }
      if k in n { assert n[k] in xs; }
    }
    forall k | k in m ensures m[k] == n[k] { assert m[k] in ys; }
  }
}
