/**
 On-disk tables at byte level (metastore/sstable.go): data records, index, Bloom filter and
 footer, written in one pass and parsed back when the file is opened.
 */
module SsTable {
  import opened BigEndian
  import opened VectorClock
  import opened StatKey
  import opened KeyOrder
  import Bloom

  const MAGIC: nat := 0x7466_7453_5354_4142
  const FOOTER: nat := 40

  /** An opened table. */
  datatype Table = Table(file: Bytes, filter: Bloom.Filter, index: map<Key, nat>, sortedKeys: seq<Key>)

  // ----- the file layout -----------------------------------------------------------

  function DataRecord(c: Codec, e: StatEntry): (b: Bytes)
    ensures |b| == 8 + |EntryKey(e)| + |c.enc(e)|
  {
    Put(|EntryKey(e)|, 4) + EntryKey(e) + Put(|c.enc(e)|, 4) + c.enc(e)
  }

  function DataSection(c: Codec, es: seq<StatEntry>): Bytes {
    if es == [] then [] else DataSection(c, es[..|es| - 1]) + DataRecord(c, es[|es| - 1])
  }

  /** Byte position of the i-th record. */
  function Offset(c: Codec, es: seq<StatEntry>, i: nat): nat
    requires i <= |es|
  {
    |DataSection(c, es[..i])|
  }

  function IndexRecord(k: Key, off: nat): (b: Bytes)
    ensures |b| == 12 + |k|
  {
    Put(|k|, 4) + k + Put(off, 8)
  }

  function IndexSection(c: Codec, es: seq<StatEntry>): Bytes {
    if es == [] then []
    else
      var n := |es| - 1;
      IndexSection(c, es[..n]) + IndexRecord(EntryKey(es[n]), |DataSection(c, es[..n])|)
  }

  function Footer(indexOff: nat, indexLen: nat, bloomOff: nat, bloomLen: nat): (b: Bytes)
    ensures |b| == FOOTER
  {
    Put(indexOff, 8) + Put(indexLen, 8) + Put(bloomOff, 8) + Put(bloomLen, 8) + Put(MAGIC, 8)
  }

  function IndexBuffer(c: Codec, es: seq<StatEntry>): Bytes {
    Put(|es|, 4) + IndexSection(c, es)
  }

  function Layout(data: Bytes, index: Bytes, bloom: Bytes): Bytes {
    data + index + bloom + Footer(|data|, |index|, |data| + |index|, |bloom|)
  }

  // ----- reading -------------------------------------------------------------------

  /** File.ReadAt of exactly `n` bytes; `None` is an I/O error. */
  function Slice(b: Bytes, off: nat, n: nat): Option<Bytes> {
    if off + n <= |b| then Some(b[off..off + n]) else None
  }

  /** SSTable.readAt. */
  function ReadAt(c: Codec, file: Bytes, off: nat): Option<StatEntry> {
    var kl := Slice(file, off, 4);
    if kl.None? then None else
    var keyLen := Get(kl.value);
    var vl := Slice(file, off + 4 + keyLen, 4);
    if vl.None? then None else
    var v := Slice(file, off + 8 + keyLen, Get(vl.value));
    if v.None? then None else c.dec(v.value)
  }

  /** The index entry at byte `p`: its key, its data offset and its length. */
  function IndexEntry(b: Bytes, p: nat): Option<(Key, nat, nat)> {
    if p + 4 > |b| then None else
    var n := Get(b[p..p + 4]);
    if p + 12 + n > |b| then None else
    Some((b[p + 4..p + 4 + n], Get(b[p + 4 + n..p + 12 + n]), 12 + n))
  }

  /** What openSSTable reads from an index buffer: `n` entries from byte `p` on. */
  function ParseIndex(b: Bytes, p: nat, n: nat): Option<seq<(Key, nat)>>
    decreases n
  {
    if n == 0 then Some([])
    else if IndexEntry(b, p).None? then None
    else
      var e := IndexEntry(b, p).value;
      var rest := ParseIndex(b, p + e.2, n - 1);
      if rest.None? then None else Some([(e.0, e.1)] + rest.value)
  }

  function IndexMap(ps: seq<(Key, nat)>): map<Key, nat> {
    if ps == [] then map[] else IndexMap(ps[..|ps| - 1])[ps[|ps| - 1].0 := ps[|ps| - 1].1]
  }

  function KeysOf(ps: seq<(Key, nat)>): seq<Key> {
    seq(|ps|, i requires 0 <= i < |ps| => ps[i].0)
  }

  /** openSSTable as a function of the file's bytes; `None` is an error (or a Go panic on a
      malformed index). */
  function Opened(file: Bytes): Option<Table> {
    if |file| < FOOTER then None else
    var f := file[|file| - FOOTER..];
    if Get(f[32..40]) != MAGIC then None else
    var idx := Slice(file, Get(f[0..8]), Get(f[8..16]));
    var blm := Slice(file, Get(f[16..24]), Get(f[24..32]));
    if idx.None? || blm.None? || |idx.value| < 4 then None else
    var ps := ParseIndex(idx.value, 4, Get(idx.value[0..4]));
    var filter := Bloom.Unmarshalled(blm.value);
    if ps.None? || filter.None? then None else
    Some(Table(file, filter.value, IndexMap(ps.value), KeysOf(ps.value)))
  }

  method OpenTable(file: Bytes) returns (r: Option<Table>)
    ensures r == Opened(file)
  {
    hide Get, IndexEntry, ParseIndex, IndexMap, Bloom.Unmarshalled;
    if |file| < FOOTER { return None; }
    var f := file[|file| - FOOTER..];
    if Get(f[32..40]) != MAGIC { return None; }
    var idx := Slice(file, Get(f[0..8]), Get(f[8..16]));
    var blm := Slice(file, Get(f[16..24]), Get(f[24..32]));
    if idx.None? || blm.None? || |idx.value| < 4 { return None; }
    var buf := idx.value;
    var count := Get(buf[0..4]);
    var index: map<Key, nat>, keys: seq<Key> := map[], [];
    ghost var ps: seq<(Key, nat)> := [];
    IndexMapEmpty();
    var p, i := 4, 0;
    while i < count
      invariant 0 <= i <= count
      invariant index == IndexMap(ps) && keys == KeysOf(ps)
      invariant ParseIndex(buf, 4, count) == Prepend(ps, ParseIndex(buf, p, count - i))
    {
      ParseIndexStep(buf, p, count - i, ps);
      var e := IndexEntry(buf, p);
      if e.None? { return None; }
      IndexMapStep(ps, (e.value.0, e.value.1));
      ps := ps + [(e.value.0, e.value.1)];
      index := index[e.value.0 := e.value.1];
      keys := keys + [e.value.0];
      p := p + e.value.2;
      i := i + 1;
    }
    ParseIndexEnd(buf, p, ps);
    var filter := Bloom.Unmarshal(blm.value);
    if filter.None? { return None; }
    r := Some(Table(file, filter.value, index, keys));
  }

  function Prepend(ps: seq<(Key, nat)>, rest: Option<seq<(Key, nat)>>): Option<seq<(Key, nat)>> {
    if rest.None? then None else Some(ps + rest.value)
  }

  lemma {:induction false} IndexMapEmpty()
    ensures IndexMap([]) == map[] && KeysOf([]) == []
    ensures forall o: Option<seq<(Key, nat)>> :: Prepend([], o) == o
  {
    forall o: Option<seq<(Key, nat)>> ensures Prepend([], o) == o {
      if o.Some? { assert [] + o.value == o.value; }
    }
  }

  lemma {:induction false} IndexMapStep(ps: seq<(Key, nat)>, p: (Key, nat))
    ensures IndexMap(ps + [p]) == IndexMap(ps)[p.0 := p.1] && KeysOf(ps + [p]) == KeysOf(ps) + [p.0]
  {
    assert (ps + [p])[..|ps|] == ps;
  }

  lemma {:induction false} ParseIndexStep(b: Bytes, p: nat, n: nat, ps: seq<(Key, nat)>)
    requires n > 0
    ensures IndexEntry(b, p).None? ==> ParseIndex(b, p, n) == None
    ensures IndexEntry(b, p).Some? ==>
      var e := IndexEntry(b, p).value;
      Prepend(ps, ParseIndex(b, p, n)) == Prepend(ps + [(e.0, e.1)], ParseIndex(b, p + e.2, n - 1))
  {
    hide IndexEntry;
    if IndexEntry(b, p).Some? {
      var e := IndexEntry(b, p).value;
      var rest := ParseIndex(b, p + e.2, n - 1);
      if rest.Some? { assert ps + ([(e.0, e.1)] + rest.value) == ps + [(e.0, e.1)] + rest.value; }
    }
  }

  lemma {:induction false} ParseIndexEnd(b: Bytes, p: nat, ps: seq<(Key, nat)>)
    ensures Prepend(ps, ParseIndex(b, p, 0)) == Some(ps)
  {
    assert ps + [] == ps;
  }

  // ----- sections and their parts -----------------------------------------------------

  ghost predicate AllAdmissible(c: Codec, es: seq<StatEntry>) {
    forall e <- es :: Admissible(c, e)
  }

  /** Position `i` splits the data section into what precedes the record, the record, the rest. */
  lemma {:induction false} DataSplit(c: Codec, es: seq<StatEntry>, i: nat) returns (rest: Bytes)
    requires i < |es|
    ensures DataSection(c, es) == DataSection(c, es[..i]) + DataRecord(c, es[i]) + rest
  {
    hide DataRecord;
    var n := |es| - 1;
    if i == n {
      rest := [];
    } else {
      rest := DataSplit(c, es[..n], i);
      assert es[..n][..i] == es[..i];
      rest := rest + DataRecord(c, es[n]);
    }
  }

  lemma {:induction false} IndexSplit(c: Codec, es: seq<StatEntry>, i: nat) returns (rest: Bytes)
    requires i < |es|
    ensures IndexSection(c, es) == IndexSection(c, es[..i]) + IndexRecord(EntryKey(es[i]), Offset(c, es, i)) + rest
    ensures IndexSection(c, es[..i + 1]) == IndexSection(c, es[..i]) + IndexRecord(EntryKey(es[i]), Offset(c, es, i))
  {
    hide IndexRecord, DataSection, EntryKey;
    var n := |es| - 1;
    assert es[..i + 1][..i] == es[..i] && es[..i + 1][i] == es[i];
    if i == n {
      assert es[..i + 1] == es;
      rest := [];
    } else {
      rest := IndexSplit(c, es[..n], i);
      assert es[..n][..i] == es[..i] && es[..n][..i + 1] == es[..i + 1];
      rest := rest + IndexRecord(EntryKey(es[n]), |DataSection(c, es[..n])|);
    }
  }

  lemma {:induction false} SizeBound(c: Codec, es: seq<StatEntry>)
    requires AllAdmissible(c, es)
    ensures |DataSection(c, es)| <= |es| * (MAX_MESSAGE + 8)
    ensures |IndexSection(c, es)| <= |es| * (MAX_MESSAGE + 12)
  {
    hide DataRecord, IndexRecord;
    if es != [] {
      var n := |es| - 1;
      SizeBound(c, es[..n]);
      assert Admissible(c, es[n]);
    }
  }

  lemma {:induction false} IndexEntryRoundTrip(pre: Bytes, k: Key, off: nat, post: Bytes)
    requires |k| < U32_LIMIT && off < U64_LIMIT
    ensures IndexEntry(pre + IndexRecord(k, off) + post, |pre|) == Some((k, off, 12 + |k|))
  {
    hide Put, Get;
    var rec := IndexRecord(k, off);
    var b := pre + rec + post;
    var p, n := |pre|, |k|;
    assert rec[0..4] == Put(n, 4) && rec[4..4 + n] == k && rec[4 + n..12 + n] == Put(off, 8);
    assert b[p..p + 4] == rec[0..4] && b[p + 4..p + 4 + n] == rec[4..4 + n] && b[p + 4 + n..p + 12 + n] == rec[4 + n..12 + n];
    GetPut32(n);
    GetPut64(off);
  }

  /** The index entries of a file, in order. */
  function Pairs(c: Codec, es: seq<StatEntry>): seq<(Key, nat)> {
    seq(|es|, i requires 0 <= i < |es| => (EntryKey(es[i]), Offset(c, es, i)))
  }

  /** Small enough for the format's 32-bit and 64-bit fields. */
  ghost predicate Fits(c: Codec, es: seq<StatEntry>) {
    AllAdmissible(c, es) && |es| < U32_LIMIT
  }

  lemma {:induction false} OffsetBound(c: Codec, es: seq<StatEntry>, i: nat)
    requires Fits(c, es) && i <= |es|
    ensures Offset(c, es, i) <= |es| * (MAX_MESSAGE + 8) < U64_LIMIT
  {
    hide DataSection, Admissible;
    SizeBound(c, es[..i]);
    assert i * (MAX_MESSAGE + 8) <= |es| * (MAX_MESSAGE + 8);
  }

  /** Parsing the index buffer from its j-th entry on yields the remaining entries. */
  lemma {:induction false} ParseIndexFrom(c: Codec, es: seq<StatEntry>, j: nat)
    requires Fits(c, es) && j <= |es|
    ensures ParseIndex(IndexBuffer(c, es), 4 + |IndexSection(c, es[..j])|, |es| - j) == Some(Pairs(c, es)[j..])
    decreases |es| - j
  {
    hide Put, Get, IndexEntry, IndexSection, IndexRecord, DataSection, Offset, EntryKey, Admissible;
    if j < |es| {
      var buf := IndexBuffer(c, es);
      var k, off := EntryKey(es[j]), Offset(c, es, j);
      var rest := IndexSplit(c, es, j);
      var pre := Put(|es|, 4) + IndexSection(c, es[..j]);
      assert buf == pre + IndexRecord(k, off) + rest;
      KeyBound(c, es, j);
      OffsetBound(c, es, j);
      IndexEntryRoundTrip(pre, k, off, rest);
      ParseIndexFrom(c, es, j + 1);
      assert Pairs(c, es)[j..] == [(k, off)] + Pairs(c, es)[j + 1..];
    }
  }

  lemma {:induction false} KeyBound(c: Codec, es: seq<StatEntry>, i: nat)
    requires AllAdmissible(c, es) && i < |es|
    ensures |EntryKey(es[i])| + |c.enc(es[i])| <= MAX_MESSAGE && c.dec(c.enc(es[i])) == Some(es[i])
  {
    assert Admissible(c, es[i]);
  }

  /** A record is read back at its offset, whatever follows the data section. */
  lemma {:induction false} ReadAtRecord(c: Codec, es: seq<StatEntry>, i: nat, post: Bytes)
    requires AllAdmissible(c, es) && i < |es|
    ensures ReadAt(c, DataSection(c, es) + post, Offset(c, es, i)) == Some(es[i])
  {
    hide Put, Get, DataSection, EntryKey, AllAdmissible;
    var rest := DataSplit(c, es, i);
    var pre := DataSection(c, es[..i]);
    var e := es[i];
    var b := DataSection(c, es) + post;
    KeyBound(c, es, i);
    assert b == pre + DataRecord(c, e) + (rest + post);
    RecordFields(c, e, pre, rest + post);
  }

  lemma {:induction false} RecordFields(c: Codec, e: StatEntry, pre: Bytes, post: Bytes)
    requires |EntryKey(e)| + |c.enc(e)| <= MAX_MESSAGE
    ensures var b, p, k, v := pre + DataRecord(c, e) + post, |pre|, |EntryKey(e)|, |c.enc(e)|;
      && p + 8 + k + v <= |b|
      && Get(b[p..p + 4]) == k && Get(b[p + 4 + k..p + 8 + k]) == v && b[p + 8 + k..p + 8 + k + v] == c.enc(e)
  {
    hide Put, Get, EntryKey;
    var rec := DataRecord(c, e);
    var b, p, k, v := pre + rec + post, |pre|, |EntryKey(e)|, |c.enc(e)|;
    assert rec[0..4] == Put(k, 4) && rec[4 + k..8 + k] == Put(v, 4) && rec[8 + k..8 + k + v] == c.enc(e);
    assert b[p..p + 4] == rec[0..4] && b[p + 4 + k..p + 8 + k] == rec[4 + k..8 + k] && b[p + 8 + k..p + 8 + k + v] == rec[8 + k..8 + k + v];
    GetPut32(k);
    GetPut32(v);
  }

  lemma {:induction false} IndexMapOfPairs(c: Codec, es: seq<StatEntry>, ps: seq<(Key, nat)>)
    requires DistinctKeys(es) && |ps| == |es| && forall i :: 0 <= i < |es| ==> ps[i].0 == EntryKey(es[i])
    ensures IndexMap(ps).Keys == ToMap(es).Keys
    ensures forall i :: 0 <= i < |es| ==> ps[i].0 in IndexMap(ps) && IndexMap(ps)[ps[i].0] == ps[i].1
  {
    hide EntryKey;
    if es != [] {
      var n := |es| - 1;
      IndexMapOfPairs(c, es[..n], ps[..n]);
      forall i | 0 <= i < |es| ensures ps[i].0 in IndexMap(ps) && IndexMap(ps)[ps[i].0] == ps[i].1 {
        if i < n {
          assert ps[..n][i] == ps[i];
          assert EntryKey(es[i]) != EntryKey(es[n]);
        }
      }
    }
  }

  // ----- opening what was written ------------------------------------------------------

  lemma {:induction false} FooterFields(a: nat, b: nat, c: nat, d: nat)
    requires a < U64_LIMIT && b < U64_LIMIT && c < U64_LIMIT && d < U64_LIMIT
    ensures var f := Footer(a, b, c, d);
      Get(f[0..8]) == a && Get(f[8..16]) == b && Get(f[16..24]) == c && Get(f[24..32]) == d && Get(f[32..40]) == MAGIC
  {
    hide Put, Get;
    var f := Footer(a, b, c, d);
    assert f[0..8] == Put(a, 8) && f[8..16] == Put(b, 8) && f[16..24] == Put(c, 8) && f[24..32] == Put(d, 8) && f[32..40] == Put(MAGIC, 8);
    GetPut64(a);
    GetPut64(b);
    GetPut64(c);
    GetPut64(d);
    GetPut64(MAGIC);
  }

  lemma {:induction false} LayoutParts(data: Bytes, index: Bytes, bloom: Bytes)
    requires |data| + |index| + |bloom| < U64_LIMIT
    ensures var file := Layout(data, index, bloom);
      && |file| >= FOOTER
      && var f := file[|file| - FOOTER..];
      && f == Footer(|data|, |index|, |data| + |index|, |bloom|)
      && Slice(file, |data|, |index|) == Some(index) && Slice(file, |data| + |index|, |bloom|) == Some(bloom)
      && exists post :: file == data + post
  {
    hide Footer;
    var file := Layout(data, index, bloom);
    var f := Footer(|data|, |index|, |data| + |index|, |bloom|);
    assert file[|file| - FOOTER..] == f;
    assert file[|data|..|data| + |index|] == index;
    assert file[|data| + |index|..|data| + |index| + |bloom|] == bloom;
    assert file == data + (index + bloom + f);
  }

  ghost predicate SizesOk(c: Codec, es: seq<StatEntry>, filter: Bloom.Filter) {
    Fits(c, es) && Bloom.Valid(filter)
  }

  lemma {:induction false} TotalBound(c: Codec, es: seq<StatEntry>, filter: Bloom.Filter)
    requires SizesOk(c, es, filter)
    ensures |DataSection(c, es)| + |IndexBuffer(c, es)| + |Bloom.Marshal(filter)| < U64_LIMIT
  {
    hide DataSection, IndexSection, Bloom.Marshal, Put;
    SizeBound(c, es);
    assert |es| * (MAX_MESSAGE + 8) < U32_LIMIT * (MAX_MESSAGE + 8);
    assert |es| * (MAX_MESSAGE + 12) < U32_LIMIT * (MAX_MESSAGE + 12);
  }

  /** openSSTable undoes writeSSTable: index, key list and filter come back as written. */
  lemma {:induction false} OpenOfWritten(c: Codec, es: seq<StatEntry>, filter: Bloom.Filter)
    requires SizesOk(c, es, filter)
    ensures var file := Layout(DataSection(c, es), IndexBuffer(c, es), Bloom.Marshal(filter));
      Opened(file) == Some(Table(file, filter, IndexMap(Pairs(c, es)), KeysOf(Pairs(c, es))))
  {
    hide Put, Get, DataSection, IndexSection, Bloom.Marshal, Bloom.Unmarshalled, Layout, Footer, ParseIndex, IndexMap, KeysOf, Slice, Bloom.Valid, AllAdmissible;
    var data, index, bloom := DataSection(c, es), IndexBuffer(c, es), Bloom.Marshal(filter);
    TotalBound(c, es, filter);
    LayoutParts(data, index, bloom);
    FooterFields(|data|, |index|, |data| + |index|, |bloom|);
    Bloom.MarshalRoundTrip(filter);
    ParseIndexFrom(c, es, 0);
    assert es[..0] == [] && |IndexSection(c, es[..0])| == 0 by { EmptyIndex(c); }
    assert Pairs(c, es)[0..] == Pairs(c, es);
    assert index[0..4] == Put(|es|, 4);
    GetPut32(|es|);
  }

  lemma {:induction false} EmptyIndex(c: Codec)
    ensures IndexSection(c, []) == []
  {}

  // ----- tables as maps ------------------------------------------------------------------

  /** The filter admits every indexed key, and every indexed record can be read. */
  ghost predicate WellFormed(c: Codec, h: Bloom.Hashes, t: Table) {
    && Bloom.Valid(t.filter)
    && (forall k <- t.index.Keys :: Bloom.MayContain(h, t.filter, k) && ReadAt(c, t.file, t.index[k]).Some?)
    && (forall i :: 0 <= i < |t.sortedKeys| ==> t.sortedKeys[i] in t.index)
    && (forall k <- t.index.Keys :: k in t.sortedKeys)
    && (forall i, j :: 0 <= i < j < |t.sortedKeys| ==> Less(t.sortedKeys[i], t.sortedKeys[j]))
  }

  /** The entries of a table by key. */
  ghost function TableMap(c: Codec, t: Table): map<Key, StatEntry> {
    map k | k in t.index && ReadAt(c, t.file, t.index[k]).Some? :: ReadAt(c, t.file, t.index[k]).value
  }

  /** A table written from entries in key order maps exactly their keys to them. */
  lemma {:induction false} WrittenTable(c: Codec, h: Bloom.Hashes, es: seq<StatEntry>, filter: Bloom.Filter, t: Table)
    requires SizesOk(c, es, filter) && Ordered(es)
    requires forall i :: 0 <= i < |es| ==> Bloom.MayContain(h, filter, EntryKey(es[i]))
    requires t.file == Layout(DataSection(c, es), IndexBuffer(c, es), Bloom.Marshal(filter))
    requires t == Table(t.file, filter, IndexMap(Pairs(c, es)), KeysOf(Pairs(c, es)))
    ensures WellFormed(c, h, t) && TableMap(c, t) == ToMap(es)
  {
    hide Layout, DataSection, IndexBuffer, Bloom.Marshal, IndexMap, ReadAt, Bloom.MayContain, EntryKey, Offset, Less, ToMap, AllAdmissible, Bloom.Valid;
    OrderedDistinct(es);
    ToMapMembers(es);
    var ps := Pairs(c, es);
    IndexMapOfPairs(c, es, ps);
    forall k | k in t.index ensures IndexedKey(c, h, es, t, k) {
      var i :| 0 <= i < |es| && es[i] == ToMap(es)[k];
      WrittenRecord(c, es, filter, i);
      assert ps[i].0 == k && t.sortedKeys[i] == k;
    }
    hide IndexedKey, WellFormed, TableMap, KeysOf, Ordered, SizesOk, DistinctKeys;
    AssembleTable(c, h, es, t);
  }

  lemma {:induction false} AssembleTable(c: Codec, h: Bloom.Hashes, es: seq<StatEntry>, t: Table)
    requires Ordered(es) && Bloom.Valid(t.filter) && t.index.Keys == ToMap(es).Keys
    requires t.sortedKeys == KeysOf(Pairs(c, es)) && forall i :: 0 <= i < |es| ==> EntryKey(es[i]) in t.index
    requires forall k <- t.index.Keys :: IndexedKey(c, h, es, t, k)
    ensures WellFormed(c, h, t) && TableMap(c, t) == ToMap(es)
  {
    hide ReadAt, Bloom.MayContain, EntryKey, Offset, Less, ToMap, Bloom.Valid;
    assert forall i :: 0 <= i < |es| ==> t.sortedKeys[i] == EntryKey(es[i]);
    forall k | k in t.index ensures Bloom.MayContain(h, t.filter, k) && ReadAt(c, t.file, t.index[k]) == Some(ToMap(es)[k]) && k in t.sortedKeys {
      assert IndexedKey(c, h, es, t, k);
    }
  }

  /** The key passes the filter, its record reads back, and it is listed. */
  ghost predicate IndexedKey(c: Codec, h: Bloom.Hashes, es: seq<StatEntry>, t: Table, k: Key) {
    && Bloom.Valid(t.filter) && Bloom.MayContain(h, t.filter, k) && k in t.sortedKeys
    && k in t.index && k in ToMap(es) && ReadAt(c, t.file, t.index[k]) == Some(ToMap(es)[k])
  }

  lemma {:induction false} WrittenRecord(c: Codec, es: seq<StatEntry>, filter: Bloom.Filter, i: nat)
    requires SizesOk(c, es, filter) && i < |es|
    ensures ReadAt(c, Layout(DataSection(c, es), IndexBuffer(c, es), Bloom.Marshal(filter)), Offset(c, es, i)) == Some(es[i])
  {
    hide Layout, DataSection, IndexBuffer, Bloom.Marshal, ReadAt, Offset, AllAdmissible, Bloom.Valid;
    var data, index, bloom := DataSection(c, es), IndexBuffer(c, es), Bloom.Marshal(filter);
    TotalBound(c, es, filter);
    LayoutParts(data, index, bloom);
    var post :| Layout(data, index, bloom) == data + post;
    ReadAtRecord(c, es, i, post);
  }

  // ----- writeSSTable, Get, Scan -----------------------------------------------------------

  lemma {:induction false} OffsetStep(c: Codec, es: seq<StatEntry>, i: nat)
    requires i < |es|
    ensures DataSection(c, es[..i + 1]) == DataSection(c, es[..i]) + DataRecord(c, es[i])
    ensures IndexSection(c, es[..i + 1]) == IndexSection(c, es[..i]) + IndexRecord(EntryKey(es[i]), Offset(c, es, i))
  {
    hide DataRecord, IndexRecord, EntryKey;
    assert es[..i + 1][..i] == es[..i] && es[..i + 1][i] == es[i];
  }

  lemma {:induction false} SortKeeps(c: Codec, entries: seq<StatEntry>)
    requires DistinctKeys(entries) && Fits(c, entries)
    ensures var es := SortByKey(entries);
      Fits(c, es) && Ordered(es) && DistinctKeys(es) && ToMap(es) == ToMap(entries) && |es| == |entries|
      && forall e :: e in es <==> e in entries
  {
    hide Admissible, EntryKey, Less, ToMap, SortByKey;
    var es := SortByKey(entries);
    SortedByKey(entries);
    OrderedDistinct(es);
    ToMapOfSorted(entries);
    SameMembers(es, entries);
  }

  /** writeSSTable: sort, write data, index, filter and footer, then open the file. */
  method WriteTable(c: Codec, h: Bloom.Hashes, entries: seq<StatEntry>, m: nat, k: nat) returns (t: Option<Table>)
    requires DistinctKeys(entries) && Fits(c, entries)
    requires 0 < m <= 64 * (U32_LIMIT - 1) && 0 < k < U32_LIMIT
    ensures t.Some? && WellFormed(c, h, t.value) && TableMap(c, t.value) == ToMap(entries)
    ensures Opened(t.value.file) == t
  {
    hide Put, DataSection, IndexSection, DataRecord, IndexRecord, EntryKey, ToMap, SortByKey, Less, Admissible, Bloom.MayContain, Bloom.Valid, Offset, Opened, Layout, Bloom.Marshal, WellFormed, TableMap, IndexMap, Bloom.BitAt;
    SortKeeps(c, entries);
    var es := SortByKey(entries);
    var filter := Bloom.NewFilter(m, k);
    var file, index, keys := WriteData(c, es);
    var i := 0;
    while i < |es|
      invariant 0 <= i <= |es|
      invariant Bloom.Valid(filter)
      invariant forall j :: 0 <= j < i ==> Bloom.MayContain(h, filter, EntryKey(es[j]))
    {
      filter := Bloom.Add(h, filter, EntryKey(es[i]));
      i := i + 1;
    }
    var buf := WriteIndex(c, es, keys, index);
    file := Layout(file, buf, Bloom.Marshal(filter));
    OpenOfWritten(c, es, filter);
    t := OpenTable(file);
    WrittenTable(c, h, es, filter, t.value);
    OpenedFile(file);
  }

  lemma {:induction false} OpenedFile(file: Bytes)
    ensures Opened(file).Some? ==> Opened(file).value.file == file
  {
    hide Get, ParseIndex, IndexMap, KeysOf, Bloom.Unmarshalled;
  }

  /** The first `n` keys are listed in order and indexed at their records' positions. */
  ghost predicate Indexed(c: Codec, es: seq<StatEntry>, keys: seq<Key>, index: map<Key, nat>, n: nat) {
    && n <= |es| && |keys| == n
    && forall j :: 0 <= j < n ==> keys[j] == EntryKey(es[j]) && keys[j] in index && index[keys[j]] == Offset(c, es, j)
  }

  lemma {:induction false} IndexedStep(c: Codec, es: seq<StatEntry>, keys: seq<Key>, index: map<Key, nat>, n: nat)
    requires DistinctKeys(es) && n < |es| && Indexed(c, es, keys, index, n)
    ensures var k := EntryKey(es[n]);
      Indexed(c, es, keys + [k], index[k := Offset(c, es, n)], n + 1)
  {
    hide EntryKey, Offset;
    var k := EntryKey(es[n]);
    forall j | 0 <= j < n ensures keys[j] != k { assert keys[j] == EntryKey(es[j]); }
  }

  /** The data loop: records one after another, each key's position remembered. */
  method WriteData(c: Codec, es: seq<StatEntry>) returns (file: Bytes, index: map<Key, nat>, keys: seq<Key>)
    requires DistinctKeys(es)
    ensures file == DataSection(c, es) && Indexed(c, es, keys, index, |es|)
  {
    hide DataRecord, EntryKey, DataSection, Indexed, DistinctKeys;
    file, index, keys := [], map[], [];
    var i := 0;
    assert es[..0] == [];
    EmptyData(c);
    assert Indexed(c, es, keys, index, 0) by { NothingIndexed(c, es); }
    while i < |es|
      invariant 0 <= i <= |es|
      invariant file == DataSection(c, es[..i]) && Indexed(c, es, keys, index, i)
    {
      OffsetStep(c, es, i);
      IndexedStep(c, es, keys, index, i);
      var k := EntryKey(es[i]);
      index := index[k := |file|];
      keys := keys + [k];
      file := file + DataRecord(c, es[i]);
      i := i + 1;
    }
    assert es[..|es|] == es;
  }

  lemma {:induction false} NothingIndexed(c: Codec, es: seq<StatEntry>)
    ensures Indexed(c, es, [], map[], 0)
  {}

  lemma {:induction false} EmptyData(c: Codec)
    ensures DataSection(c, []) == []
  {}

  /** The index loop over the remembered positions. */
  method WriteIndex(c: Codec, es: seq<StatEntry>, keys: seq<Key>, index: map<Key, nat>) returns (buf: Bytes)
    requires Indexed(c, es, keys, index, |es|)
    ensures buf == IndexBuffer(c, es)
  {
    hide Put, IndexSection, IndexRecord, EntryKey, Offset;
    buf := Put(|keys|, 4);
    var i := 0;
    assert es[..0] == [];
    EmptyIndex(c);
    while i < |keys|
      invariant 0 <= i <= |keys|
      invariant buf == Put(|es|, 4) + IndexSection(c, es[..i])
    {
      OffsetStep(c, es, i);
      buf := buf + IndexRecord(keys[i], index[keys[i]]);
      i := i + 1;
    }
    assert es[..|es|] == es;
  }

  /** SSTable.Get: the Bloom filter skips tables, the index finds the record. */
  method GetEntry(c: Codec, h: Bloom.Hashes, t: Table, k: Key) returns (r: Option<StatEntry>)
    requires WellFormed(c, h, t)
    ensures r == if k in TableMap(c, t) then Some(TableMap(c, t)[k]) else None
  {
    if !Bloom.MayContain(h, t.filter, k) { return None; }
    if k !in t.index { return None; }
    r := ReadAt(c, t.file, t.index[k]);
  }

  /** The matching entries under the first `n` listed keys, in listing order. */
  ghost function Scanned(c: Codec, t: Table, match_: StatEntry -> bool, n: nat): seq<StatEntry>
    requires n <= |t.sortedKeys| && forall i :: 0 <= i < |t.sortedKeys| ==> t.sortedKeys[i] in TableMap(c, t)
  {
    if n == 0 then []
    else
      var rest, e := Scanned(c, t, match_, n - 1), TableMap(c, t)[t.sortedKeys[n - 1]];
      if match_(e) then rest + [e] else rest
  }

  lemma {:induction false} ListedKeys(c: Codec, h: Bloom.Hashes, t: Table)
    requires WellFormed(c, h, t)
    ensures forall i :: 0 <= i < |t.sortedKeys| ==> t.sortedKeys[i] in TableMap(c, t)
    ensures forall k <- TableMap(c, t).Keys :: k in t.sortedKeys
  {
    hide ReadAt, Bloom.MayContain, Bloom.Valid, Less;
  }

  /** SSTable.Scan. */
  method ScanEntries(c: Codec, h: Bloom.Hashes, t: Table, match_: StatEntry -> bool) returns (out: Option<seq<StatEntry>>)
    requires WellFormed(c, h, t)
    ensures forall i :: 0 <= i < |t.sortedKeys| ==> t.sortedKeys[i] in TableMap(c, t)
    ensures out == Some(Scanned(c, t, match_, |t.sortedKeys|))
  {
    hide ReadAt, Bloom.MayContain, Bloom.Valid, Less, WellFormed;
    ListedKeys(c, h, t);
    var found: seq<StatEntry> := [];
    var i := 0;
    while i < |t.sortedKeys|
      invariant 0 <= i <= |t.sortedKeys|
      invariant found == Scanned(c, t, match_, i)
    {
      var e := ReadAt(c, t.file, t.index[t.sortedKeys[i]]);
      if e.None? { return None; }
      if match_(e.value) { found := found + [e.value]; }
      i := i + 1;
    }
    out := Some(found);
  }

  /** A scan lists exactly the matching entries of the table, in strictly increasing key order. */
  lemma {:induction false} ScannedExact(c: Codec, h: Bloom.Hashes, t: Table, match_: StatEntry -> bool)
    requires WellFormed(c, h, t) && forall k <- TableMap(c, t).Keys :: EntryKey(TableMap(c, t)[k]) == k
    ensures forall i :: 0 <= i < |t.sortedKeys| ==> t.sortedKeys[i] in TableMap(c, t)
    ensures var out := Scanned(c, t, match_, |t.sortedKeys|);
      && Ordered(out)
      && forall e :: e in out <==> EntryKey(e) in TableMap(c, t) && TableMap(c, t)[EntryKey(e)] == e && match_(e)
  {
    ListedKeys(c, h, t);
    hide ReadAt, Bloom.MayContain, Bloom.Valid, Less, TableMap, EntryKey;
    ScannedPrefix(c, t, match_, |t.sortedKeys|);
    var out := Scanned(c, t, match_, |t.sortedKeys|);
    forall e | EntryKey(e) in TableMap(c, t) && TableMap(c, t)[EntryKey(e)] == e && match_(e) ensures e in out {
      var j :| 0 <= j < |t.sortedKeys| && t.sortedKeys[j] == EntryKey(e);
    }
  }

  lemma {:induction false} ScannedPrefix(c: Codec, t: Table, match_: StatEntry -> bool, n: nat)
    requires n <= |t.sortedKeys| && forall i :: 0 <= i < |t.sortedKeys| ==> t.sortedKeys[i] in TableMap(c, t)
    requires forall k <- TableMap(c, t).Keys :: EntryKey(TableMap(c, t)[k]) == k
    requires forall i, j :: 0 <= i < j < |t.sortedKeys| ==> Less(t.sortedKeys[i], t.sortedKeys[j])
    ensures var out := Scanned(c, t, match_, n);
      && Ordered(out)
      && (forall i :: 0 <= i < |out| ==> match_(out[i]) && EntryKey(out[i]) in TableMap(c, t) && TableMap(c, t)[EntryKey(out[i])] == out[i])
      && (forall i :: 0 <= i < |out| ==> exists j :: 0 <= j < n && EntryKey(out[i]) == t.sortedKeys[j])
      && (forall j :: 0 <= j < n && match_(TableMap(c, t)[t.sortedKeys[j]]) ==> TableMap(c, t)[t.sortedKeys[j]] in out)
    decreases n
  {
    hide Less, TableMap, EntryKey;
    if n > 0 {
      ScannedPrefix(c, t, match_, n - 1);
      var rest, k := Scanned(c, t, match_, n - 1), t.sortedKeys[n - 1];
      assert EntryKey(TableMap(c, t)[k]) == k;
      forall i | 0 <= i < |rest| ensures Less(EntryKey(rest[i]), k) {
        var j :| 0 <= j < n - 1 && EntryKey(rest[i]) == t.sortedKeys[j];
      }
    }
  }
}
