/**
 The Bloom filter in front of every table (metastore/bloom.go): no false negatives, also
 after the filter has been written to and read back from a table file.
 */
module Bloom {
  import opened BigEndian

  /** fnv1a of the key and of the salted key; any functions into 64 bits will do. */
  datatype Hashes = Hashes(h1: Bytes -> nat, h2: Bytes -> nat)

  datatype Filter = Filter(words: seq<nat>, m: nat, k: nat)

  predicate Valid(f: Filter) {
    && 0 < f.m < U64_LIMIT && 0 < f.k < U32_LIMIT
    && |f.words| == (f.m + 63) / 64 && |f.words| < U32_LIMIT
    && forall i :: 0 <= i < |f.words| ==> f.words[i] < U64_LIMIT
  }

  // ----- bits of a word ----------------------------------------------------------

  /** w & (1 << i) != 0 */
  predicate Bit(w: nat, i: nat) {
    if i == 0 then w % 2 == 1 else Bit(w / 2, i - 1)
  }

  /** w | (1 << i) */
  function SetBit(w: nat, i: nat): nat {
    if i == 0 then (if w % 2 == 1 then w else w + 1)
    else 2 * SetBit(w / 2, i - 1) + w % 2
  }

  function Pow2(n: nat): nat {
    if n == 0 then 1 else 2 * Pow2(n - 1)
  }

  lemma {:induction false} BitOfSetBit(w: nat, i: nat, j: nat)
    ensures Bit(SetBit(w, i), j) <==> i == j || Bit(w, j)
  {
    if i == 0 {
      if j > 0 { assert SetBit(w, 0) / 2 == w / 2; }
    } else {
      var v := SetBit(w / 2, i - 1);
      assert (2 * v + w % 2) / 2 == v && (2 * v + w % 2) % 2 == w % 2;
      if j > 0 { BitOfSetBit(w / 2, i - 1, j - 1); }
    }
  }

  lemma {:induction false} SetBitStep(w: nat, i: nat)
    ensures SetBit(w, i) == if i == 0 then 2 * (w / 2) + 1 else 2 * SetBit(w / 2, i - 1) + w % 2
  {}

  lemma {:induction false} SetBitBound(w: nat, i: nat, n: nat)
    requires w < Pow2(n) && i < n
    ensures SetBit(w, i) < Pow2(n)
  {
    hide SetBit;
    assert Pow2(n) == 2 * Pow2(n - 1);
    SetBitStep(w, i);
    if i > 0 { SetBitBound(w / 2, i - 1, n - 1); }
  }

  lemma {:induction false} Pow2Of64()
    ensures Pow2(64) == U64_LIMIT
  {
    assert Pow2(8) == 0x100;
    assert Pow2(16) == 0x1_0000;
    assert Pow2(24) == 0x100_0000;
    assert Pow2(32) == 0x1_0000_0000;
    assert Pow2(40) == 0x100_0000_0000;
    assert Pow2(48) == 0x1_0000_0000_0000;
    assert Pow2(56) == 0x100_0000_0000_0000;
  }

  // ----- indices, Add, MayContain --------------------------------------------------

  /** The i-th probe position, with Go's wrap-around at 64 bits. */
  function Index(h: Hashes, f: Filter, key: Bytes, i: nat): (idx: nat)
    requires f.m > 0
    ensures idx < f.m
  {
    (h.h1(key) + i * h.h2(key)) % U64_LIMIT % f.m
  }

  predicate BitAt(f: Filter, idx: nat)
    requires Valid(f) && idx < f.m
  {
    Bit(f.words[idx / 64], idx % 64)
  }

  function Mark(f: Filter, idx: nat): Filter
    requires Valid(f) && idx < f.m
  {
    f.(words := f.words[idx / 64 := SetBit(f.words[idx / 64], idx % 64)])
  }

  lemma {:induction false} MarkSets(f: Filter, idx: nat, j: nat)
    requires Valid(f) && idx < f.m && j < f.m
    ensures Valid(Mark(f, idx)) && Mark(f, idx).m == f.m && Mark(f, idx).k == f.k
    ensures BitAt(Mark(f, idx), j) <==> j == idx || BitAt(f, j)
  {
    Pow2Of64();
    SetBitBound(f.words[idx / 64], idx % 64, 64);
    BitOfSetBit(f.words[idx / 64], idx % 64, j % 64);
    assert j == 64 * (j / 64) + j % 64 && idx == 64 * (idx / 64) + idx % 64;
  }

  /** NewBloomFilter, with the size formulas' results as parameters (m >= 64, 1 <= k <= 12). */
  method NewFilter(m: nat, k: nat) returns (f: Filter)
    requires 0 < m <= 64 * (U32_LIMIT - 1) && 0 < k < U32_LIMIT
    ensures Valid(f) && f.m == m && f.k == k
    ensures forall j :: 0 <= j < m ==> !BitAt(f, j)
    ensures forall h, key :: !MayContain(h, f, key)
  {
    f := Filter(seq((m + 63) / 64, _ => 0), m, k);
    forall j | 0 <= j < m ensures !BitAt(f, j) { ZeroHasNoBits(j % 64); }
    forall h, key ensures !MayContain(h, f, key) { assert !BitAt(f, Index(h, f, key, 0)); }
  }

  lemma {:induction false} ZeroHasNoBits(i: nat)
    ensures !Bit(0, i)
  {
    if i > 0 { ZeroHasNoBits(i - 1); }
  }

  predicate MayContain(h: Hashes, f: Filter, key: Bytes)
    requires Valid(f)
  {
    forall i :: 0 <= i < f.k ==> BitAt(f, Index(h, f, key, i))
  }

  /** Bit `j` is one of the first `n` probe positions of the key. */
  ghost predicate Probed(h: Hashes, f: Filter, key: Bytes, n: nat, j: nat)
    requires f.m > 0
  {
    exists i :: 0 <= i < n && j == Index(h, f, key, i)
  }

  lemma {:induction false} ProbedStep(h: Hashes, f: Filter, key: Bytes, n: nat, j: nat)
    requires f.m > 0
    ensures Probed(h, f, key, n + 1, j) <==> Probed(h, f, key, n, j) || j == Index(h, f, key, n)
  {
    hide Index;
  }

  /** As long as nothing wraps around, the probes start at the first hash and move on by the second. */
  lemma {:induction false} ProbesFollowHashes(h: Hashes, f: Filter, key: Bytes, i: nat)
    requires h.h1(key) + i * h.h2(key) < f.m <= U64_LIMIT
    ensures Index(h, f, key, i) == h.h1(key) + i * h.h2(key)
  {
    var x := h.h1(key) + i * h.h2(key);
    SmallMod(x, U64_LIMIT);
    SmallMod(x, f.m);
  }

  lemma {:induction false} SmallMod(a: nat, m: nat)
    requires a < m
    ensures a % m == a
  {}

  /** Position `j` is a probe of one of the keys. */
  ghost predicate Covered(h: Hashes, f: Filter, keys: set<Bytes>, j: nat)
    requires f.m > 0
  {
    exists key <- keys :: Probed(h, f, key, f.k, j)
  }

  /** The bits of a filter are exactly the probes of the added keys. */
  ghost predicate Built(h: Hashes, f: Filter, keys: set<Bytes>)
    requires Valid(f)
  {
    forall j :: 0 <= j < f.m ==> (BitAt(f, j) <==> Covered(h, f, keys, j))
  }

  /** A filter admits a key exactly when each of its probes is a probe of some added key. */
  lemma {:induction false} AdmitsExactly(h: Hashes, f: Filter, keys: set<Bytes>, key: Bytes)
    requires Valid(f) && Built(h, f, keys)
    ensures MayContain(h, f, key) <==> forall i :: 0 <= i < f.k ==> Covered(h, f, keys, Index(h, f, key, i))
  {
    hide Index, Covered, BitAt;
  }

  /** Add sets exactly the key's probe bits, so afterwards the key may be contained, and every
      key that could be contained before still can. */
  method Add(h: Hashes, f: Filter, key: Bytes) returns (f': Filter)
    requires Valid(f)
    ensures Valid(f') && f'.m == f.m && f'.k == f.k
    ensures forall j :: 0 <= j < f.m ==> (BitAt(f', j) <==> BitAt(f, j) || Probed(h, f, key, f.k, j))
    ensures MayContain(h, f', key)
    ensures forall other :: MayContain(h, f, other) ==> MayContain(h, f', other)
    ensures forall keys :: Built(h, f, keys) ==> Built(h, f', keys + {key})
  {
    hide Index, BitAt, Mark;
    f' := f;
    var i := 0;
    while i < f.k
      invariant 0 <= i <= f.k
      invariant Valid(f') && f'.m == f.m && f'.k == f.k
      invariant forall j :: 0 <= j < f.m ==> (BitAt(f', j) <==> BitAt(f, j) || Probed(h, f, key, i, j))
    {
      IndexSame(h, f, f', key, i);
      var idx := Index(h, f', key, i);
      var next := Mark(f', idx);
      MarkSets(f', idx, idx);
      forall j | 0 <= j < f.m ensures BitAt(next, j) <==> BitAt(f, j) || Probed(h, f, key, i + 1, j) {
        MarkSets(f', idx, j);
        ProbedStep(h, f, key, i, j);
      }
      f' := next;
      i := i + 1;
    }
    forall other, n | 0 <= n < f.k ensures Index(h, f', other, n) == Index(h, f, other, n) {
      IndexSame(h, f, f', other, n);
    }
  }

  lemma {:induction false} IndexSame(h: Hashes, f: Filter, f': Filter, key: Bytes, i: nat)
    requires f.m > 0 && f'.m == f.m
    ensures Index(h, f', key, i) == Index(h, f, key, i)
  {}

  // ----- Marshal / UnmarshalBloom -----------------------------------------------------

  function WordBytes(ws: seq<nat>): (b: Bytes)
    ensures |b| == 8 * |ws|
  {
    if ws == [] then [] else WordBytes(ws[..|ws| - 1]) + Put(ws[|ws| - 1], 8)
  }

  function Marshal(f: Filter): (b: Bytes)
    ensures |b| == 16 + 8 * |f.words|
  {
    Put(f.m, 8) + Put(f.k, 4) + Put(|f.words|, 4) + WordBytes(f.words)
  }

  lemma {:induction false} WordBytesAt(ws: seq<nat>, i: nat)
    requires i < |ws|
    ensures WordBytes(ws)[8 * i..8 * i + 8] == Put(ws[i], 8)
  {
    hide Put;
    var n := |ws| - 1;
    var b := WordBytes(ws[..n]);
    assert WordBytes(ws) == b + Put(ws[n], 8);
    if i < n {
      WordBytesAt(ws[..n], i);
      assert (b + Put(ws[n], 8))[8 * i..8 * i + 8] == b[8 * i..8 * i + 8];
    }
  }

  /** The default filter UnmarshalBloom falls back to: NewBloomFilter(1, 0.01) has 64 bits and 12 probes. */
  const DEFAULT: Filter := Filter([0], 64, 12)

  /** What UnmarshalBloom reads; `None` where Go would panic on a slice out of range. */
  function Unmarshalled(b: Bytes): Option<Filter> {
    if |b| < 16 then Some(DEFAULT)
    else
      var n := Get(b[12..16]);
      if 16 + 8 * n > |b| then None
      else Some(Filter(seq(n, i requires 0 <= i < n => Get(b[16 + 8 * i..24 + 8 * i])), Get(b[0..8]), Get(b[8..12])))
  }

  method Unmarshal(b: Bytes) returns (r: Option<Filter>)
    ensures r == Unmarshalled(b)
  {
    hide Get;
    if |b| < 16 { return Some(DEFAULT); }
    var n := Get(b[12..16]);
    var words: seq<nat> := [];
    while |words| < n
      invariant |words| <= n
      invariant 16 + 8 * |words| <= |b|
      invariant forall i :: 0 <= i < |words| ==> words[i] == Get(b[16 + 8 * i..24 + 8 * i])
      decreases n - |words|
    {
      var p := 16 + 8 * |words|;
      if p + 8 > |b| { return None; }
      words := words + [Get(b[p..p + 8])];
    }
    r := Some(Filter(words, Get(b[0..8]), Get(b[8..12])));
    assert words == Unmarshalled(b).value.words;
  }

  /** Reading back a marshalled filter yields the same bits and parameters. */
  lemma {:induction false} MarshalRoundTrip(f: Filter)
    requires Valid(f)
    ensures Unmarshalled(Marshal(f)) == Some(f)
  {
    hide Put, Get, WordBytes;
    var b := Marshal(f);
    assert b[0..8] == Put(f.m, 8) && b[8..12] == Put(f.k, 4) && b[12..16] == Put(|f.words|, 4);
    assert b[16..] == WordBytes(f.words);
    GetPut64(f.m);
    GetPut32(f.k);
    GetPut32(|f.words|);
    forall i | 0 <= i < |f.words| ensures Get(b[16 + 8 * i..24 + 8 * i]) == f.words[i] {
      WordBytesAt(f.words, i);
      assert b[16 + 8 * i..24 + 8 * i] == b[16..][8 * i..8 * i + 8];
      GetPut64(f.words[i]);
    }
    assert Unmarshalled(b).value.words == f.words;
  }
}
